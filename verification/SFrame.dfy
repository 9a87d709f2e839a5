/** Media frames: a sending counter, nonces made by XOR, and a receive window per key id. */
module SFrame {
  import opened Bytes
  import opened Terms

  const KEY_LABEL: Str := Ascii("SFrame 1.0 Key")

  /** The 12-byte salt an HKDF draws from a base secret; any such function will do. */
  type SaltKdf = f: Secret -> Str | forall s :: |f(s)| == 12 witness (s: Secret) => Repeated(0, 12)

  datatype Keys = Keys(key: Secret, salt: Str)

  type FrameKeys = k: Keys | |k.salt| == 12 witness Keys(Fresh(0), Repeated(0, 12))

  function DeriveKeys(base: Secret, kdf: SaltKdf): FrameKeys {
    Keys(Hkdf([], [Block(base)], KEY_LABEL), kdf(base))
  }

  /** A frame off the wire, cut after its first 16 bytes; a shorter one is all header. */
  datatype Frame = Frame(header: Str, body: Sealed<Str>)
  type WireFrame = f: Frame | |f.header| <= 16 witness Frame([], Junk([]))

  datatype FrameError = FrameTooShort | ReplayRejected | NotAuthentic

  // ---- nonces and headers --------------------------------------------------

  /** Exclusive or of the low `w` bits. */
  function XorBits(a: nat, b: nat, w: nat): (r: nat)
  {
    if w == 0 then 0 else (if a % 2 == b % 2 then 0 else 1) + 2 * XorBits(a / 2, b / 2, w - 1)
  }

  function Pow2(w: nat): (p: nat)
    ensures p > 0
  {
    if w == 0 then 1 else 2 * Pow2(w - 1)
  }

  lemma {:induction false} XorBitsCancels(a: nat, b: nat, w: nat)
    requires a < Pow2(w) && b < Pow2(w)
    ensures XorBits(a, b, w) < Pow2(w)
    ensures XorBits(a, XorBits(a, b, w), w) == b
  {
    if w == 0 {
    } else {
      XorBitsCancels(a / 2, b / 2, w - 1);
      var x := XorBits(a / 2, b / 2, w - 1);
      assert XorBits(a, b, w) / 2 == x;
    }
  }

  lemma Pow2Eight()
    ensures Pow2(8) == 256
  {
    assert Pow2(4) == 16;
  }

  function Xor(a: Byte, b: Byte): Byte {
    Pow2Eight();
    XorBitsCancels(a, b, 8);
    XorBits(a, b, 8)
  }

  lemma XorInjective(a: Byte, b: Byte, c: Byte)
    ensures Xor(a, b) == Xor(a, c) <==> b == c
  {
    Pow2Eight();
    XorBitsCancels(a, b, 8);
    XorBitsCancels(a, c, 8);
  }

  /** Bit `i` of a number. */
  function Bit(x: nat, i: nat): nat {
    if i == 0 then x % 2 else Bit(x / 2, i - 1)
  }

  lemma {:induction false} XorBitsAt(a: nat, b: nat, w: nat, i: nat)
    requires i < w
    ensures Bit(XorBits(a, b, w), i) == if Bit(a, i) == Bit(b, i) then 0 else 1
    decreases i
  {
    assert XorBits(a, b, w) / 2 == XorBits(a / 2, b / 2, w - 1);
    if i == 0 {
    } else {
      XorBitsAt(a / 2, b / 2, w - 1, i - 1);
    }
  }

  /** A bit of the result is set exactly when the two bits differ. */
  lemma {:induction false} XorAt(a: Byte, b: Byte, i: nat)
    requires i < 8
    ensures Bit(Xor(a, b), i) == if Bit(a, i) == Bit(b, i) then 0 else 1
  {
    XorBitsAt(a, b, 8, i);
  }

  lemma {:induction false} XorTwice(a: Byte, b: Byte)
    ensures Xor(a, Xor(a, b)) == b
  {
    Pow2Eight();
    XorBitsCancels(a, b, 8);
  }

  /** The salt with the counter's eight bytes XORed into its last eight. */
  function Nonce(salt: Str, counter: u64): (n: Str)
    requires |salt| == 12
    ensures |n| == 12
  {
    var counterBytes := BigEndian(counter, 8);
    seq(12, i requires 0 <= i < 12 => if i < 4 then salt[i] else Xor(salt[i], counterBytes[i - 4]))
  }

  lemma NonceInjective(salt: Str, c: u64, d: u64)
    requires |salt| == 12
    ensures Nonce(salt, c) == Nonce(salt, d) <==> c == d
  {
    if Nonce(salt, c) == Nonce(salt, d) {
      var (x, y) := (BigEndian(c, 8), BigEndian(d, 8));
      forall i | 0 <= i < 8
        ensures x[i] == y[i]
      {
        assert Nonce(salt, c)[4 + i] == Nonce(salt, d)[4 + i];
        XorInjective(salt[4 + i], x[i], y[i]);
      }
      assert x == y;
      U64Bytes(c, d);
    }
  }

  /** The last eight bytes under a nonce and its salt. */
  function Unmasked(salt: Str, nonce: Str): (s: Str)
    requires |salt| == 12 == |nonce|
    ensures |s| == 8
  {
    seq(8, i requires 0 <= i < 8 => Xor(salt[4 + i], nonce[4 + i]))
  }

  /** A nonce starts with the salt's first four bytes, and its last eight, unmasked, are the counter. */
  lemma {:induction false} NonceReads(salt: Str, counter: u64)
    requires |salt| == 12
    ensures var n := Nonce(salt, counter);
            n[..4] == salt[..4] && FromBigEndian(Unmasked(salt, n)) == counter
  {
    var n := Nonce(salt, counter);
    forall i | 0 <= i < 8
      ensures Unmasked(salt, n)[i] == BigEndian(counter, 8)[i]
    {
      XorTwice(salt[4 + i], BigEndian(counter, 8)[i]);
    }
    assert Unmasked(salt, n) == BigEndian(counter, 8);
    Widths();
    DecodeEncode(counter, 8);
  }

  function Header(keyId: u64, counter: u64): (h: Str)
    ensures |h| == 16
  {
    BigEndian(keyId, 8) + BigEndian(counter, 8)
  }

  function HeaderKeyId(h: Str): u64
    requires |h| == 16
  {
    Widths();
    FromBigEndian(h[..8])
  }

  function HeaderCounter(h: Str): u64
    requires |h| == 16
  {
    Widths();
    FromBigEndian(h[8..])
  }

  /** The receiver reads back the sender's key id and counter, and only they make that header. */
  lemma HeaderRoundTrip(keyId: u64, counter: u64, h: Str)
    requires |h| == 16
    ensures h == Header(keyId, counter) <==> HeaderKeyId(h) == keyId && HeaderCounter(h) == counter
  {
    Widths();
    DecodeEncode(keyId, 8);
    DecodeEncode(counter, 8);
    EncodeDecode(h[..8]);
    EncodeDecode(h[8..]);
    assert h == h[..8] + h[8..];
    var s := Header(keyId, counter);
    assert s[..8] == BigEndian(keyId, 8) && s[8..] == BigEndian(counter, 8);
  }

  lemma {:induction false} HeaderWrittenOut()
    ensures Header(258, 3) == [0, 0, 0, 0, 0, 0, 1, 2, 0, 0, 0, 0, 0, 0, 0, 3]
  {
    TwoByteNumber(1, 2, 6);
    TwoByteNumber(0, 3, 6);
    assert BigEndian(258, 8) == [0, 0, 0, 0, 0, 0, 1, 2] && BigEndian(3, 8) == [0, 0, 0, 0, 0, 0, 0, 3];
  }

  // ---- sending and receiving as functions ----------------------------------

  function Encrypt(k: FrameKeys, keyId: u64, counter: u64, payload: Str): WireFrame {
    var header := Header(keyId, counter);
    Frame(header, Sealed(k.key, Nonce(k.salt, counter), header, payload))
  }

  /** The replay test, with the addition wrapping at 64 bits. */
  predicate Refuses(highest: u64, counter: u64) {
    counter <= highest && Wrap64(counter + 128) < highest
  }

  predicate Replayed(seen: map<u64, u64>, keyId: u64, counter: u64) {
    keyId in seen && Refuses(seen[keyId], counter)
  }

  function Noted(seen: map<u64, u64>, keyId: u64, counter: u64): map<u64, u64> {
    if keyId in seen && counter <= seen[keyId] then seen else seen[keyId := counter]
  }

  function OpenFrame(k: FrameKeys, f: WireFrame): Option<Str>
    requires |f.header| == 16
  {
    Open(k.key, Nonce(k.salt, HeaderCounter(f.header)), f.header, f.body)
  }

  function Decrypt(k: FrameKeys, seen: map<u64, u64>, f: WireFrame): (map<u64, u64>, Result<Str, FrameError>) {
    if |f.header| < 16 then (seen, Err(FrameTooShort))
    else
      var (keyId, counter) := (HeaderKeyId(f.header), HeaderCounter(f.header));
      if Replayed(seen, keyId, counter) then (seen, Err(ReplayRejected))
      else match OpenFrame(k, f)
        case None => (seen, Err(NotAuthentic))
        case Some(plain) => (Noted(seen, keyId, counter), Ok(plain))
  }

  // ---- the transformer -----------------------------------------------------

  class SFrameTransformer {
    const participantKeyId: u64
    const keys: FrameKeys
    var sendFrameCounter: u64
    var receivedCounters: map<u64, u64>

    constructor (participantKeyId: u64, base: Secret, kdf: SaltKdf)
      ensures this.participantKeyId == participantKeyId && keys == DeriveKeys(base, kdf)
      ensures sendFrameCounter == 0 && receivedCounters == map[]
    {
      this.participantKeyId := participantKeyId;
      keys := DeriveKeys(base, kdf);
      sendFrameCounter := 0;
      receivedCounters := map[];
    }

    method BuildNonce(counter: u64) returns (nonce: Str)
      ensures nonce == Nonce(keys.salt, counter)
    {
      var salt := keys.salt;
      var bytes := new Byte[12](i requires 0 <= i < 12 => salt[i]);
      var counterBytes := BigEndian(counter, 8);
      for i := 4 to 12  // byte 4 + i of the nonce takes byte i of the counter
        invariant forall j | 0 <= j < 4 :: bytes[j] == salt[j]
        invariant forall j | 4 <= j < i :: bytes[j] == Xor(salt[j], counterBytes[j - 4])
        invariant forall j | i <= j < 12 :: bytes[j] == salt[j]
      {
        bytes[i] := Xor(bytes[i], counterBytes[i - 4]);
      }
      nonce := bytes[..];
      assert nonce == Nonce(salt, counter);
    }

    method EncryptFrame(payload: Str) returns (f: WireFrame)
      modifies this`sendFrameCounter
      ensures f == Encrypt(keys, participantKeyId, old(sendFrameCounter), payload)
      ensures sendFrameCounter == Wrap64(old(sendFrameCounter) + 1)
    {
      var counter := sendFrameCounter;
      sendFrameCounter := Wrap64(sendFrameCounter + 1);
      var nonce := BuildNonce(counter);
      var header := BigEndian(participantKeyId, 8) + BigEndian(counter, 8);
      f := Frame(header, Sealed(keys.key, nonce, header, payload));
    }

    method DecryptFrame(f: WireFrame) returns (r: Result<Str, FrameError>)
      modifies this`receivedCounters
      ensures (receivedCounters, r) == Decrypt(keys, old(receivedCounters), f)
    {
      if |f.header| < 16 {
        return Err(FrameTooShort);
      }
      var keyId: u64, counter: nat := HeaderKeyId(f.header), HeaderCounter(f.header);
      if keyId in receivedCounters {
        var highest := receivedCounters[keyId];
        if counter <= highest && Wrap64(counter + 128) < highest {
          return Err(ReplayRejected);
        }
      }
      var nonce := BuildNonce(counter);
      var plain := Open(keys.key, nonce, f.header, f.body);
      if plain.None? {
        return Err(NotAuthentic);
      }
      ghost var seen := receivedCounters;
      if keyId !in receivedCounters {
        receivedCounters := receivedCounters[keyId := 0];
      }
      if counter > receivedCounters[keyId] {
        receivedCounters := receivedCounters[keyId := counter];
      }
      assert receivedCounters == Noted(seen, keyId, counter);
      r := Ok(plain.value);
    }
  }

  // ---- whole runs ----------------------------------------------------------

  /** The frames of successive sends, starting at some counter. */
  function SendAll(k: FrameKeys, keyId: u64, start: u64, payloads: seq<Str>): (fs: seq<WireFrame>)
    ensures |fs| == |payloads|
    decreases |payloads|
  {
    if payloads == [] then []
    else [Encrypt(k, keyId, start, payloads[0])] + SendAll(k, keyId, Wrap64(start + 1), payloads[1..])
  }

  /** The receiver's counters and answers after a sequence of arbitrary frames. */
  function ReceiveAll(k: FrameKeys, fs: seq<WireFrame>): (r: (map<u64, u64>, seq<Result<Str, FrameError>>))
    ensures |r.1| == |fs|
  {
    if fs == [] then (map[], [])
    else
      var (seen, answers) := ReceiveAll(k, fs[..|fs| - 1]);
      var (after, answer) := Decrypt(k, seen, fs[|fs| - 1]);
      (after, answers + [answer])
  }

  lemma {:induction false} SendAllAt(k: FrameKeys, keyId: u64, start: u64, payloads: seq<Str>, i: nat)
    requires i < |payloads| <= U64
    ensures SendAll(k, keyId, start, payloads)[i] == Encrypt(k, keyId, Wrap64(start + i), payloads[i])
    decreases i
  {
    if i == 0 {
    } else {
      SendAllAt(k, keyId, Wrap64(start + 1), payloads[1..], i - 1);
      assert Wrap64(Wrap64(start + 1) + (i - 1)) == Wrap64(start + i);
    }
  }

  /** Over up to 2^64 sends of one transformer no nonce comes back. */
  lemma NoncesNeverRepeat(k: FrameKeys, keyId: u64, start: u64, payloads: seq<Str>, i: nat, j: nat)
    requires i < j < |payloads| <= U64
    ensures var fs := SendAll(k, keyId, start, payloads);
            fs[i].body.Sealed? && fs[j].body.Sealed? && fs[i].body.nonce != fs[j].body.nonce
  {
    SendAllAt(k, keyId, start, payloads, i);
    SendAllAt(k, keyId, start, payloads, j);
    NonceInjective(k.salt, Wrap64(start + i), Wrap64(start + j));
  }

  /** Key and salt come from the base secret alone, and the key id does not enter the nonce: two
      transformers on one base secret seal under one key, and their nonces meet exactly at equal
      counters, whatever their key ids. */
  lemma SharedBaseRepeatsIff(
      base: Secret, kdf: SaltKdf, id1: u64, ps: seq<Str>, i: nat, id2: u64, qs: seq<Str>, j: nat)
    requires i < |ps| <= U64 && j < |qs| <= U64
    ensures var k := DeriveKeys(base, kdf);
            var (x, y) := (SendAll(k, id1, 0, ps)[i].body, SendAll(k, id2, 0, qs)[j].body);
            x.Sealed? && y.Sealed? && x.key == y.key && (x.nonce == y.nonce <==> i == j)
  {
    var k := DeriveKeys(base, kdf);
    SendAllAt(k, id1, 0, ps, i);
    SendAllAt(k, id2, 0, qs, j);
    NonceInjective(k.salt, i, j);
  }

  /** Frame `i` was answered with a plaintext and carries this key id. */
  ghost predicate Accepted(fs: seq<WireFrame>, answers: seq<Result<Str, FrameError>>, i: nat, keyId: u64) {
    i < |fs| && i < |answers| && answers[i].Ok? && |fs[i].header| == 16 && HeaderKeyId(fs[i].header) == keyId
  }

  /** The entry of a key id exists exactly when a frame with that id was accepted, and is the largest
      counter accepted under it. */
  ghost predicate EntryFits(
    fs: seq<WireFrame>, answers: seq<Result<Str, FrameError>>, seen: map<u64, u64>, keyId: u64)
  {
    && (forall i: nat | Accepted(fs, answers, i, keyId) ::
          keyId in seen && HeaderCounter(fs[i].header) <= seen[keyId])
    && (keyId in seen ==>
          exists i: nat :: Accepted(fs, answers, i, keyId) && HeaderCounter(fs[i].header) == seen[keyId])
  }

  /** A frame that is refused or fails to open leaves the receiver as it was; one that is accepted
      raises its own entry only. */
  lemma FailureChangesNothing(k: FrameKeys, seen: map<u64, u64>, f: WireFrame)
    ensures var (after, answer) := Decrypt(k, seen, f);
            && (answer.Err? ==> after == seen)
            && (answer.Ok? ==> |f.header| == 16 && after == Noted(seen, HeaderKeyId(f.header), HeaderCounter(f.header)))
  {
  }

  lemma EntryStep(k: FrameKeys, fs: seq<WireFrame>, answers: seq<Result<Str, FrameError>>, seen: map<u64, u64>,
                  f: WireFrame, keyId: u64)
    requires |answers| == |fs| && EntryFits(fs, answers, seen, keyId)
    ensures var (after, answer) := Decrypt(k, seen, f);
            EntryFits(fs + [f], answers + [answer], after, keyId)
  {
    FailureChangesNothing(k, seen, f);
    var (after, answer) := Decrypt(k, seen, f);
    var (gs, bs) := (fs + [f], answers + [answer]);
    assert forall i: nat | i < |fs| :: Accepted(gs, bs, i, keyId) <==> Accepted(fs, answers, i, keyId);
    if keyId in seen {
      var w: nat :| Accepted(fs, answers, w, keyId) && HeaderCounter(fs[w].header) == seen[keyId];
      assert Accepted(gs, bs, w, keyId) && HeaderCounter(gs[w].header) == seen[keyId];
    }
    if answer.Ok? && HeaderKeyId(f.header) == keyId {
      assert Accepted(gs, bs, |fs|, keyId);
    }
  }

  lemma ReceiveOneMore(k: FrameKeys, fs: seq<WireFrame>, f: WireFrame)
    ensures var (seen, answers) := ReceiveAll(k, fs);
            var (after, answer) := Decrypt(k, seen, f);
            ReceiveAll(k, fs + [f]) == (after, answers + [answer])
  {
    assert (fs + [f])[..|fs|] == fs;
  }

  /** Over every run, whatever frames arrive, every entry is the largest accepted counter. */
  lemma {:induction false} EntryIsLargestAccepted(k: FrameKeys, fs: seq<WireFrame>, keyId: u64)
    ensures var (seen, answers) := ReceiveAll(k, fs);
            EntryFits(fs, answers, seen, keyId)
  {
    if fs == [] {
    } else {
      var n := |fs| - 1;
      EntryIsLargestAccepted(k, fs[..n], keyId);
      var (seen, answers) := ReceiveAll(k, fs[..n]);
      EntryStep(k, fs[..n], answers, seen, fs[n], keyId);
      ReceiveOneMore(k, fs[..n], fs[n]);
      assert fs == fs[..n] + [fs[n]];
    }
  }

  /** The window is "more than 128 behind the highest" exactly outside the last 128 counters, or
      for counters that are new; in the last 128 the wrapped addition refuses repeats it should allow. */
  lemma WindowIsExactBelowOverflow(highest: u64, counter: u64)
    ensures (Refuses(highest, counter) <==> counter + 128 < highest) <==> counter < U64 - 128 || highest < counter
  {
    if counter < U64 - 128 {
      assert Wrap64(counter + 128) == counter + 128;
    } else {
      assert Wrap64(counter + 128) == counter + 128 - U64;
    }
  }

  /** The highest counter puts this one out of reach: more than 128 behind it, or, among the last
      128 counters, not ahead of it. */
  predicate Behind(counter: nat, highest: nat) {
    if counter < U64 - 128 then counter + 128 < highest else counter <= highest
  }

  lemma RefusesIffBehind(highest: u64, counter: u64)
    ensures Refuses(highest, counter) <==> Behind(counter, highest)
  {
    WindowIsExactBelowOverflow(highest, counter);
  }

  /** An accepted frame of this key id puts the counter out of reach. */
  ghost predicate PutBehind(fs: seq<WireFrame>, answers: seq<Result<Str, FrameError>>, keyId: u64, counter: u64) {
    exists i: nat :: Accepted(fs, answers, i, keyId) && Behind(counter, HeaderCounter(fs[i].header))
  }

  /** What the receiver answers to any frame, from the frames accepted before it: too short, out of the
      window, not authentic, or its payload, in this order. */
  lemma {:induction false} FrameAnswer(k: FrameKeys, fs: seq<WireFrame>, f: WireFrame)
    ensures var (seen, answers) := ReceiveAll(k, fs);
            Decrypt(k, seen, f).1 ==
            if |f.header| < 16 then Err(FrameTooShort)
            else if PutBehind(fs, answers, HeaderKeyId(f.header), HeaderCounter(f.header)) then Err(ReplayRejected)
            else if OpenFrame(k, f).Some? then Ok(OpenFrame(k, f).value)
            else Err(NotAuthentic)
  {
    if |f.header| == 16 {
      var (id, c) := (HeaderKeyId(f.header), HeaderCounter(f.header));
      EntryIsLargestAccepted(k, fs, id);
      var (seen, answers) := ReceiveAll(k, fs);
      if id in seen {
        RefusesIffBehind(seen[id], c);
      }
      assert Replayed(seen, id, c) <==> PutBehind(fs, answers, id, c);
    }
  }

  /** A frame opens only as it was sent: whatever header it carries, a sent body is opened under the
      same keys, the sent header and to the sent payload, or not at all. */
  lemma {:induction false} FrameIsAuthentic(k: FrameKeys, keyId: u64, counter: u64, p: Str, l: FrameKeys, f: WireFrame)
    requires f.body == Encrypt(k, keyId, counter, p).body && |f.header| == 16
    ensures OpenFrame(l, f) ==
            if l.key == k.key && Nonce(l.salt, counter) == Nonce(k.salt, counter) && f == Encrypt(k, keyId, counter, p)
            then Some(p) else None
  {
    HeaderRoundTrip(keyId, counter, f.header);
  }

  lemma {:induction false} FrameKeyWrittenOut(base: Secret, kdf: SaltKdf)
    ensures DeriveKeys(base, kdf).key == Hkdf([], [Block(base)], Ascii("SFrame 1.0 Key"))
  {
  }

  /** The first frame of a transformer is sealed with the salt of its base secret as nonce. */
  lemma {:induction false} FirstNonceIsSalt(base: Secret, kdf: SaltKdf, keyId: u64, p: Str)
    ensures var f := SendAll(DeriveKeys(base, kdf), keyId, 0, [p])[0];
            f.body.Sealed? && f.body.nonce == kdf(base)
  {
    var salt := kdf(base);
    var n := Nonce(salt, 0);
    SendAllAt(DeriveKeys(base, kdf), keyId, 0, [p], 0);
    forall i | 0 <= i < 12
      ensures n[i] == salt[i]
    {
      if i >= 4 {
        ZeroBytes(8);
        XorWithZero(salt[i]);
      }
    }
  }

  lemma {:induction false} XorWithZero(a: Byte)
    ensures Xor(a, 0) == a
  {
    Pow2Eight();
    XorBitsWithZero(a, 8);
  }

  lemma {:induction false} XorBitsWithZero(a: nat, w: nat)
    requires a < Pow2(w)
    ensures XorBits(a, 0, w) == a
  {
    if w == 0 {
    } else {
      XorBitsWithZero(a / 2, w - 1);
    }
  }

  lemma {:induction false} BaseSecretsKeepApart(b1: Secret, kdf1: SaltKdf, b2: Secret, kdf2: SaltKdf)
    ensures DeriveKeys(b1, kdf1).key == DeriveKeys(b2, kdf2).key <==> b1 == b2
  {
    if [Block(b1)] == [Block(b2)] {
      assert [Block(b1)][0] == [Block(b2)][0];
    }
  }

  // ---- one sender, one receiver --------------------------------------------

  function Largest(d: seq<nat>): (m: nat)
    requires d != []
    ensures exists i | 0 <= i < |d| :: d[i] == m
    ensures forall i | 0 <= i < |d| :: d[i] <= m
  {
    var n := |d| - 1;
    if n == 0 then d[0] else if Largest(d[..n]) < d[n] then d[n] else Largest(d[..n])
  }

  ghost predicate Within(d: seq<nat>, n: nat) {
    forall t | 0 <= t < |d| :: d[t] < n
  }

  /** The frames a delivery schedule hands over: any order, repeats and losses. */
  ghost function Delivered(fs: seq<WireFrame>, d: seq<nat>): (r: seq<WireFrame>)
    requires Within(d, |fs|)
    ensures |r| == |d|
  {
    seq(|d|, t requires 0 <= t < |d| => fs[d[t]])
  }

  lemma SentFrameOpens(k: FrameKeys, keyId: u64, counter: u64, payload: Str)
    ensures var f := Encrypt(k, keyId, counter, payload);
            && HeaderKeyId(f.header) == keyId && HeaderCounter(f.header) == counter
            && OpenFrame(k, f) == Some(payload)
  {
    HeaderRoundTrip(keyId, counter, Header(keyId, counter));
  }

  /** The counters after frames of one sender. */
  function Seen(keyId: u64, d: seq<nat>): map<u64, nat> {
    if d == [] then map[] else map[keyId := Largest(d)]
  }

  ghost predicate Overtaken(d: seq<nat>, t: nat)
    requires t < |d|
  {
    exists a | 0 <= a < t :: Behind(d[t], d[a])
  }

  lemma LargestOvertakes(d: seq<nat>)
    requires |d| > 1
    ensures Overtaken(d, |d| - 1) <==> Behind(d[|d| - 1], Largest(d[..|d| - 1]))
  {
    var n := |d| - 1;
    var prefix := d[..n];
    assert forall b | 0 <= b < n :: d[b] == prefix[b];
    var a :| 0 <= a < n && prefix[a] == Largest(prefix);
  }

  lemma ScheduleStep(k: FrameKeys, keyId: u64, d: seq<nat>, payload: Str)
    requires d != [] && Within(d, U64)
    ensures var n := |d| - 1;
            Decrypt(k, Seen(keyId, d[..n]), Encrypt(k, keyId, d[n], payload)) ==
            (Seen(keyId, d), if Overtaken(d, n) then Err(ReplayRejected) else Ok(payload))
  {
    var n := |d| - 1;
    SentFrameOpens(k, keyId, d[n], payload);
    if n > 0 {
      LargestOvertakes(d);
      RefusesIffBehind(Largest(d[..n]), d[n]);
    }
    assert Noted(Seen(keyId, d[..n]), keyId, d[n]) == Seen(keyId, d);
  }

  /** The answer a schedule calls for at each delivery. */
  ghost function Expected(payloads: seq<Str>, d: seq<nat>): (r: seq<Result<Str, FrameError>>)
    requires Within(d, |payloads|)
    ensures |r| == |d|
  {
    seq(|d|, t requires 0 <= t < |d| => if Overtaken(d, t) then Err(ReplayRejected) else Ok(payloads[d[t]]))
  }

  lemma ExpectedOneMore(payloads: seq<Str>, d: seq<nat>)
    requires d != [] && Within(d, |payloads|)
    ensures var n := |d| - 1;
            Expected(payloads, d) == Expected(payloads, d[..n])
                                     + [if Overtaken(d, n) then Err(ReplayRejected) else Ok(payloads[d[n]])]
  {
    var n := |d| - 1;
    assert forall t | 0 <= t < n :: Overtaken(d[..n], t) <==> Overtaken(d, t);
  }

  lemma DeliveredOneMore(fs: seq<WireFrame>, d: seq<nat>)
    requires d != [] && Within(d, |fs|)
    ensures Delivered(fs, d) == Delivered(fs, d[..|d| - 1]) + [fs[d[|d| - 1]]]
  {
  }

  lemma SentAt(k: FrameKeys, keyId: u64, payloads: seq<Str>, i: nat)
    requires i < |payloads| <= U64
    ensures SendAll(k, keyId, 0, payloads)[i] == Encrypt(k, keyId, i, payloads[i])
  {
    SendAllAt(k, keyId, 0, payloads, i);
  }

  lemma {:induction false} ScheduleAnswers(k: FrameKeys, keyId: u64, payloads: seq<Str>, d: seq<nat>)
    requires |payloads| <= U64 && Within(d, |payloads|)
    ensures ReceiveAll(k, Delivered(SendAll(k, keyId, 0, payloads), d)) == (Seen(keyId, d), Expected(payloads, d))
  {
    if d == [] {
    } else {
      var n := |d| - 1;
      ScheduleAnswers(k, keyId, payloads, d[..n]);
      var fs := SendAll(k, keyId, 0, payloads);
      DeliveredOneMore(fs, d);
      SentAt(k, keyId, payloads, d[n]);
      ReceiveOneMore(k, Delivered(fs, d[..n]), fs[d[n]]);
      ScheduleStep(k, keyId, d, payloads[d[n]]);
      ExpectedOneMore(payloads, d);
    }
  }

  /** Sender and receiver with one base secret: whatever order, repetition and loss the network
      brings, a frame is refused exactly when it is behind one that came earlier, and otherwise
      yields its payload. Below the last 128 counters, a schedule that lets no frame overtake another
      by more than 128 loses nothing. */
  lemma SchedulesDeliver(base: Secret, kdf: SaltKdf, keyId: u64, payloads: seq<Str>, d: seq<nat>, t: nat)
    requires |payloads| <= U64 && t < |d| && Within(d, |payloads|)
    ensures var k := DeriveKeys(base, kdf);
            var answers := ReceiveAll(k, Delivered(SendAll(k, keyId, 0, payloads), d)).1;
            && (answers[t] == Ok(payloads[d[t]]) <==> forall a | 0 <= a < t :: !Behind(d[t], d[a]))
            && (answers[t] == Err(ReplayRejected) <==> exists a | 0 <= a < t :: Behind(d[t], d[a]))
            && (d[t] < U64 - 128 && (forall a | 0 <= a < t :: d[a] <= d[t] + 128) ==>
                  answers[t] == Ok(payloads[d[t]]))
  {
    ScheduleAnswers(DeriveKeys(base, kdf), keyId, payloads, d);
  }

  /** A frame under another base secret is never accepted, whatever its counter and the receiver's past. */
  lemma {:induction false} OtherBaseRefusesFrame(
      b1: Secret, kdf1: SaltKdf, b2: Secret, kdf2: SaltKdf, seen: map<u64, u64>, keyId: u64, counter: u64, p: Str)
    requires b1 != b2
    ensures var f := Encrypt(DeriveKeys(b1, kdf1), keyId, counter, p);
            var (after, answer) := Decrypt(DeriveKeys(b2, kdf2), seen, f);
            after == seen && answer == Err(if Replayed(seen, keyId, counter) then ReplayRejected else NotAuthentic)
  {
    BaseSecretsKeepApart(b1, kdf1, b2, kdf2);
    HeaderRoundTrip(keyId, counter, Header(keyId, counter));
  }

  /** A receiver on another base secret: whatever the network does with the sender's frames, it accepts
      none of them, and its counters stay empty. */
  lemma {:induction false} OtherBaseAcceptsNothing(
      b1: Secret, kdf1: SaltKdf, b2: Secret, kdf2: SaltKdf, keyId: u64, payloads: seq<Str>, d: seq<nat>)
    requires b1 != b2 && |payloads| <= U64 && Within(d, |payloads|)
    ensures var fs := Delivered(SendAll(DeriveKeys(b1, kdf1), keyId, 0, payloads), d);
            var (seen, answers) := ReceiveAll(DeriveKeys(b2, kdf2), fs);
            seen == map[] && forall t | 0 <= t < |d| :: answers[t] == Err(NotAuthentic)
  {
    if d == [] {
    } else {
      var (k1, k2, n) := (DeriveKeys(b1, kdf1), DeriveKeys(b2, kdf2), |d| - 1);
      var fs := SendAll(k1, keyId, 0, payloads);
      OtherBaseAcceptsNothing(b1, kdf1, b2, kdf2, keyId, payloads, d[..n]);
      BaseSecretsKeepApart(b1, kdf1, b2, kdf2);
      SentAt(k1, keyId, payloads, d[n]);
      DeliveredOneMore(fs, d);
      ReceiveOneMore(k2, Delivered(fs, d[..n]), fs[d[n]]);
    }
  }

  /** The frame with the very last counter is inside the window when it comes again, and is refused. */
  lemma LastFrameNotAcceptedTwice(k: FrameKeys, keyId: u64, p: Str)
    ensures var f := Encrypt(k, keyId, U64 - 1, p);
            ReceiveAll(k, [f, f]).1 == [Ok(p), Err(ReplayRejected)]
  {
    var f := Encrypt(k, keyId, U64 - 1, p);
    SentFrameOpens(k, keyId, U64 - 1, p);
    RefusesIffBehind(U64 - 1, U64 - 1);
    ReceiveOneMore(k, [], f);
    ReceiveOneMore(k, [f], f);
  }
}
