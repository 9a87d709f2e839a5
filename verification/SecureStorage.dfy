/** Keys and ratchet sessions encrypted at rest under one cached key, and the push handler that
    advances a channel's ratchet through that storage. */
module SecureStorage {
  import opened Bytes
  import opened Terms

  // ---- the hex codec -------------------------------------------------------

  function HexDigit(d: nat): char
    requires d < 16
  {
    "0123456789abcdef"[d]
  }

  predicate IsHexDigit(c: char) {
    '0' <= c <= '9' || 'a' <= c <= 'f' || 'A' <= c <= 'F'
  }

  function HexValue(c: char): (v: nat)
    requires IsHexDigit(c)
    ensures v < 16
  {
    if c <= '9' then c as int - 48 else if c <= 'F' then c as int - 55 else c as int - 87
  }

  function BytesToHex(s: Str): (h: string)
    ensures |h| == 2 * |s|
    ensures forall i | 0 <= i < |s| :: h[2 * i] == HexDigit(s[i] / 16) && h[2 * i + 1] == HexDigit(s[i] % 16)
  {
    if s == [] then ""
    else
      var n := |s| - 1;
      BytesToHex(s[..n]) + [HexDigit(s[n] / 16), HexDigit(s[n] % 16)]
  }

  /** The byte stored for two characters: the value of the longest hexadecimal numeral they start with,
      after one white space or sign; zero when there is none, and modulo 256 when negative. */
  function PairByte(a: char, b: char): Byte {
    if IsHexDigit(a) then (if IsHexDigit(b) then 16 * HexValue(a) + HexValue(b) else HexValue(a))
    else if !IsHexDigit(b) then 0
    else if IsSpace(a) || a == '+' then HexValue(b)
    else if a == '-' then (256 - HexValue(b)) % 256
    else 0
  }

  /** Upper and lower case read alike. */
  lemma {:induction false} CaseDoesNotMatter(d: nat)
    requires 10 <= d < 16
    ensures HexValue("ABCDEF"[d - 10]) == HexValue("abcdef"[d - 10]) == d
  {
  }

  /** The bytes of the whole pairs; a trailing single character is dropped. */
  function HexPairs(h: string): (s: Str)
    ensures |s| == |h| / 2
    ensures forall i | 0 <= i < |s| :: s[i] == PairByte(h[2 * i], h[2 * i + 1])
  {
    seq(|h| / 2, i requires 0 <= i < |h| / 2 => PairByte(h[2 * i], h[2 * i + 1]))
  }

  method HexToBytes(h: string) returns (s: Str)
    ensures s == HexPairs(h)
  {
    var bytes := new Byte[|h| / 2](_ => 0);
    var i := 0;
    while i < |h|
      invariant 0 <= i <= |h| + 1 && i % 2 == 0
      invariant forall j | 0 <= j < bytes.Length && j < i / 2 :: bytes[j] == HexPairs(h)[j]
    {
      if i / 2 < bytes.Length {
        bytes[i / 2] := PairByte(h[i], h[i + 1]);
      }
      i := i + 2;
    }
    s := bytes[..];
  }

  /** Readings of text that is not clean hex: a sign, a negative one, white space, a stray second
      character, a prefix, no digit at all, and a trailing single digit. */
  lemma {:induction false} StrayTextWrittenOut()
    ensures HexPairs("+f") == [15] && HexPairs("-5") == [251] && HexPairs("-0") == [0] && HexPairs(" A") == [10]
    ensures HexPairs("7g") == [7] && HexPairs("0x") == [0] && HexPairs("zz") == [0] && HexPairs("g7") == [0]
    ensures HexPairs("ab1") == [171]
  {
  }

  lemma {:induction false} DigitRoundTrip(d: nat)
    requires d < 16
    ensures IsHexDigit(HexDigit(d)) && HexValue(HexDigit(d)) == d && IsLowerDigit(HexDigit(d))
  {
  }

  lemma {:induction false} HexRoundTrip(s: Str)
    ensures HexPairs(BytesToHex(s)) == s
  {
    forall i | 0 <= i < |s|
      ensures HexPairs(BytesToHex(s))[i] == s[i]
    {
      DigitRoundTrip(s[i] / 16);
      DigitRoundTrip(s[i] % 16);
    }
  }

  predicate IsLowerDigit(c: char) {
    '0' <= c <= '9' || 'a' <= c <= 'f'
  }

  /** Whole pairs of digits, none in upper case. */
  predicate IsCanonicalHex(h: string) {
    |h| % 2 == 0 && forall i | 0 <= i < |h| / 2 :: IsLowerDigit(h[2 * i]) && IsLowerDigit(h[2 * i + 1])
  }

  lemma {:induction false} EncodedIsCanonical(s: Str)
    ensures IsCanonicalHex(BytesToHex(s))
  {
    forall i | 0 <= i < |s|
      ensures IsLowerDigit(BytesToHex(s)[2 * i]) && IsLowerDigit(BytesToHex(s)[2 * i + 1])
    {
      DigitRoundTrip(s[i] / 16);
      DigitRoundTrip(s[i] % 16);
    }
  }

  lemma {:induction false} PairRoundTrip(a: char, b: char)
    requires IsLowerDigit(a) && IsLowerDigit(b)
    ensures HexDigit(PairByte(a, b) / 16) == a && HexDigit(PairByte(a, b) % 16) == b
  {
    assert PairByte(a, b) / 16 == HexValue(a) && PairByte(a, b) % 16 == HexValue(b);
  }

  lemma {:induction false} PairsDecide(a: string, b: string)
    requires |a| == |b| && |a| % 2 == 0
    requires forall i | 0 <= i < |a| / 2 :: a[2 * i] == b[2 * i] && a[2 * i + 1] == b[2 * i + 1]
    ensures a == b
  {
    forall k | 0 <= k < |a|
      ensures a[k] == b[k]
    {
      assert k == 2 * (k / 2) || k == 2 * (k / 2) + 1;
    }
  }

  /** Among all texts, encoding undoes decoding on exactly those the encoder writes. */
  lemma {:induction false} EncodeUndoesDecodeIff(h: string)
    ensures BytesToHex(HexPairs(h)) == h <==> IsCanonicalHex(h)
  {
    var s := HexPairs(h);
    EncodedIsCanonical(s);
    if IsCanonicalHex(h) {
      forall i | 0 <= i < |s|
        ensures BytesToHex(s)[2 * i] == h[2 * i] && BytesToHex(s)[2 * i + 1] == h[2 * i + 1]
      {
        PairRoundTrip(h[2 * i], h[2 * i + 1]);
      }
      PairsDecide(BytesToHex(s), h);
    }
  }

  // ---- storage -------------------------------------------------------------

  datatype SessionState = SessionState(
    conversationId: Str, peerUserId: Str, sessionPickle: Str, pickleKeyHex: Str, updatedAt: int)

  datatype Plain = IdentityPlain(bundle: Str) | SessionPlain(session: SessionState)

  datatype Entry = Entry(ciphertext: Sealed<Plain>, iv: string)

  /** What the storage holds, seen without encryption. */
  datatype Vault = Vault(identity: Option<Str>, sessions: map<Str, SessionState>)

  const EMPTY_VAULT: Vault := Vault(None, map[])
  const DELIVERED: Str := Ascii("delivered")
  const IDENTITY_STORE: Str := Ascii("identity_keys")
  const SESSIONS_PREFIX: Str := Ascii("ratchet_sessions:")

  /** The two kinds of keys in the map, by what they are made of. */
  datatype StoreKey = IdentityKey | SessionKey(conversationId: Str)

  function KeyText(k: StoreKey): Str {
    match k
    case IdentityKey => IDENTITY_STORE
    case SessionKey(conversationId) => SESSIONS_PREFIX + conversationId
  }

  /** Key texts of different entries differ, so the map may be read by what its keys are made of. */
  lemma KeyTextInjective(a: StoreKey, b: StoreKey)
    ensures KeyText(a) == KeyText(b) <==> a == b
  {
    assert SESSIONS_PREFIX[0] == 114 && IDENTITY_STORE[0] == 105;
    if a.SessionKey? && b.SessionKey? {
      assert KeyText(a)[|SESSIONS_PREFIX|..] == a.conversationId;
      assert KeyText(b)[|SESSIONS_PREFIX|..] == b.conversationId;
    } else if a.SessionKey? {
      assert KeyText(a)[0] == 114;
    } else if b.SessionKey? {
      assert KeyText(b)[0] == 114;
    }
  }

  lemma {:induction false} KeyTextWrittenOut()
    ensures KeyText(IdentityKey) == Ascii("identity_keys")
    ensures KeyText(SessionKey(Ascii("c:1"))) == Ascii("ratchet_sessions:c:1")
  {
  }

  /** The entry opens to this plaintext under this key, through its hex initialisation vector. */
  ghost predicate Holds(key: Secret, e: Entry, plain: Plain) {
    Open(key, HexPairs(e.iv), [], e.ciphertext) == Some(plain)
  }

  /** The plaintext the vault has under a key. */
  function At(v: Vault, k: StoreKey): Option<Plain> {
    match k
    case IdentityKey => if v.identity.Some? then Some(IdentityPlain(v.identity.value)) else None
    case SessionKey(c) => if c in v.sessions then Some(SessionPlain(v.sessions[c])) else None
  }

  /** Every stored entry decrypts under the cached key, to what the vault says, and there is no other. */
  ghost predicate Consistent(masterKey: Option<Secret>, items: map<StoreKey, Entry>, v: Vault) {
    && (forall k: StoreKey :: k in items <==> At(v, k).Some?)
    && (forall k | k in items :: masterKey.Some? && Holds(masterKey.value, items[k], At(v, k).value))
  }

  function WithSession(v: Vault, session: SessionState): Vault {
    v.(sessions := v.sessions[session.conversationId := session])
  }

  class SecureKeyStorage {
    var masterKey: Option<Secret>
    var items: map<StoreKey, Entry>
    ghost var vault: Vault

    ghost predicate Valid()
      reads this
    {
      Consistent(masterKey, items, vault)
    }

    constructor ()
      ensures Valid() && vault == EMPTY_VAULT && masterKey == None
    {
      masterKey, items, vault := None, map[], EMPTY_VAULT;
    }

    /** The cached key, or a newly generated one on first use. */
    method GetMasterKey(generated: nat) returns (key: Secret)
      requires Valid()
      modifies this`masterKey
      ensures Valid() && masterKey == Some(key)
      ensures key == if old(masterKey).Some? then old(masterKey).value else Fresh(generated)
    {
      if masterKey.None? {
        masterKey := Some(Fresh(generated));
      }
      key := masterKey.value;
    }

    method EncryptAtRest(data: Plain, iv: Str, generated: nat) returns (e: Entry)
      requires Valid()
      modifies this`masterKey
      ensures Valid() && masterKey.Some? && Holds(masterKey.value, e, data) && HexPairs(e.iv) == iv
      ensures old(masterKey).Some? ==> masterKey == old(masterKey)
    {
      var key := GetMasterKey(generated);
      e := Entry(Sealed(key, iv, [], data), BytesToHex(iv));
      HexRoundTrip(iv);
    }

    method DecryptAtRest(e: Entry, generated: nat) returns (r: Option<Plain>)
      requires Valid()
      modifies this`masterKey
      ensures Valid() && masterKey.Some? && r == Open(masterKey.value, HexPairs(e.iv), [], e.ciphertext)
      ensures old(masterKey).Some? ==> masterKey == old(masterKey)
    {
      var key := GetMasterKey(generated);
      var iv := HexToBytes(e.iv);
      r := Open(key, iv, [], e.ciphertext);
    }

    method StoreIdentityKey(bundle: Str, iv: Str, generated: nat)
      requires Valid()
      modifies this
      ensures Valid() && vault == old(vault).(identity := Some(bundle))
      ensures items.Keys == old(items).Keys + {IdentityKey} && HexPairs(items[IdentityKey].iv) == iv
    {
      var e := EncryptAtRest(IdentityPlain(bundle), iv, generated);
      items := items[IdentityKey := e];
      vault := vault.(identity := Some(bundle));
    }

    method LoadIdentityKey(generated: nat) returns (r: Option<Str>)
      requires Valid()
      modifies this`masterKey
      ensures Valid() && masterKey == old(masterKey) && r == vault.identity
    {
      if IdentityKey !in items {
        return None;
      }
      var p := DecryptAtRest(items[IdentityKey], generated);
      r := Some(p.value.bundle);
    }

    method StoreSession(session: SessionState, iv: Str, generated: nat)
      requires Valid()
      modifies this
      ensures Valid() && vault == WithSession(old(vault), session)
      ensures var k := SessionKey(session.conversationId);
              items.Keys == old(items).Keys + {k} && HexPairs(items[k].iv) == iv
    {
      var e := EncryptAtRest(SessionPlain(session), iv, generated);
      items := items[SessionKey(session.conversationId) := e];
      vault := WithSession(vault, session);
    }

    method LoadSession(conversationId: Str, generated: nat) returns (r: Option<SessionState>)
      requires Valid()
      modifies this`masterKey
      ensures Valid() && masterKey == old(masterKey)
      ensures r == if conversationId in vault.sessions then Some(vault.sessions[conversationId]) else None
    {
      if SessionKey(conversationId) !in items {
        return None;
      }
      var p := DecryptAtRest(items[SessionKey(conversationId)], generated);
      r := Some(p.value.session);
    }

    method GetSession(channelId: Str, generated: nat) returns (pickle: Str)
      requires Valid()
      modifies this`masterKey
      ensures Valid() && masterKey == old(masterKey)
      ensures pickle == PickleIn(vault, channelId)
    {
      var session := LoadSession(channelId, generated);
      pickle := if session.Some? then session.value.sessionPickle else [];
    }

    method SaveSession(
        channelId: Str, pickle: Str, pickleKeyHex: Option<Str>, now: int, iv: Str, generated: nat)
      requires Valid()
      modifies this
      ensures Valid() && vault == WithSession(old(vault), Saved(channelId, pickle, pickleKeyHex, now))
      ensures channelId in vault.sessions
      ensures var session := vault.sessions[channelId];
              && session.conversationId == channelId && session.peerUserId == [] && session.sessionPickle == pickle
              && session.pickleKeyHex == (if pickleKeyHex.Some? then pickleKeyHex.value else Repeated(48, 64))
              && session.updatedAt == now
    {
      var key := if pickleKeyHex.Some? then pickleKeyHex.value else Repeated(48, 64);
      StoreSession(SessionState(channelId, [], pickle, key, now), iv, generated);
    }

    method WipeAllKeys()
      modifies this
      ensures Valid() && vault == EMPTY_VAULT && items == map[] && masterKey == None
    {
      items, masterKey, vault := map[], None, EMPTY_VAULT;
    }
  }

  function PickleIn(v: Vault, channelId: Str): Str {
    if channelId in v.sessions then v.sessions[channelId].sessionPickle else []
  }

  /** The session kept for a channel; without a pickle key it gets 64 zero digits. */
  function Saved(channelId: Str, pickle: Str, pickleKeyHex: Option<Str>, now: int): SessionState {
    SessionState(channelId, [], pickle, if pickleKeyHex.Some? then pickleKeyHex.value else Repeated(48, 64), now)
  }

  // ---- pushes --------------------------------------------------------------

  datatype Opened = Opened(plaintext: Str, updatedPickle: Str)

  /** The ratchet step, from pickle, message type and ciphertext; None when it throws. */
  type Ratchet = (Str, int, Str) -> Option<Opened>

  datatype Push = Push(channelId: Str, senderId: Str, ciphertext: Str, messageType: int, serverId: Str)
  datatype Pushed = Pushed(channelId: Str, senderId: Str, body: Str, ciphertext: Str, status: Str, serverId: Str)

  /** The clock, the vector and the ids a step draws. */
  datatype Draw = Draw(now: int, iv: Str, key: nat, recordId: Str)

  datatype Event = PushEvent(push: Push) | IdentityEvent(bundle: Str) | WipeEvent

  /** A channel's session after a history: a fold of the ratchet step over its own pushes. */
  function SessionAfter(ratchet: Ratchet, channelId: Str, events: seq<Event>): Option<Str> {
    if events == [] then None
    else
      var before := SessionAfter(ratchet, channelId, events[..|events| - 1]);
      match events[|events| - 1]
      case WipeEvent => None
      case IdentityEvent(_) => before
      case PushEvent(p) =>
        if p.channelId != channelId then before
        else match ratchet(if before.Some? then before.value else [], p.messageType, p.ciphertext)
          case None => before
          case Some(out) => Some(out.updatedPickle)
  }

  /** The vault after a push: the channel's session advanced, or nothing when the ratchet throws. */
  function VaultAfterPush(ratchet: Ratchet, v: Vault, p: Push, now: int): Vault {
    match ratchet(PickleIn(v, p.channelId), p.messageType, p.ciphertext)
    case None => v
    case Some(out) => WithSession(v, Saved(p.channelId, out.updatedPickle, None, now))
  }

  function MessagesAfterPush(
      ratchet: Ratchet, v: Vault, ms: map<Str, Pushed>, p: Push, recordId: Str): map<Str, Pushed>
  {
    match ratchet(PickleIn(v, p.channelId), p.messageType, p.ciphertext)
    case None => ms
    case Some(out) =>
      ms[recordId := Pushed(p.channelId, p.senderId, out.plaintext, p.ciphertext, DELIVERED, p.serverId)]
  }

  /** The vault holds exactly the folded session of every channel. */
  ghost predicate Reflects(v: Vault, ratchet: Ratchet, events: seq<Event>) {
    forall c :: ReflectsChannel(v, ratchet, events, c)
  }

  ghost predicate ReflectsChannel(v: Vault, ratchet: Ratchet, events: seq<Event>, c: Str) {
    match SessionAfter(ratchet, c, events)
    case None => c !in v.sessions
    case Some(pickle) =>
      c in v.sessions && v.sessions[c].sessionPickle == pickle && v.sessions[c].conversationId == c
  }

  /** What the ratchet makes of a push after a history of its channel. */
  function OpenedAfter(ratchet: Ratchet, events: seq<Event>, p: Push): Option<Opened> {
    var session := SessionAfter(ratchet, p.channelId, events);
    ratchet(if session.Some? then session.value else [], p.messageType, p.ciphertext)
  }

  /** The session the ratchet leaves behind after a push. */
  function Updated(ratchet: Ratchet, pickle: Str, p: Push): (r: Option<Str>)
    ensures var out := ratchet(pickle, p.messageType, p.ciphertext);
            r.Some? == out.Some? && (r.Some? ==> out == Some(Opened(out.value.plaintext, r.value)))
  {
    match ratchet(pickle, p.messageType, p.ciphertext)
    case None => None
    case Some(out) => Some(out.updatedPickle)
  }

  /** A push the ratchet opens advances its channel to the updated session; any other leaves it. */
  lemma {:induction false} PushAdvances(ratchet: Ratchet, events: seq<Event>, p: Push)
    ensures var before := SessionAfter(ratchet, p.channelId, events);
            var updated := Updated(ratchet, if before.Some? then before.value else [], p);
            SessionAfter(ratchet, p.channelId, events + [PushEvent(p)]) == if updated.Some? then updated else before
  {
    assert (events + [PushEvent(p)])[..|events|] == events;
  }

  /** The stored messages after a history: one for every push the ratchet opened, under its record id. */
  function Inbox(ratchet: Ratchet, ms: map<Str, Pushed>, events: seq<Event>, ids: seq<Str>): map<Str, Pushed>
    requires |ids| == |events|
  {
    if events == [] then ms
    else
      var n := |events| - 1;
      var before := Inbox(ratchet, ms, events[..n], ids[..n]);
      if !events[n].PushEvent? then before
      else
        var p := events[n].push;
        match OpenedAfter(ratchet, events[..n], p)
        case None => before
        case Some(out) =>
          before[ids[n] := Pushed(p.channelId, p.senderId, out.plaintext, p.ciphertext, DELIVERED, p.serverId)]
  }

  /** The plaintext that event `i` delivers, if it is a push the ratchet opens. */
  function DeliveredBy(ratchet: Ratchet, events: seq<Event>, i: nat): Option<Str>
    requires i < |events|
  {
    if !events[i].PushEvent? then None
    else match OpenedAfter(ratchet, events[..i], events[i].push)
      case None => None
      case Some(out) => Some(out.plaintext)
  }

  /** A stored message shows its push, field by field. */
  ghost predicate ShowsPush(m: Pushed, p: Push, plaintext: Str) {
    && m.channelId == p.channelId && m.senderId == p.senderId && m.serverId == p.serverId
    && m.body == plaintext && m.ciphertext == p.ciphertext && m.status == Ascii("delivered")
  }

  /** Every push the ratchet opened is stored under its record id, until another takes the id: with the
      text the ratchet gave, the ciphertext it came in, and the push's channel, sender and server id. */
  lemma {:induction false} InboxShowsPushes(
      ratchet: Ratchet, ms: map<Str, Pushed>, events: seq<Event>, ids: seq<Str>, i: nat)
    requires i < |events| == |ids| && DeliveredBy(ratchet, events, i).Some?
    requires forall j | i < j < |events| && ids[j] == ids[i] :: DeliveredBy(ratchet, events, j).None?
    ensures var inbox := Inbox(ratchet, ms, events, ids);
            ids[i] in inbox && ShowsPush(inbox[ids[i]], events[i].push, DeliveredBy(ratchet, events, i).value)
  {
    var n := |events| - 1;
    if i < n {
      forall j | 0 <= j < n
        ensures DeliveredBy(ratchet, events[..n], j) == DeliveredBy(ratchet, events, j)
      {
        assert events[..n][..j] == events[..j];
      }
      InboxShowsPushes(ratchet, ms, events[..n], ids[..n], i);
      assert ids[n] == ids[i] ==> DeliveredBy(ratchet, events, n).None?;
    }
  }

  lemma PushKeepsReflecting(v: Vault, ratchet: Ratchet, events: seq<Event>, p: Push, now: int)
    requires Reflects(v, ratchet, events)
    ensures Reflects(VaultAfterPush(ratchet, v, p, now), ratchet, events + [PushEvent(p)])
  {
    assert (events + [PushEvent(p)])[..|events|] == events;
    forall c
      ensures ReflectsChannel(VaultAfterPush(ratchet, v, p, now), ratchet, events + [PushEvent(p)], c)
    {
      assert ReflectsChannel(v, ratchet, events, c);
    }
  }

  lemma IdentityKeepsReflecting(v: Vault, ratchet: Ratchet, events: seq<Event>, bundle: Str)
    requires Reflects(v, ratchet, events)
    ensures Reflects(v.(identity := Some(bundle)), ratchet, events + [IdentityEvent(bundle)])
  {
    assert (events + [IdentityEvent(bundle)])[..|events|] == events;
    forall c
      ensures ReflectsChannel(v.(identity := Some(bundle)), ratchet, events + [IdentityEvent(bundle)], c)
    {
      assert ReflectsChannel(v, ratchet, events, c);
    }
  }

  function RecordIds(draws: seq<Draw>): (ids: seq<Str>)
    ensures |ids| == |draws| && forall i | 0 <= i < |draws| :: ids[i] == draws[i].recordId
  {
    seq(|draws|, i requires 0 <= i < |draws| => draws[i].recordId)
  }

  class SyncReconciler {
    const storage: SecureKeyStorage
    const ratchet: Ratchet
    var messages: map<Str, Pushed>

    constructor (storage: SecureKeyStorage, ratchet: Ratchet)
      ensures this.storage == storage && this.ratchet == ratchet && messages == map[]
    {
      this.storage, this.ratchet, messages := storage, ratchet, map[];
    }

    /** A push whose decryption throws leaves session and messages alone. */
    method HandleIncomingPush(p: Push, d: Draw) returns (ok: bool)
      requires storage.Valid()
      modifies this, storage
      ensures storage.Valid()
      ensures storage.vault == VaultAfterPush(ratchet, old(storage.vault), p, d.now)
      ensures messages == MessagesAfterPush(ratchet, old(storage.vault), old(messages), p, d.recordId)
      ensures ok == ratchet(old(PickleIn(storage.vault, p.channelId)), p.messageType, p.ciphertext).Some?
      ensures ok ==>
                && p.channelId in storage.vault.sessions
                && var session := storage.vault.sessions[p.channelId];
                && session.conversationId == p.channelId && session.peerUserId == []
                && Some(session.sessionPickle) == Updated(ratchet, old(PickleIn(storage.vault, p.channelId)), p)
                && session.pickleKeyHex == Repeated(48, 64) && session.updatedAt == d.now
    {
      var pickle := storage.GetSession(p.channelId, d.key);
      var out := ratchet(pickle, p.messageType, p.ciphertext);
      if out.None? {
        return false;
      }
      storage.SaveSession(p.channelId, out.value.updatedPickle, None, d.now, d.iv, d.key);
      messages := messages[d.recordId :=
        Pushed(p.channelId, p.senderId, out.value.plaintext, p.ciphertext, DELIVERED, p.serverId)];
      ok := true;
    }

    /** Any run of awaited pushes, identity writes and wipes: at the end every channel's stored session
        is the fold over its own successful pushes since the last wipe, every entry still opens, and the
        stored messages are those of the pushes opened. */
    method Run(events: seq<Event>, draws: seq<Draw>)
      requires storage.Valid() && storage.vault == EMPTY_VAULT && |draws| == |events|
      modifies this, storage
      ensures storage.Valid() && Reflects(storage.vault, ratchet, events)
      ensures messages == Inbox(ratchet, old(messages), events, RecordIds(draws))
    {
      for i := 0 to |events|
        invariant storage.Valid() && Reflects(storage.vault, ratchet, events[..i])
        invariant messages == Inbox(ratchet, old(messages), events[..i], RecordIds(draws)[..i])
      {
        assert events[..i + 1] == events[..i] + [events[i]];
        assert events[..i + 1][..i] == events[..i] && RecordIds(draws)[..i + 1][..i] == RecordIds(draws)[..i];
        var d := draws[i];
        match events[i] {
          case PushEvent(p) =>
            assert ReflectsChannel(storage.vault, ratchet, events[..i], p.channelId);
            PushKeepsReflecting(storage.vault, ratchet, events[..i], p, d.now);
            var ok := HandleIncomingPush(p, d);
          case IdentityEvent(bundle) =>
            IdentityKeepsReflecting(storage.vault, ratchet, events[..i], bundle);
            storage.StoreIdentityKey(bundle, d.iv, d.key);
          case WipeEvent =>
            storage.WipeAllKeys();
        }
      }
      assert events[..|events|] == events && RecordIds(draws)[..|events|] == RecordIds(draws);
    }
  }

  /** The part of a history that concerns a channel. */
  function Concerning(channelId: Str, events: seq<Event>): seq<Event> {
    if events == [] then []
    else
      var rest := Concerning(channelId, events[..|events| - 1]);
      match events[|events| - 1]
      case PushEvent(p) => if p.channelId == channelId then rest + [events[|events| - 1]] else rest
      case WipeEvent => rest + [WipeEvent]
      case IdentityEvent(_) => rest
  }

  /** Other channels' traffic cannot be seen in a session. */
  lemma {:induction false} OtherChannelsDoNotMatter(ratchet: Ratchet, channelId: Str, events: seq<Event>)
    ensures SessionAfter(ratchet, channelId, events) == SessionAfter(ratchet, channelId, Concerning(channelId, events))
  {
    if events == [] {
    } else {
      var prefix := events[..|events| - 1];
      OtherChannelsDoNotMatter(ratchet, channelId, prefix);
      var rest := Concerning(channelId, prefix);
      var last := events[|events| - 1];
      assert (rest + [last])[..|rest|] == rest;
    }
  }
}
