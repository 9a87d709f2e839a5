/** The PQXDH handshake: key generation, the initiator, the responder, and their agreement. */
module Pqxdh {
  import opened Bytes
  import opened Terms

  datatype Error = InvalidSignature | InvalidKeyLength

  const INFO: Str := Ascii("PQXDH_X25519_SHA-512_ML-KEM-768")
  const DOMAIN_SEPARATOR: Str := Repeated(0xFF, 32)
  const ZERO_SALT: Str := Repeated(0, 64)

  // ---- key material --------------------------------------------------------

  datatype SignedPreKey = SignedPreKey(keyId: u32, publicKey: PublicKey, signature: Signature)
  datatype PqPreKey = PqPreKey(keyId: u32, publicKey: KemPublic, signature: Signature)
  datatype OneTimePublicKey = OneTimePublicKey(keyId: u32, publicKey: PublicKey)
  datatype OneTimePreKey = OneTimePreKey(keyId: u32, publicKey: PublicKey, privateKey: Scalar)

  /** What a user publishes. */
  datatype PublicBundle = PublicBundle(
    identityKey: VerifyingKey, identityX25519: PublicKey, signedPreKey: SignedPreKey, pqPreKey: PqPreKey,
    oneTimePreKeys: seq<OneTimePublicKey>)

  /** What a user keeps. */
  datatype IdentityBundle = IdentityBundle(
    identity: SigningKey, x25519: Scalar, signedPreKey: Scalar, pqKey: KemKey, oneTimePreKeys: seq<OneTimePreKey>)

  datatype InitMessage = InitMessage(
    senderIdentity: VerifyingKey, senderX25519: PublicKey, ephemeral: PublicKey, pqCiphertext: KemCiphertext,
    usedSignedPreKey: u32, usedPqPreKey: u32, usedOneTimeKey: Option<u32>)

  datatype InitResult = InitResult(sharedSecret: Secret, associatedData: seq<Sym>, message: InitMessage)
  datatype RespondResult = RespondResult(sharedSecret: Secret, associatedData: seq<Sym>)

  /** The randomness of an initiation. */
  datatype InitCoins = InitCoins(ephemeral: Scalar, kem: nat)

  function KemMessage(k: KemPublic): seq<Sym> {
    match k
    case KemPublic(key) => [KemPoint(key)]
    case KemPublicBytes(bytes) => Octets(bytes)
  }

  // ---- the derived secret --------------------------------------------------

  function Blocks(dhs: seq<Secret>): (r: seq<Sym>)
    ensures |r| == |dhs|
    ensures forall i | 0 <= i < |dhs| :: r[i] == Block(dhs[i])
  {
    seq(|dhs|, i requires 0 <= i < |dhs| => Block(dhs[i]))
  }

  function SharedSecret(dhs: seq<Secret>, pq: Secret): Secret {
    Hkdf(Octets(ZERO_SALT), Octets(DOMAIN_SEPARATOR) + Blocks(dhs) + [Block(pq)], INFO)
  }

  method DeriveSharedSecret(dhs: seq<Secret>, pq: Secret, alice: VerifyingKey, bob: VerifyingKey)
    returns (secret: Secret, ad: seq<Sym>)
    ensures secret == SharedSecret(dhs, pq)
    ensures ad == [Verifier(alice), Verifier(bob)]
  {
    var km: seq<Sym> := [];
    for i := 0 to |dhs|
      invariant km == Blocks(dhs[..i])
    {
      km := km + [Block(dhs[i])];
      assert Blocks(dhs[..i + 1]) == Blocks(dhs[..i]) + [Block(dhs[i])];
    }
    assert dhs[..|dhs|] == dhs;
    km := km + [Block(pq)];
    var ikm := Octets(DOMAIN_SEPARATOR) + km;
    assert ikm == Octets(DOMAIN_SEPARATOR) + Blocks(dhs) + [Block(pq)];
    secret := Hkdf(Octets(ZERO_SALT), ikm, INFO);
    ad := [Verifier(alice)] + [Verifier(bob)];
  }

  /** The secret fixes the number, order and values of the exchanges and the encapsulated secret. */
  lemma SharedSecretInjective(d1: seq<Secret>, p1: Secret, d2: seq<Secret>, p2: Secret)
    ensures SharedSecret(d1, p1) == SharedSecret(d2, p2) <==> d1 == d2 && p1 == p2
  {
    if SharedSecret(d1, p1) == SharedSecret(d2, p2) {
      var f := Octets(DOMAIN_SEPARATOR);
      FixedSuffixSplits(f + Blocks(d1), [Block(p1)], f + Blocks(d2), [Block(p2)]);
      assert [Block(p1)][0] == [Block(p2)][0];
      assert |d1| == |d2|;
      forall i | 0 <= i < |d1|
        ensures d1[i] == d2[i]
      {
        assert (f + Blocks(d1))[|f| + i] == Block(d1[i]);
        assert (f + Blocks(d2))[|f| + i] == Block(d2[i]);
      }
    }
  }

  // ---- the two sides -------------------------------------------------------

  predicate BundleVerifies(b: PublicBundle) {
    && Verifies(b.identityKey, [Point(b.signedPreKey.publicKey)], b.signedPreKey.signature)
    && Verifies(b.identityKey, KemMessage(b.pqPreKey.publicKey), b.pqPreKey.signature)
  }

  /** The initiator takes the first one-time key the bundle offers, if any. */
  function Initiate(
      identity: SigningKey, x25519: Scalar, bob: PublicBundle, coins: InitCoins): Result<InitResult, Error>
  {
    if !BundleVerifies(bob) then Err(InvalidSignature)
    else if bob.pqPreKey.publicKey.KemPublicBytes? then Err(InvalidKeyLength)
    else
      var spk := bob.signedPreKey.publicKey;
      var three := [DiffieHellman(x25519, spk), DiffieHellman(coins.ephemeral, bob.identityX25519),
                    DiffieHellman(coins.ephemeral, spk)];
      var offered := bob.oneTimePreKeys;
      var dhs := if offered == [] then three else three + [DiffieHellman(coins.ephemeral, offered[0].publicKey)];
      var used: Option<u32> := if offered == [] then None else Some(offered[0].keyId);
      var kem := bob.pqPreKey.publicKey.key;
      Ok(InitResult(SharedSecret(dhs, KemShared(kem, coins.kem)),
                    [Verifier(VerifyingKey(identity)), Verifier(bob.identityKey)],
                    InitMessage(VerifyingKey(identity), PublicKey(x25519), PublicKey(coins.ephemeral),
                                KemCiphertext(kem, coins.kem), bob.signedPreKey.keyId, bob.pqPreKey.keyId, used)))
  }

  function Respond(bob: IdentityBundle, oneTime: Option<Scalar>, m: InitMessage): Result<RespondResult, Error> {
    var three := [DiffieHellman(bob.signedPreKey, m.senderX25519), DiffieHellman(bob.x25519, m.ephemeral),
                  DiffieHellman(bob.signedPreKey, m.ephemeral)];
    var dhs := if oneTime.Some? then three + [DiffieHellman(oneTime.value, m.ephemeral)] else three;
    match Decapsulate(bob.pqKey, m.pqCiphertext)
    case None => Err(InvalidKeyLength)
    case Some(pq) =>
      Ok(RespondResult(SharedSecret(dhs, pq), [Verifier(m.senderIdentity), Verifier(VerifyingKey(bob.identity))]))
  }

  /** The private half of the first stored one-time key with this id. */
  function FindOneTime(keys: seq<OneTimePreKey>, id: u32): Option<Scalar> {
    if keys == [] then None
    else if keys[0].keyId == id then Some(keys[0].privateKey)
    else FindOneTime(keys[1..], id)
  }

  ghost predicate FirstWithId(keys: seq<OneTimePreKey>, id: u32, i: nat) {
    i < |keys| && keys[i].keyId == id && forall j | 0 <= j < i :: keys[j].keyId != id
  }

  /** A lookup gives the key at the first place with the id, and nothing exactly when there is none. */
  lemma {:induction false} LookupIsFirst(keys: seq<OneTimePreKey>, id: u32)
    ensures match FindOneTime(keys, id)
            case None => forall i | 0 <= i < |keys| :: keys[i].keyId != id
            case Some(k) => exists i: nat :: FirstWithId(keys, id, i) && keys[i].privateKey == k
  {
    if keys == [] {
    } else if keys[0].keyId == id {
      assert FirstWithId(keys, id, 0);
    } else {
      LookupIsFirst(keys[1..], id);
      if FindOneTime(keys[1..], id).Some? {
        var i: nat :| FirstWithId(keys[1..], id, i) && keys[1..][i].privateKey == FindOneTime(keys, id).value;
        assert FirstWithId(keys, id, i + 1);
      }
    }
  }

  /** The responder looks the used key up by id; a miss is treated like no key at all. */
  function Receive(bob: IdentityBundle, m: InitMessage): Result<RespondResult, Error> {
    Respond(bob, if m.usedOneTimeKey.Some? then FindOneTime(bob.oneTimePreKeys, m.usedOneTimeKey.value) else None, m)
  }

  /** The bundle publishes this user's own long-term keys, properly signed. */
  predicate Publishes(own: IdentityBundle, pub: PublicBundle) {
    && pub.identityKey == VerifyingKey(own.identity) && pub.identityX25519 == PublicKey(own.x25519)
    && pub.signedPreKey.publicKey == PublicKey(own.signedPreKey) && pub.pqPreKey.publicKey == KemPublic(own.pqKey)
    && BundleVerifies(pub)
  }

  lemma DhListsAgreeIff(three: seq<Secret>, e: Scalar, a: Option<Scalar>, b: Option<Scalar>)
    ensures var da := if a.Some? then three + [DiffieHellmanOf(e, a.value)] else three;
            var db := if b.Some? then three + [DiffieHellmanOf(e, b.value)] else three;
            da == db <==> a == b
  {
    if a.Some? && b.Some? {
      FixedSuffixSplits(three, [DiffieHellmanOf(e, a.value)], three, [DiffieHellmanOf(e, b.value)]);
      if a != b {
        assert [DiffieHellmanOf(e, a.value)][0] != [DiffieHellmanOf(e, b.value)][0];
      }
    }
  }

  /** Whatever one-time keys the initiator was offered and the responder still holds, both sides
      always agree on the associated data, and agree on the secret exactly when the responder's lookup
      gives the private half of the key the initiator took. */
  lemma SecretsAgreeIffLookupMatches(
      identity: SigningKey, x25519: Scalar, own: IdentityBundle, pub: PublicBundle, coins: InitCoins)
    requires Publishes(own, pub)
    ensures var init := Initiate(identity, x25519, pub, coins);
            && init.Ok?
            && var answer := Receive(own, init.value.message);
            && answer.Ok? && answer.value.associatedData == init.value.associatedData
            && (answer.value.sharedSecret == init.value.sharedSecret <==>
                  (pub.oneTimePreKeys != [] ==>
                     var taken := pub.oneTimePreKeys[0];
                     FindOneTime(own.oneTimePreKeys, taken.keyId) == Some(taken.publicKey.of)))
  {
    var init := Initiate(identity, x25519, pub, coins).value;
    var e := coins.ephemeral;
    var three := [DiffieHellmanOf(x25519, own.signedPreKey), DiffieHellmanOf(e, own.x25519),
                  DiffieHellmanOf(e, own.signedPreKey)];
    assert three == [DiffieHellman(own.signedPreKey, PublicKey(x25519)), DiffieHellman(own.x25519, PublicKey(e)),
                     DiffieHellman(own.signedPreKey, PublicKey(e))];
    var taken := if pub.oneTimePreKeys == [] then None else Some(pub.oneTimePreKeys[0].publicKey.of);
    var held := if pub.oneTimePreKeys == [] then None else FindOneTime(own.oneTimePreKeys, pub.oneTimePreKeys[0].keyId);
    DhListsAgreeIff(three, e, taken, held);
    var da := if taken.Some? then three + [DiffieHellmanOf(e, taken.value)] else three;
    var db := if held.Some? then three + [DiffieHellmanOf(e, held.value)] else three;
    var pq := KemShared(own.pqKey, coins.kem);
    SharedSecretInjective(da, pq, db, pq);
    assert init.sharedSecret == SharedSecret(da, pq);
    assert Receive(own, init.message).value.sharedSecret == SharedSecret(db, pq);
  }

  // ---- what each side answers, for every input -----------------------------

  /** Bob's identity key signed both pre-keys of the bundle. */
  ghost predicate BothSigned(bob: PublicBundle) {
    && bob.signedPreKey.signature == Signed(bob.identityKey.of, [Point(bob.signedPreKey.publicKey)])
    && bob.pqPreKey.signature ==
       Signed(bob.identityKey.of,
              match bob.pqPreKey.publicKey
              case KemPublic(key) => [KemPoint(key)]
              case KemPublicBytes(bytes) => Octets(bytes))
  }

  /** The exchanges of section 3.3 of the PQXDH specification: identity with signed pre-key, ephemeral
      with identity, ephemeral with signed pre-key, and ephemeral with the first one-time key, if any. */
  ghost function Exchanges(x25519: Scalar, e: Scalar, bob: PublicBundle): seq<Sym> {
    [Block(DiffieHellmanOf(x25519, bob.signedPreKey.publicKey.of)),
     Block(DiffieHellmanOf(e, bob.identityX25519.of)),
     Block(DiffieHellmanOf(e, bob.signedPreKey.publicKey.of))]
    + if bob.oneTimePreKeys == [] then [] else [Block(DiffieHellmanOf(e, bob.oneTimePreKeys[0].publicKey.of))]
  }

  /** The initiator accepts exactly the bundles whose pre-keys are both signed by the bundle's identity
      key and whose encapsulation key is well formed. It derives the specified secret, binds both
      identities, and names every key it used. */
  lemma {:induction false} InitiateAnswer(identity: SigningKey, x25519: Scalar, bob: PublicBundle, coins: InitCoins)
    ensures var r := Initiate(identity, x25519, bob, coins);
            if !BothSigned(bob) then r == Err(InvalidSignature)
            else match bob.pqPreKey.publicKey
              case KemPublicBytes(_) => r == Err(InvalidKeyLength)
              case KemPublic(key) =>
                && r.Ok?
                && r.value.sharedSecret ==
                   Hkdf(Octets(Repeated(0, 64)),
                        Octets(Repeated(255, 32)) + Exchanges(x25519, coins.ephemeral, bob)
                        + [Block(KemShared(key, coins.kem))],
                        Ascii("PQXDH_X25519_SHA-512_ML-KEM-768"))
                && r.value.associatedData == [Verifier(VerifyingKey(identity)), Verifier(bob.identityKey)]
                && r.value.message ==
                   InitMessage(VerifyingKey(identity), PublicKey(x25519), PublicKey(coins.ephemeral),
                               KemCiphertext(key, coins.kem), bob.signedPreKey.keyId, bob.pqPreKey.keyId,
                               if bob.oneTimePreKeys == [] then None else Some(bob.oneTimePreKeys[0].keyId))
  {
    if BothSigned(bob) && bob.pqPreKey.publicKey.KemPublic? {
      var e := coins.ephemeral;
      var spk := bob.signedPreKey.publicKey;
      var three := [DiffieHellman(x25519, spk), DiffieHellman(e, bob.identityX25519), DiffieHellman(e, spk)];
      assert Blocks(three) == Exchanges(x25519, e, bob)[..3];
      if bob.oneTimePreKeys == [] {
        assert Blocks(three) == Exchanges(x25519, e, bob);
      } else {
        assert Blocks(three + [DiffieHellman(e, bob.oneTimePreKeys[0].publicKey)]) == Exchanges(x25519, e, bob);
      }
    }
  }

  /** The responder fails exactly on a malformed ciphertext, and binds both identities. */
  lemma {:induction false} ReceiveAnswer(bob: IdentityBundle, m: InitMessage)
    ensures var r := Receive(bob, m);
            if m.pqCiphertext.KemCiphertextBytes? then r == Err(InvalidKeyLength)
            else r.Ok? && r.value.associatedData == [Verifier(m.senderIdentity), Verifier(VerifyingKey(bob.identity))]
  {
  }

  lemma {:induction false} ThreeAgreeIff(
      a: seq<Secret>, b: seq<Secret>, x: seq<Secret>, y: seq<Secret>, p: Secret, q: Secret)
    requires |a| == |b| == 3
    ensures SharedSecret(a + x, p) == SharedSecret(b + y, q) <==>
            a[0] == b[0] && a[1] == b[1] && a[2] == b[2] && x == y && p == q
  {
    SharedSecretInjective(a + x, p, b + y, q);
    if a + x == b + y {
      assert a == (a + x)[..3] == (b + y)[..3] == b;
      assert x == (a + x)[3..] == (b + y)[3..] == y;
    }
  }

  /** The optional fourth exchange. */
  function Fourth(e: Scalar, key: Option<Scalar>): seq<Secret> {
    if key.Some? then [DiffieHellmanOf(e, key.value)] else []
  }

  lemma {:induction false} FourthAgreesIff(e: Scalar, a: Option<Scalar>, b: Option<Scalar>)
    ensures Fourth(e, a) == Fourth(e, b) <==> a == b
  {
    if a.Some? && b.Some? && a != b {
      assert Fourth(e, a)[0] != Fourth(e, b)[0];
    }
  }

  function Taken(pub: PublicBundle): Option<Scalar> {
    if pub.oneTimePreKeys == [] then None else Some(pub.oneTimePreKeys[0].publicKey.of)
  }

  function Held(own: IdentityBundle, used: Option<u32>): Option<Scalar> {
    if used.Some? then FindOneTime(own.oneTimePreKeys, used.value) else None
  }

  lemma {:induction false} InitiatorSecret(identity: SigningKey, x25519: Scalar, pub: PublicBundle, coins: InitCoins)
    requires BundleVerifies(pub) && pub.pqPreKey.publicKey.KemPublic?
    ensures var (e, spk, ik) := (coins.ephemeral, pub.signedPreKey.publicKey.of, pub.identityX25519.of);
            var three := [DiffieHellmanOf(x25519, spk), DiffieHellmanOf(e, ik), DiffieHellmanOf(e, spk)];
            Initiate(identity, x25519, pub, coins).Ok?
            && Initiate(identity, x25519, pub, coins).value.sharedSecret ==
               SharedSecret(three + Fourth(e, Taken(pub)), KemShared(pub.pqPreKey.publicKey.key, coins.kem))
  {
    var (e, spk) := (coins.ephemeral, pub.signedPreKey.publicKey.of);
    var three := [DiffieHellmanOf(x25519, spk), DiffieHellmanOf(e, pub.identityX25519.of), DiffieHellmanOf(e, spk)];
    assert three + [] == three;
  }

  lemma {:induction false} ResponderSecret(own: IdentityBundle, m: InitMessage)
    requires m.pqCiphertext.KemCiphertext?
    ensures var (e, x) := (m.ephemeral.of, m.senderX25519.of);
            var three := [DiffieHellmanOf(x, own.signedPreKey), DiffieHellmanOf(e, own.x25519),
                          DiffieHellmanOf(e, own.signedPreKey)];
            var pq := Decapsulate(own.pqKey, m.pqCiphertext).value;
            Receive(own, m).Ok?
            && Receive(own, m).value.sharedSecret == SharedSecret(three + Fourth(e, Held(own, m.usedOneTimeKey)), pq)
  {
    var (e, x) := (m.ephemeral.of, m.senderX25519.of);
    var three := [DiffieHellmanOf(x, own.signedPreKey), DiffieHellmanOf(e, own.x25519),
                  DiffieHellmanOf(e, own.signedPreKey)];
    assert three == [DiffieHellman(own.signedPreKey, m.senderX25519), DiffieHellman(own.x25519, m.ephemeral),
                     DiffieHellman(own.signedPreKey, m.ephemeral)];
    assert three + [] == three;
  }

  lemma {:induction false} DhAgreesIff(e: Scalar, a: Scalar, b: Scalar)
    ensures DiffieHellmanOf(e, a) == DiffieHellmanOf(e, b) <==> a == b
    ensures DiffieHellmanOf(a, e) == DiffieHellmanOf(b, e) <==> a == b
  {
  }

  /** Whoever answers an initiation derives its secret exactly when it holds the private halves of the
      bundle's signed pre-key, identity key and encapsulation key, and of the one-time key taken. */
  lemma {:induction false} OnlyTheOwnerAgrees(
      identity: SigningKey, x25519: Scalar, pub: PublicBundle, coins: InitCoins, other: IdentityBundle)
    requires BundleVerifies(pub) && pub.pqPreKey.publicKey.KemPublic?
    ensures var init := Initiate(identity, x25519, pub, coins);
            && init.Ok?
            && var answer := Receive(other, init.value.message);
            && answer.Ok?
            && (answer.value.sharedSecret == init.value.sharedSecret <==>
                  && other.signedPreKey == pub.signedPreKey.publicKey.of && other.x25519 == pub.identityX25519.of
                  && other.pqKey == pub.pqPreKey.publicKey.key
                  && Held(other, init.value.message.usedOneTimeKey) == Taken(pub))
  {
    InitiatorSecret(identity, x25519, pub, coins);
    var m := Initiate(identity, x25519, pub, coins).value.message;
    ResponderSecret(other, m);
    var (e, spk, kem) := (coins.ephemeral, pub.signedPreKey.publicKey.of, pub.pqPreKey.publicKey.key);
    var (taken, held) := (Taken(pub), Held(other, m.usedOneTimeKey));
    var a := [DiffieHellmanOf(x25519, spk), DiffieHellmanOf(e, pub.identityX25519.of), DiffieHellmanOf(e, spk)];
    var b := [DiffieHellmanOf(x25519, other.signedPreKey), DiffieHellmanOf(e, other.x25519),
              DiffieHellmanOf(e, other.signedPreKey)];
    ThreeAgreeIff(a, b, Fourth(e, taken), Fourth(e, held), KemShared(kem, coins.kem),
                  Decapsulate(other.pqKey, m.pqCiphertext).value);
    DhAgreesIff(x25519, spk, other.signedPreKey);
    DhAgreesIff(e, pub.identityX25519.of, other.x25519);
    FourthAgreesIff(e, taken, held);
  }

  /** Bob, given any message with a well-formed ciphertext, derives Alice's secret exactly when the
      message has her identity's X25519 key, her ephemeral key and her ciphertext, and names the
      one-time key she took or one with the same private half. */
  lemma {:induction false} OnlyTheMessageAgrees(
      identity: SigningKey, x25519: Scalar, own: IdentityBundle, pub: PublicBundle, coins: InitCoins, m: InitMessage)
    requires Publishes(own, pub) && m.pqCiphertext.KemCiphertext?
    ensures var init := Initiate(identity, x25519, pub, coins);
            && init.Ok? && Receive(own, m).Ok?
            && (Receive(own, m).value.sharedSecret == init.value.sharedSecret <==>
                  && m.senderX25519 == PublicKey(x25519) && m.ephemeral == PublicKey(coins.ephemeral)
                  && m.pqCiphertext == KemCiphertext(own.pqKey, coins.kem)
                  && Held(own, m.usedOneTimeKey) == Taken(pub))
  {
    InitiatorSecret(identity, x25519, pub, coins);
    ResponderSecret(own, m);
    var (e, f, spk) := (coins.ephemeral, m.ephemeral.of, own.signedPreKey);
    var (taken, held) := (Taken(pub), Held(own, m.usedOneTimeKey));
    var a := [DiffieHellmanOf(x25519, spk), DiffieHellmanOf(e, own.x25519), DiffieHellmanOf(e, spk)];
    var b := [DiffieHellmanOf(m.senderX25519.of, spk), DiffieHellmanOf(f, own.x25519), DiffieHellmanOf(f, spk)];
    ThreeAgreeIff(a, b, Fourth(e, taken), Fourth(f, held), KemShared(own.pqKey, coins.kem),
                  Decapsulate(own.pqKey, m.pqCiphertext).value);
    DhAgreesIff(spk, x25519, m.senderX25519.of);
    DhAgreesIff(own.x25519, e, f);
    if e == f {
      FourthAgreesIff(e, taken, held);
    }
  }

  // ---- key generation ------------------------------------------------------

  /** The randomness of key generation; one-time keys are drawn in order. */
  datatype KeyCoins = KeyCoins(
    identity: SigningKey, x25519: Scalar, signedPreKey: Scalar, pqKey: KemKey, oneTime: nat -> Scalar)

  method GenerateKeys(count: nat, coins: KeyCoins) returns (own: IdentityBundle, pub: PublicBundle)
    ensures Publishes(own, pub)
    ensures own.identity == coins.identity && own.x25519 == coins.x25519
    ensures own.signedPreKey == coins.signedPreKey && own.pqKey == coins.pqKey
    ensures pub.signedPreKey.keyId == 1 && pub.pqPreKey.keyId == 1
    ensures |own.oneTimePreKeys| == |pub.oneTimePreKeys| == count % U32
    ensures forall i | 0 <= i < count % U32 ::
              var k := coins.oneTime(i + 1);
              && own.oneTimePreKeys[i] == OneTimePreKey(i + 1, PublicKey(k), k)
              && pub.oneTimePreKeys[i] == OneTimePublicKey(i + 1, PublicKey(k))
  {
    var identity := coins.identity;
    var spk := SignedPreKey(1, PublicKey(coins.signedPreKey), Signed(identity, [Point(PublicKey(coins.signedPreKey))]));
    var pqPub := KemPublic(coins.pqKey);
    var pq := PqPreKey(1, pqPub, Signed(identity, KemMessage(pqPub)));
    var kept: seq<OneTimePreKey> := [];
    var published: seq<OneTimePublicKey> := [];
    for i := 1 to count % U32 + 1
      invariant |kept| == |published| == i - 1
      invariant forall j | 0 <= j < i - 1 ::
                  var k := coins.oneTime(j + 1);
                  && kept[j] == OneTimePreKey(j + 1, PublicKey(k), k)
                  && published[j] == OneTimePublicKey(j + 1, PublicKey(k))
    {
      var k := coins.oneTime(i);
      kept := kept + [OneTimePreKey(i, PublicKey(k), k)];
      published := published + [OneTimePublicKey(i, PublicKey(k))];
    }
    own := IdentityBundle(identity, coins.x25519, coins.signedPreKey, coins.pqKey, kept);
    pub := PublicBundle(VerifyingKey(identity), PublicKey(coins.x25519), spk, pq, published);
  }

  /** Generated ids are distinct, so a lookup finds the very key that was published under the id. */
  lemma {:induction false} LookupFindsOwnKey(keys: seq<OneTimePreKey>, i: nat)
    requires i < |keys| && forall a, b | 0 <= a < b < |keys| :: keys[a].keyId != keys[b].keyId
    ensures FindOneTime(keys, keys[i].keyId) == Some(keys[i].privateKey)
  {
    if i == 0 {
    } else {
      LookupFindsOwnKey(keys[1..], i - 1);
    }
  }

  /** Generate, initiate, receive: for every requested number of one-time keys, zero and oversized
      counts included, both sides end with one secret and one associated data. */
  method Handshake(identity: SigningKey, x25519: Scalar, count: nat, bobCoins: KeyCoins, coins: InitCoins)
    returns (init: Result<InitResult, Error>, answer: Result<RespondResult, Error>)
    ensures init.Ok? && answer.Ok?
    ensures init.value.sharedSecret == answer.value.sharedSecret
    ensures init.value.associatedData == answer.value.associatedData
    ensures init.value.message.usedOneTimeKey == if count % U32 == 0 then None else Some(1)
  {
    var own, pub := GenerateKeys(count, bobCoins);
    init := Initiate(identity, x25519, pub, coins);
    SecretsAgreeIffLookupMatches(identity, x25519, own, pub, coins);
    answer := Receive(own, init.value.message);
    if |own.oneTimePreKeys| > 0 {
      LookupFindsOwnKey(own.oneTimePreKeys, 0);
      assert pub.oneTimePreKeys[0].publicKey.of == own.oneTimePreKeys[0].privateKey;
    }
  }
}
