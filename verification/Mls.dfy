/** The group protocol: states, messages and the operations of one member. */
module Mls {
  import opened Bytes
  import opened Terms
  import opened KeySchedule
  import opened RatchetTree

  datatype Error =
    | InvalidSignature
    | DecryptionFailed
    | InvalidEpoch(expected: u64, got: u64)
    | MemberNotFound(user: Str)
    | SerializationError

  datatype KeyPackage = KeyPackage(
    userId: Str, deviceId: Str, identityKey: VerifyingKey, hpkePublicKey: PublicKey, signature: Signature)

  /** What the adder seals for the newcomer; an authentic plaintext may still fail to parse. */
  datatype WelcomePlain =
    | Payload(epoch: u64, leafIndex: nat, epochSecret: Secret, applicationSecret: Secret)
    | NotPayload(bytes: Str)

  /** The encrypted part of a Welcome, cut after its first 32 bytes when it has them. */
  datatype GroupSecrets = TooShort(bytes: Str) | GroupSecrets(ephemeral: PublicKey, body: Sealed<WelcomePlain>)

  datatype Welcome = Welcome(groupId: Str, epoch: u64, secrets: GroupSecrets, tree: seq<Leaf>, nonce: Str)

  datatype Commit = Commit(
    groupId: Str, epoch: u64, senderLeafIndex: nat, commitTag: Str, newPathPublicKey: PublicKey)

  datatype Ciphertext = Ciphertext(
    groupId: Str, epoch: u64, senderLeafIndex: nat, generation: u32, nonce: Str, body: Sealed<Str>)

  /** The persisted form of a member, which is also the value of a live one. */
  datatype GroupState = GroupState(
    groupId: Str, epoch: u64, myLeafIndex: nat, myIdentity: SigningKey, myHpkeSecret: Scalar,
    tree: seq<Leaf>, epochSecret: Secret, applicationSecret: Secret, messageGeneration: u32)

  /** The randomness one add draws. */
  datatype AddCoins = AddCoins(ephemeral: Scalar, nonce: Str, path: Scalar)

  const WELCOME_LABEL: Str := Ascii("MLS Welcome Enc")
  const MESSAGE_LABEL: Str := Ascii("MLS App Msg Key")

  // ---- key packages --------------------------------------------------------

  function PackageMessage(userId: Str, deviceId: Str, hpke: PublicKey): seq<Sym> {
    Octets(userId) + Octets(deviceId) + [Point(hpke)]
  }

  function NewKeyPackage(userId: Str, deviceId: Str, identity: SigningKey, hpke: Scalar): (kp: KeyPackage)
    ensures VerifyPackage(kp) && kp.hpkePublicKey == PublicKey(hpke)
  {
    KeyPackage(userId, deviceId, VerifyingKey(identity), PublicKey(hpke),
               Signed(identity, PackageMessage(userId, deviceId, PublicKey(hpke))))
  }

  predicate VerifyPackage(kp: KeyPackage) {
    Verifies(kp.identityKey, PackageMessage(kp.userId, kp.deviceId, kp.hpkePublicKey), kp.signature)
  }

  /** What a signature fixes: among all packages that carry it, exactly those verify that have the
      signer's key, the same X25519 key, and the same user id and device id run together. */
  lemma SignatureFixes(kp: KeyPackage, other: KeyPackage)
    requires VerifyPackage(kp) && other.signature == kp.signature
    ensures VerifyPackage(other) <==>
            && other.identityKey == kp.identityKey && other.hpkePublicKey == kp.hpkePublicKey
            && other.userId + other.deviceId == kp.userId + kp.deviceId
  {
    var (a, b) := (kp.userId + kp.deviceId, other.userId + other.deviceId);
    assert Octets(a) == Octets(kp.userId) + Octets(kp.deviceId);
    assert Octets(b) == Octets(other.userId) + Octets(other.deviceId);
    FixedSuffixSplits(Octets(a), [Point(kp.hpkePublicKey)], Octets(b), [Point(other.hpkePublicKey)]);
    OctetsInjective(a, b);
    if [Point(kp.hpkePublicKey)] == [Point(other.hpkePublicKey)] {
      assert [Point(kp.hpkePublicKey)][0] == [Point(other.hpkePublicKey)][0];
    }
  }

  /** So the border between the two ids is not signed: a package signed for ("ab", "c") verifies
      for ("a", "bc"). */
  lemma SignatureLeavesBorderOpen(identity: SigningKey, hpke: Scalar)
    ensures var kp := NewKeyPackage(Ascii("ab"), Ascii("c"), identity, hpke);
            var moved := kp.(userId := Ascii("a"), deviceId := Ascii("bc"));
            VerifyPackage(moved) && moved.userId != kp.userId
  {
    var kp := NewKeyPackage(Ascii("ab"), Ascii("c"), identity, hpke);
    var moved := kp.(userId := Ascii("a"), deviceId := Ascii("bc"));
    assert moved.userId + moved.deviceId == kp.userId + kp.deviceId;
    SignatureFixes(kp, moved);
  }

  function PackageLeaf(kp: KeyPackage): Leaf {
    Leaf(kp.userId, kp.deviceId, kp.identityKey, kp.hpkePublicKey, false)
  }

  // ---- the operations as functions of the state ----------------------------

  function Succ64(e: u64): u64 {
    Wrap64(e + 1)
  }

  function Create(groupId: Str, userId: Str, deviceId: Str, identity: SigningKey, hpke: Scalar, seed: nat): GroupState {
    var leaf := Leaf(userId, deviceId, VerifyingKey(identity), PublicKey(hpke), false);
    GroupState(groupId, 0, 0, identity, hpke, [leaf], Fresh(seed),
               DeriveEpochSecrets(Fresh(seed), 0, INIT_TAG).1, 0)
  }

  /** Move to an epoch: new secrets, generation back to zero. */
  function Advanced(g: GroupState, epoch: u64, tag: Str): GroupState {
    var (next, app) := DeriveEpochSecrets(g.epochSecret, epoch, tag);
    g.(epoch := epoch, epochSecret := next, applicationSecret := app, messageGeneration := 0)
  }

  function WelcomeKey(shared: Secret): Secret {
    Hkdf([], [Block(shared)], WELCOME_LABEL)
  }

  function WelcomeFor(after: GroupState, leafIndex: nat, recipient: PublicKey, coins: AddCoins): Welcome {
    var key := WelcomeKey(DiffieHellman(coins.ephemeral, recipient));
    var plain := Payload(after.epoch, leafIndex, after.epochSecret, after.applicationSecret);
    Welcome(after.groupId, after.epoch,
            GroupSecrets(PublicKey(coins.ephemeral), Sealed(key, coins.nonce, [], plain)),
            after.tree, coins.nonce)
  }

  function CommitOf(after: GroupState, tag: Str, path: Scalar): Commit {
    Commit(after.groupId, after.epoch, after.myLeafIndex, tag, PublicKey(path))
  }

  function AddMember(g: GroupState, kp: KeyPackage, coins: AddCoins): (GroupState, Result<(Welcome, Commit), Error>) {
    if !VerifyPackage(kp) then (g, Err(InvalidSignature))
    else
      var tree := WithLeaf(g.tree, PackageLeaf(kp));
      var after := Advanced(g.(tree := tree), Succ64(g.epoch), ADD_TAG);
      var welcome := WelcomeFor(after, FirstBlank(g.tree), kp.hpkePublicKey, coins);
      (after, Ok((welcome, CommitOf(after, ADD_TAG, coins.path))))
  }

  function RemoveMember(g: GroupState, user: Str, path: Scalar): (GroupState, Result<Commit, Error>) {
    match FindByUser(g.tree, user)
    case None => (g, Err(MemberNotFound(user)))
    case Some(i) =>
      var after := Advanced(g.(tree := Blanked(g.tree, i)), Succ64(g.epoch), REMOVE_TAG);
      (after, Ok(CommitOf(after, REMOVE_TAG, path)))
  }

  /** A receiver checks the epoch only; its own tree stays as it was. */
  function ApplyCommit(g: GroupState, c: Commit): (GroupState, Result<(), Error>) {
    if c.epoch != Succ64(g.epoch) then (g, Err(InvalidEpoch(Succ64(g.epoch), c.epoch)))
    else (Advanced(g, c.epoch, Normal(c.commitTag)), Ok(()))
  }

  function FromWelcome(w: Welcome, identity: SigningKey, hpke: Scalar): Result<GroupState, Error> {
    if w.secrets.TooShort? then Err(DecryptionFailed)
    else
      var found: Option<WelcomePlain> :=
        Open(WelcomeKey(DiffieHellman(hpke, w.secrets.ephemeral)), w.nonce, [], w.secrets.body);
      match found
      case None => Err(DecryptionFailed)
      case Some(NotPayload(_)) => Err(SerializationError)
      case Some(Payload(epoch, leafIndex, epochSecret, applicationSecret)) =>
        Ok(GroupState(w.groupId, epoch, leafIndex, identity, hpke, w.tree, epochSecret, applicationSecret, 0))
  }

  function MessageKey(app: Secret, gen: u32): Secret {
    Hkdf([], [Block(app)] + Octets(BigEndian(gen, 4)), MESSAGE_LABEL)
  }

  /** Four bytes of leaf index, cut to 32 bits, then eight bytes of generation. */
  function MessageNonce(leafIndex: nat, gen: u32): Str {
    BigEndian(leafIndex % U32, 4) + BigEndian(gen, 8)
  }

  /** The text "group:epoch:generation". */
  function AssociatedData(groupId: Str, epoch: u64, gen: u32): Str {
    groupId + [COLON] + Decimal(epoch) + [COLON] + Decimal(gen)
  }

  function Envelope(groupId: Str, epoch: u64, leafIndex: nat, gen: u32, app: Secret, plaintext: Str): Ciphertext {
    var nonce := MessageNonce(leafIndex, gen);
    Ciphertext(groupId, epoch, leafIndex, gen, nonce,
               Sealed(MessageKey(app, gen), nonce, AssociatedData(groupId, epoch, gen), plaintext))
  }

  function EncryptMessage(g: GroupState, plaintext: Str): (GroupState, Ciphertext) {
    (g.(messageGeneration := Wrap32(g.messageGeneration + 1)),
     Envelope(g.groupId, g.epoch, g.myLeafIndex, g.messageGeneration, g.applicationSecret, plaintext))
  }

  /** The nonce is rebuilt from the leaf index and generation; the carried one is not read. */
  function DecryptMessage(g: GroupState, m: Ciphertext): Result<Str, Error> {
    if m.groupId != g.groupId then Err(DecryptionFailed)
    else if m.epoch != g.epoch then Err(InvalidEpoch(g.epoch, m.epoch))
    else
      match Open(MessageKey(g.applicationSecret, m.generation), MessageNonce(m.senderLeafIndex, m.generation),
                 AssociatedData(g.groupId, g.epoch, m.generation), m.body)
      case None => Err(DecryptionFailed)
      case Some(plain) => Ok(plain)
  }

  // ---- what the formats determine ------------------------------------------

  lemma DecimalHasNoColon(n: nat)
    ensures COLON !in Decimal(n)
  {
    assert IsDigits(Decimal(n));
  }

  /** The associated data fixes its three parts, whatever characters the group id has. */
  lemma AssociatedDataInjective(g1: Str, e1: u64, n1: u32, g2: Str, e2: u64, n2: u32)
    ensures AssociatedData(g1, e1, n1) == AssociatedData(g2, e2, n2) <==> g1 == g2 && e1 == e2 && n1 == n2
  {
    if AssociatedData(g1, e1, n1) == AssociatedData(g2, e2, n2) {
      DecimalHasNoColon(e1); DecimalHasNoColon(e2);
      DecimalHasNoColon(n1); DecimalHasNoColon(n2);
      LastColonSplits(g1 + [COLON] + Decimal(e1), Decimal(n1), g2 + [COLON] + Decimal(e2), Decimal(n2));
      LastColonSplits(g1, Decimal(e1), g2, Decimal(e2));
      DecimalRoundTrip(e1); DecimalRoundTrip(e2);
      DecimalRoundTrip(n1); DecimalRoundTrip(n2);
    }
  }

  lemma MessageKeyInjective(a1: Secret, n1: u32, a2: Secret, n2: u32)
    ensures MessageKey(a1, n1) == MessageKey(a2, n2) <==> a1 == a2 && n1 == n2
  {
    var o1, o2 := Octets(BigEndian(n1, 4)), Octets(BigEndian(n2, 4));
    FixedSuffixSplits([Block(a1)], o1, [Block(a2)], o2);
    OctetsInjective(BigEndian(n1, 4), BigEndian(n2, 4));
    U32Bytes(n1, n2);
    if [Block(a1)] == [Block(a2)] {
      assert [Block(a1)][0] == [Block(a2)][0];
    }
  }

  lemma MessageNonceInjective(l1: nat, n1: u32, l2: nat, n2: u32)
    ensures MessageNonce(l1, n1) == MessageNonce(l2, n2) <==> l1 % U32 == l2 % U32 && n1 == n2
  {
    FixedSuffixSplits(BigEndian(l1 % U32, 4), BigEndian(n1, 8), BigEndian(l2 % U32, 4), BigEndian(n2, 8));
    U32Bytes(l1 % U32, l2 % U32);
    U64Bytes(n1, n2);
  }

  /** A receiver reads a message exactly when it shares group, epoch and application secret
      with the sender's state at encryption; otherwise the refusal says why. */
  lemma DecryptsIffSameEpochState(sender: GroupState, receiver: GroupState, plaintext: Str)
    ensures var m := EncryptMessage(sender, plaintext).1;
            DecryptMessage(receiver, m) ==
            if receiver.groupId != sender.groupId then Err(DecryptionFailed)
            else if receiver.epoch != sender.epoch then Err(InvalidEpoch(receiver.epoch, sender.epoch))
            else if receiver.applicationSecret != sender.applicationSecret then Err(DecryptionFailed)
            else Ok(plaintext)
  {
    MessageKeyInjective(sender.applicationSecret, sender.messageGeneration,
                        receiver.applicationSecret, sender.messageGeneration);
  }

  /** No header can be altered in transit: an envelope that carries a member's sealed body and
      is accepted anywhere has the original group, epoch, generation, 32-bit leaf and text. */
  lemma HeaderIsAuthentic(sender: GroupState, plaintext: Str, receiver: GroupState, m: Ciphertext)
    requires m.body == EncryptMessage(sender, plaintext).1.body
    requires DecryptMessage(receiver, m).Ok?
    ensures m.groupId == sender.groupId && m.epoch == sender.epoch && m.generation == sender.messageGeneration
    ensures m.senderLeafIndex % U32 == sender.myLeafIndex % U32
    ensures receiver.applicationSecret == sender.applicationSecret
    ensures DecryptMessage(receiver, m) == Ok(plaintext)
  {
    AssociatedDataInjective(receiver.groupId, receiver.epoch, m.generation,
                            sender.groupId, sender.epoch, sender.messageGeneration);
    MessageKeyInjective(receiver.applicationSecret, m.generation, sender.applicationSecret, sender.messageGeneration);
    MessageNonceInjective(m.senderLeafIndex, m.generation, sender.myLeafIndex, sender.messageGeneration);
  }

  lemma DhInjective(e: Scalar, a: Scalar, b: Scalar)
    ensures DiffieHellmanOf(e, a) == DiffieHellmanOf(e, b) <==> a == b
  {
  }

  lemma WelcomeKeyInjective(s1: Secret, s2: Secret)
    ensures WelcomeKey(s1) == WelcomeKey(s2) <==> s1 == s2
  {
    if WelcomeKey(s1) == WelcomeKey(s2) {
      assert [Block(s1)][0] == [Block(s2)][0];
    }
  }

  /** Joining with the key package's private half, and with no other key, yields the adder's new
      group id, epoch, secrets and tree; the joiner's index names the newcomer's own leaf, and
      every other leaf is as before. */
  lemma WelcomeRoundTrip(g: GroupState, kp: KeyPackage, coins: AddCoins, identity: SigningKey, hpke: Scalar)
    requires VerifyPackage(kp)
    ensures var (after, out) := AddMember(g, kp, coins);
            && out.Ok?
            && var joined := FromWelcome(out.value.0, identity, hpke);
            && (PublicKey(hpke) != kp.hpkePublicKey ==> joined == Err(DecryptionFailed))
            && (PublicKey(hpke) == kp.hpkePublicKey ==>
                  && joined.Ok?
                  && var j := joined.value;
                  && j.groupId == after.groupId == g.groupId
                  && j.epoch == after.epoch == Succ64(g.epoch)
                  && j.epochSecret == after.epochSecret && j.applicationSecret == after.applicationSecret
                  && j.tree == after.tree && j.messageGeneration == 0
                  && j.myIdentity == identity && j.myHpkeSecret == hpke
                  && j.myLeafIndex < |j.tree| && j.tree[j.myLeafIndex] == PackageLeaf(kp)
                  && (j.myLeafIndex < |g.tree| ==> g.tree[j.myLeafIndex].isBlank)
                  && (forall i | 0 <= i < |g.tree| && i != j.myLeafIndex :: j.tree[i] == g.tree[i]))
  {
    var recipient := kp.hpkePublicKey.of;
    DhInjective(coins.ephemeral, recipient, hpke);
    WelcomeKeyInjective(DiffieHellmanOf(coins.ephemeral, recipient), DiffieHellmanOf(coins.ephemeral, hpke));
    assert DiffieHellman(hpke, PublicKey(coins.ephemeral)) == DiffieHellmanOf(coins.ephemeral, hpke);
  }

  // ---- what each operation answers, for every input ------------------------

  /** The creator's group: one leaf, with the creator's ids and the public halves of its keys. */
  lemma {:induction false} CreateAnswer(
      groupId: Str, userId: Str, deviceId: Str, identity: SigningKey, hpke: Scalar, seed: nat)
    ensures var g := Create(groupId, userId, deviceId, identity, hpke, seed);
            && g.groupId == groupId && g.epoch == 0 && g.messageGeneration == 0
            && g.myIdentity == identity && g.myHpkeSecret == hpke && g.epochSecret == Fresh(seed)
            && g.myLeafIndex == 0 && |g.tree| == 1
            && g.tree[0] == Leaf(userId, deviceId, VerifyingKey(identity), PublicKey(hpke), false)
  {
  }

  /** An add goes through exactly for a package whose identity key signed user id, device id and
      X25519 key; any other package is refused and changes nothing. Then the group keeps its id and the
      member its keys and leaf, and Welcome and Commit announce the new epoch. */
  lemma {:induction false} AddAnswer(g: GroupState, kp: KeyPackage, coins: AddCoins)
    ensures var (after, out) := AddMember(g, kp, coins);
            && (out.Ok? <==>
                  kp.signature == Signed(kp.identityKey.of,
                                         Octets(kp.userId) + Octets(kp.deviceId) + [Point(kp.hpkePublicKey)]))
            && (out.Err? ==> after == g && out == Err(InvalidSignature))
            && (out.Ok? ==>
                  && KeepsSelf(g, after) && after.epoch == Succ64(g.epoch) && after.messageGeneration == 0
                  && var (w, c) := out.value;
                  && w.groupId == g.groupId && w.epoch == after.epoch && w.tree == after.tree
                  && w.nonce == coins.nonce
                  && w.secrets.GroupSecrets? && w.secrets.ephemeral == PublicKey(coins.ephemeral)
                  && c == Commit(g.groupId, after.epoch, g.myLeafIndex, Ascii("add_member"), PublicKey(coins.path)))
  {
  }

  /** Group id, leaf position and private keys of a member, which no operation changes. */
  ghost predicate KeepsSelf(g: GroupState, after: GroupState) {
    && after.groupId == g.groupId && after.myLeafIndex == g.myLeafIndex
    && after.myIdentity == g.myIdentity && after.myHpkeSecret == g.myHpkeSecret
  }

  /** A removal goes through exactly when the user has an occupied leaf. It blanks the first such leaf,
      keeps all others, and announces the new epoch; otherwise it changes nothing. */
  lemma {:induction false} RemoveAnswer(g: GroupState, user: Str, path: Scalar)
    ensures var (after, out) := RemoveMember(g, user, path);
            && (out.Ok? <==> exists i | 0 <= i < |g.tree| :: !g.tree[i].isBlank && g.tree[i].userId == user)
            && (out.Err? ==> after == g && out == Err(MemberNotFound(user)))
            && (out.Ok? ==>
                  && KeepsSelf(g, after) && after.epoch == Succ64(g.epoch) && after.messageGeneration == 0
                  && out.value == Commit(g.groupId, after.epoch, g.myLeafIndex, Ascii("remove_member"), PublicKey(path))
                  && FirstOfUserBlanked(g.tree, user, after.tree))
  {
    var found := FindByUser(g.tree, user);
    if found.Some? {
      assert Holds(g.tree[found.value], user);
    } else {
      assert forall i | 0 <= i < |g.tree| :: !Holds(g.tree[i], user);
    }
  }

  ghost predicate FirstOfUserBlanked(tree: seq<Leaf>, user: Str, after: seq<Leaf>) {
    && |after| == |tree|
    && exists i | 0 <= i < |tree| ::
         && !tree[i].isBlank && tree[i].userId == user && after[i] == tree[i].(isBlank := true)
         && (forall j | 0 <= j < i :: tree[j].isBlank || tree[j].userId != user)
         && (forall j | 0 <= j < |tree| && j != i :: after[j] == tree[j])
  }

  /** A commit is applied exactly when it is for the next epoch; the refusal names both epochs. */
  lemma {:induction false} ApplyAnswer(g: GroupState, c: Commit)
    ensures var (after, out) := ApplyCommit(g, c);
            && (out.Ok? <==> c.epoch == Succ64(g.epoch))
            && (out.Err? ==> after == g && out == Err(InvalidEpoch(Succ64(g.epoch), c.epoch)))
            && (out.Ok? ==>
                  KeepsSelf(g, after) && after.tree == g.tree && after.epoch == c.epoch && after.messageGeneration == 0)
  {
  }

  /** Two members at one point of the key schedule. */
  ghost predicate SameSecrets(g: GroupState, h: GroupState) {
    g.epoch == h.epoch && g.epochSecret == h.epochSecret && g.applicationSecret == h.applicationSecret
  }

  /** A receiver level with the committer follows its commit to the same secrets. An add is also
      followed with its tag left out; a removal without its tag leads away from the committer. */
  lemma {:induction false} ReceiverFollows(
      committer: GroupState, receiver: GroupState, kp: KeyPackage, coins: AddCoins, user: Str, path: Scalar)
    requires receiver.epoch == committer.epoch && receiver.epochSecret == committer.epochSecret
    ensures var (after, out) := AddMember(committer, kp, coins);
            out.Ok? ==>
              && SameSecrets(ApplyCommit(receiver, out.value.1).0, after)
              && SameSecrets(ApplyCommit(receiver, out.value.1.(commitTag := [])).0, after)
    ensures var (after, out) := RemoveMember(committer, user, path);
            out.Ok? ==>
              && SameSecrets(ApplyCommit(receiver, out.value).0, after)
              && !SameSecrets(ApplyCommit(receiver, out.value.(commitTag := [])).0, after)
  {
    AddAndRemoveDiverge(committer.epochSecret, Succ64(committer.epoch));
  }

  /** A Welcome is joined exactly when its body was sealed, without associated data, under the key of
      this private key and the sender's ephemeral one, and holds a payload. */
  lemma {:induction false} JoinAnswer(w: Welcome, identity: SigningKey, hpke: Scalar)
    ensures var r := FromWelcome(w, identity, hpke);
            if w.secrets.TooShort? then r == Err(DecryptionFailed)
            else
              var shared := DiffieHellmanOf(hpke, w.secrets.ephemeral.of);
              var key := Hkdf([], [Block(shared)], Ascii("MLS Welcome Enc"));
              match w.secrets.body
              case Junk(_) => r == Err(DecryptionFailed)
              case Sealed(k, nonce, aad, plain) =>
                if k != key || nonce != w.nonce || aad != [] then r == Err(DecryptionFailed)
                else if plain.NotPayload? then r == Err(SerializationError)
                else
                  && r.Ok?
                  && var g := r.value;
                  && g.groupId == w.groupId && g.tree == w.tree && g.messageGeneration == 0
                  && g.myIdentity == identity && g.myHpkeSecret == hpke
                  && plain == Payload(g.epoch, g.myLeafIndex, g.epochSecret, g.applicationSecret)
  {
  }

  /** An encryption sends a header that names group, epoch, leaf and the generation it spends, with the
      nonce the body was sealed with, and changes nothing but the generation. */
  lemma {:induction false} EncryptAnswer(g: GroupState, plaintext: Str)
    ensures var (after, m) := EncryptMessage(g, plaintext);
            && m.groupId == g.groupId && m.epoch == g.epoch && m.senderLeafIndex == g.myLeafIndex
            && m.generation == g.messageGeneration
            && m.body.Sealed? && m.body.nonce == m.nonce && m.body.plain == plaintext
            && after == g.(messageGeneration := Wrap32(g.messageGeneration + 1))
  {
  }

  // ---- formats, read back and written out ----------------------------------

  /** The nonce is twelve bytes: the leaf index's low 32 bits, then the generation. */
  lemma {:induction false} MessageNonceReads(leafIndex: nat, gen: u32)
    ensures var n := MessageNonce(leafIndex, gen);
            |n| == 12 && FromBigEndian(n[..4]) == leafIndex % U32 && FromBigEndian(n[4..]) == gen
  {
    var n := MessageNonce(leafIndex, gen);
    Widths();
    DecodeEncode(leafIndex % U32, 4);
    DecodeEncode(gen, 8);
    assert n[..4] == BigEndian(leafIndex % U32, 4) && n[4..] == BigEndian(gen, 8);
  }

  lemma {:induction false} AssociatedDataWrittenOut()
    ensures AssociatedData(Ascii("a:7"), 20, 3) == Ascii("a:7:20:3")
  {
    assert Decimal(20) == [50, 48] && Decimal(3) == [51];
  }

  lemma {:induction false} MessageKeyWrittenOut(app: Secret)
    ensures MessageKey(app, 258) == Hkdf([], [Block(app)] + Octets([0, 0, 1, 2]), Ascii("MLS App Msg Key"))
  {
    TwoByteNumber(1, 2, 2);
    assert BigEndian(258, 4) == [0, 0, 1, 2];
  }

  /** Keys of different uses never meet: Welcomes, messages, epochs and applications. */
  lemma {:induction false} KeysOfDifferentUses(shared: Secret, app: Secret, n: u32, s: Secret, e: u64, tag: Str)
    ensures WelcomeKey(shared) != MessageKey(app, n)
    ensures WelcomeKey(shared) != AppSecret(s) && WelcomeKey(shared) != NextSecret(s, e, tag)
    ensures MessageKey(app, n) != AppSecret(s) && MessageKey(app, n) != NextSecret(s, e, tag)
  {
    assert WELCOME_LABEL[4] == 87 && MESSAGE_LABEL[4] == 65;
    assert |WELCOME_LABEL| == |MESSAGE_LABEL| == 15 && |NEXT_EPOCH| == 22 && |APPLICATION| == 30;
  }
}
