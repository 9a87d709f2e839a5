/** A live member: the operations as updates in place, each proved against the function of the
    state that specifies it. */
module MlsGroups {
  import opened Bytes
  import opened Terms
  import opened KeySchedule
  import opened RatchetTree
  import opened Mls

  class MlsGroup {
    var groupId: Str
    var epoch: u64
    var myLeafIndex: nat
    var myIdentity: SigningKey
    var myHpkeSecret: Scalar
    const tree: TreeKemTree
    var epochSecret: Secret
    var applicationSecret: Secret
    var messageGeneration: u32

    function ExportState(): GroupState
      reads this, tree
    {
      GroupState(groupId, epoch, myLeafIndex, myIdentity, myHpkeSecret, tree.leaves,
                 epochSecret, applicationSecret, messageGeneration)
    }

    constructor Create(groupId: Str, userId: Str, deviceId: Str, identity: SigningKey, hpke: Scalar, seed: nat)
      ensures fresh(tree)
      ensures ExportState() == Mls.Create(groupId, userId, deviceId, identity, hpke, seed)
    {
      var t := new TreeKemTree([]);
      var index := t.AddLeaf(Leaf(userId, deviceId, VerifyingKey(identity), PublicKey(hpke), false));
      var (_, app) := DeriveEpochSecrets(Fresh(seed), 0, INIT_TAG);
      this.groupId, this.epoch, this.myLeafIndex := groupId, 0, index;
      this.myIdentity, this.myHpkeSecret, this.tree := identity, hpke, t;
      this.epochSecret, this.applicationSecret, this.messageGeneration := Fresh(seed), app, 0;
    }

    constructor ImportState(s: GroupState)
      ensures fresh(tree)
      ensures ExportState() == s
    {
      groupId, epoch, myLeafIndex := s.groupId, s.epoch, s.myLeafIndex;
      myIdentity, myHpkeSecret := s.myIdentity, s.myHpkeSecret;
      tree := new TreeKemTree(s.tree);
      epochSecret, applicationSecret, messageGeneration := s.epochSecret, s.applicationSecret, s.messageGeneration;
    }

    method AddMember(kp: KeyPackage, coins: AddCoins) returns (r: Result<(Welcome, Commit), Error>)
      modifies this, tree
      ensures (ExportState(), r) == Mls.AddMember(old(ExportState()), kp, coins)
    {
      if !VerifyPackage(kp) {
        return Err(InvalidSignature);
      }
      var index := tree.AddLeaf(PackageLeaf(kp));
      var nextEpoch := Succ64(epoch);
      var (nextSecret, nextApp) := DeriveEpochSecrets(epochSecret, nextEpoch, ADD_TAG);
      var key := WelcomeKey(DiffieHellman(coins.ephemeral, kp.hpkePublicKey));
      var body := Sealed(key, coins.nonce, [], Payload(nextEpoch, index, nextSecret, nextApp));
      var welcome := Welcome(groupId, nextEpoch, GroupSecrets(PublicKey(coins.ephemeral), body),
                             tree.leaves, coins.nonce);
      var commit := Commit(groupId, nextEpoch, myLeafIndex, ADD_TAG, PublicKey(coins.path));
      epoch, epochSecret, applicationSecret, messageGeneration := nextEpoch, nextSecret, nextApp, 0;
      r := Ok((welcome, commit));
    }

    method RemoveMember(user: Str, path: Scalar) returns (r: Result<Commit, Error>)
      modifies this, tree
      ensures (ExportState(), r) == Mls.RemoveMember(old(ExportState()), user, path)
    {
      var found := tree.FindLeafByUser(user);
      if found.None? {
        return Err(MemberNotFound(user));
      }
      tree.BlankLeaf(found.value);
      var nextEpoch := Succ64(epoch);
      var (nextSecret, nextApp) := DeriveEpochSecrets(epochSecret, nextEpoch, REMOVE_TAG);
      r := Ok(Commit(groupId, nextEpoch, myLeafIndex, REMOVE_TAG, PublicKey(path)));
      epoch, epochSecret, applicationSecret, messageGeneration := nextEpoch, nextSecret, nextApp, 0;
    }

    method ApplyCommit(c: Commit) returns (r: Result<(), Error>)
      modifies this
      ensures (ExportState(), r) == Mls.ApplyCommit(old(ExportState()), c)
    {
      if c.epoch != Succ64(epoch) {
        return Err(InvalidEpoch(Succ64(epoch), c.epoch));
      }
      var (nextSecret, nextApp) := DeriveEpochSecrets(epochSecret, c.epoch, Normal(c.commitTag));
      epoch, epochSecret, applicationSecret, messageGeneration := c.epoch, nextSecret, nextApp, 0;
      r := Ok(());
    }

    method EncryptMessage(plaintext: Str) returns (m: Ciphertext)
      modifies this
      ensures (ExportState(), m) == Mls.EncryptMessage(old(ExportState()), plaintext)
    {
      var gen := messageGeneration;
      messageGeneration := Wrap32(messageGeneration + 1);
      var key := Hkdf([], [Block(applicationSecret)] + Octets(BigEndian(gen, 4)), MESSAGE_LABEL);
      var nonce := BigEndian(myLeafIndex % U32, 4) + BigEndian(gen, 8);
      var ad := groupId + [COLON] + Decimal(epoch) + [COLON] + Decimal(gen);
      var body := Sealed(key, nonce, ad, plaintext);
      m := Ciphertext(groupId, epoch, myLeafIndex, gen, nonce, body);
    }

    method DecryptMessage(m: Ciphertext) returns (r: Result<Str, Error>)
      ensures r == Mls.DecryptMessage(ExportState(), m)
    {
      if m.groupId != groupId {
        return Err(DecryptionFailed);
      }
      if m.epoch != epoch {
        return Err(InvalidEpoch(epoch, m.epoch));
      }
      var key := Hkdf([], [Block(applicationSecret)] + Octets(BigEndian(m.generation, 4)), MESSAGE_LABEL);
      var nonce := BigEndian(m.senderLeafIndex % U32, 4) + BigEndian(m.generation, 8);
      var ad := groupId + [COLON] + Decimal(epoch) + [COLON] + Decimal(m.generation);
      var plain := Open(key, nonce, ad, m.body);
      r := if plain.Some? then Ok(plain.value) else Err(DecryptionFailed);
    }
  }

  // ---- the load-operate-store wrappers -------------------------------------

  datatype Call =
    | AddCall(kp: KeyPackage, coins: AddCoins)
    | CommitCall(commit: Commit)
    | RemoveCall(user: Str, path: Scalar)
    | EncryptCall(plaintext: Str)
    | DecryptCall(message: Ciphertext)

  datatype Reply =
    | Added(welcome: Welcome, commit: Commit)
    | Moved(epoch: u64)
    | Removed(commit: Commit, epoch: u64)
    | Encrypted(message: Ciphertext)
    | Decrypted(plaintext: Str, senderLeafIndex: nat)
    | Failed(error: Error)

  function Serve(s: GroupState, call: Call): (GroupState, Reply) {
    match call
    case AddCall(kp, coins) =>
      (match AddMember(s, kp, coins)
       case (after, Ok(out)) => (after, Added(out.0, out.1))
       case (_, Err(e)) => (s, Failed(e)))
    case CommitCall(c) =>
      (match ApplyCommit(s, c)
       case (after, Ok(_)) => (after, Moved(after.epoch))
       case (_, Err(e)) => (s, Failed(e)))
    case RemoveCall(user, path) =>
      (match RemoveMember(s, user, path)
       case (after, Ok(c)) => (after, Removed(c, after.epoch))
       case (_, Err(e)) => (s, Failed(e)))
    case EncryptCall(plaintext) =>
      var (after, m) := EncryptMessage(s, plaintext);
      (after, Encrypted(m))
    case DecryptCall(m) =>
      (match DecryptMessage(s, m)
       case Ok(plain) => (s, Decrypted(plain, m.senderLeafIndex))
       case Err(e) => (s, Failed(e)))
  }

  /** What a reply tells the caller, for every state and call: a failure means nothing has changed, an
      epoch in a reply is that of the new state, an encrypted message is readable before and after, and
      a decrypted one came from the leaf named, in this group and epoch. */
  lemma {:induction false} ReplyTells(s: GroupState, call: Call)
    ensures var (after, reply) := Serve(s, call);
            && (reply.Failed? ==> after == s)
            && match call
               case AddCall(kp, coins) =>
                 if reply.Failed? then reply.error == InvalidSignature && !VerifyPackage(kp)
                 else
                   && reply.Added? && reply.commit.commitTag == Ascii("add_member")
                   && reply.welcome.epoch == reply.commit.epoch == after.epoch == Succ64(s.epoch)
                   && reply.welcome.tree == after.tree && reply.welcome.groupId == reply.commit.groupId == s.groupId
               case CommitCall(c) =>
                 if c.epoch == Succ64(s.epoch) then reply == Moved(c.epoch) && after.epoch == c.epoch
                 else reply == Failed(InvalidEpoch(Succ64(s.epoch), c.epoch))
               case RemoveCall(user, path) =>
                 if reply.Failed? then reply.error == MemberNotFound(user)
                 else
                   && reply.Removed? && reply.commit.commitTag == Ascii("remove_member")
                   && reply.epoch == reply.commit.epoch == after.epoch == Succ64(s.epoch)
                   && FirstOfUserBlanked(s.tree, user, after.tree)
               case EncryptCall(plaintext) =>
                 && reply.Encrypted? && reply.message.generation == s.messageGeneration
                 && DecryptMessage(s, reply.message) == Ok(plaintext) == DecryptMessage(after, reply.message)
               case DecryptCall(m) =>
                 && after == s
                 && if m.groupId != s.groupId then reply == Failed(DecryptionFailed)
                    else if m.epoch != s.epoch then reply == Failed(InvalidEpoch(s.epoch, m.epoch))
                    else if reply.Failed? then reply.error == DecryptionFailed
                    else
                      && reply.Decrypted? && reply.senderLeafIndex == m.senderLeafIndex
                      && m.body.Sealed? && m.body.plain == reply.plaintext
  {
    match call
    case AddCall(kp, coins) => AddAnswer(s, kp, coins);
    case CommitCall(c) => ApplyAnswer(s, c);
    case RemoveCall(user, path) => RemoveAnswer(s, user, path);
    case EncryptCall(plaintext) =>
      DecryptsIffSameEpochState(s, s, plaintext);
      DecryptsIffSameEpochState(s, EncryptMessage(s, plaintext).0, plaintext);
    case DecryptCall(m) =>
  }

  /** The replies of a call sequence, and the state it leaves. */
  function ServeAll(s: GroupState, calls: seq<Call>): (r: (GroupState, seq<Reply>))
    ensures |r.1| == |calls|
  {
    if calls == [] then (s, [])
    else
      var (mid, replies) := ServeAll(s, calls[..|calls| - 1]);
      var (after, reply) := Serve(mid, calls[|calls| - 1]);
      (after, replies + [reply])
  }

  /** One operation on a live group; an operation that fails must not have changed it. */
  method Perform(g: MlsGroup, call: Call) returns (reply: Reply)
    modifies g, g.tree
    ensures (g.ExportState(), reply) == Serve(old(g.ExportState()), call)
  {
    match call {
      case AddCall(kp, coins) =>
        var r := g.AddMember(kp, coins);
        reply := if r.Ok? then Added(r.value.0, r.value.1) else Failed(r.error);
      case CommitCall(c) =>
        var r := g.ApplyCommit(c);
        reply := if r.Ok? then Moved(g.epoch) else Failed(r.error);
      case RemoveCall(user, path) =>
        var r := g.RemoveMember(user, path);
        reply := if r.Ok? then Removed(r.value, g.epoch) else Failed(r.error);
      case EncryptCall(plaintext) =>
        var m := g.EncryptMessage(plaintext);
        reply := Encrypted(m);
      case DecryptCall(m) =>
        var r := g.DecryptMessage(m);
        reply := if r.Ok? then Decrypted(r.value, m.senderLeafIndex) else Failed(r.error);
    }
  }

  /** One exported call: load the stored state, operate, and hand back the state to store. A failed
      call hands back nothing, so the caller keeps the state it passed in. */
  method LoadOperateStore(stored: GroupState, call: Call) returns (after: GroupState, reply: Reply)
    ensures (after, reply) == Serve(stored, call)
  {
    var g := new MlsGroup.ImportState(stored);
    reply := Perform(g, call);
    after := if reply.Failed? then stored else g.ExportState();
  }

  /** Serving a call sequence by loading and storing around every call, and serving it on one group
      kept in memory, gives the same replies and ends in the same state, generation counter included. */
  method ServeBothWays(g: MlsGroup, calls: seq<Call>)
    returns (stored: GroupState, stateless: seq<Reply>, live: seq<Reply>)
    modifies g, g.tree
    ensures stateless == live && stored == g.ExportState()
    ensures (stored, live) == ServeAll(old(g.ExportState()), calls)
  {
    stored, stateless, live := g.ExportState(), [], [];
    for i := 0 to |calls|
      invariant (stored, stateless) == ServeAll(old(g.ExportState()), calls[..i])
      invariant (g.ExportState(), live) == ServeAll(old(g.ExportState()), calls[..i])
    {
      assert calls[..i + 1][..i] == calls[..i];
      var a, b := LoadOperateStore(stored, calls[i]);
      stored, stateless := a, stateless + [b];
      b := Perform(g, calls[i]);
      live := live + [b];
    }
    assert calls[..|calls|] == calls;
  }
}
