/** Whole runs of a group: one committing member, any number of joiners, and a network that
    reorders, repeats and loses commits. */
module MlsRuns {
  import opened Bytes
  import opened Terms
  import opened KeySchedule
  import opened RatchetTree
  import opened Mls

  /** A live instance, the epoch it came in at, and how often it has encrypted in its epoch. */
  datatype Member = Member(g: GroupState, joinedAt: nat, sent: nat)

  /** What a commit did to the committer's leaf array: the slot, and the leaf put there. */
  datatype Effect = Filled(slot: nat, leaf: Leaf) | Emptied(slot: nat)

  datatype Sent = Sent(sender: nat, message: Ciphertext, plaintext: Str)

  /** Member 0 is the creator and only committer; `log` is the linear log of its commits. */
  datatype System = System(
    members: seq<Member>, log: seq<Commit>, effects: seq<Effect>, welcomes: seq<Welcome>, wire: seq<Sent>)

  datatype Origin = Origin(groupId: Str, userId: Str, deviceId: Str, identity: SigningKey, hpke: Scalar, seed: nat)

  datatype Action =
    | Add(kp: KeyPackage, coins: AddCoins)
    | Remove(user: Str, path: Scalar)
    | Join(welcome: nat, identity: SigningKey, hpke: Scalar)
    | Deliver(member: nat, commit: nat)
    | Send(member: nat, plaintext: Str)

  function Start(o: Origin): System {
    System([Member(Create(o.groupId, o.userId, o.deviceId, o.identity, o.hpke, o.seed), 0, 0)], [], [], [], [])
  }

  function Committed(s: System, g: GroupState, c: Commit, effect: Effect): System
    requires s.members != []
  {
    s.(members := s.members[0 := s.members[0].(g := g, sent := 0)], log := s.log + [c], effects := s.effects + [effect])
  }

  /** One step. A step whose operation fails, or that names nothing, changes nothing. */
  function Step(s: System, a: Action): (r: System)
    requires s.members != []
    ensures r.members != []
  {
    match a
    case Add(kp, coins) =>
      var g := s.members[0].g;
      (match AddMember(g, kp, coins)
       case (after, Ok(out)) =>
         Committed(s, after, out.1, Filled(FirstBlank(g.tree), PackageLeaf(kp))).(welcomes := s.welcomes + [out.0])
       case (_, Err(_)) => s)
    case Remove(user, path) =>
      var g := s.members[0].g;
      (match RemoveMember(g, user, path)
       case (after, Ok(c)) => Committed(s, after, c, Emptied(FindByUser(g.tree, user).value))
       case (_, Err(_)) => s)
    case Join(k, identity, hpke) =>
      if k >= |s.welcomes| then s
      else
        (match FromWelcome(s.welcomes[k], identity, hpke)
         case Ok(g) => s.(members := s.members + [Member(g, g.epoch, 0)])
         case Err(_) => s)
    case Deliver(m, i) =>
      if m >= |s.members| || i >= |s.log| then s
      else
        (match ApplyCommit(s.members[m].g, s.log[i])
         case (after, Ok(_)) => s.(members := s.members[m := s.members[m].(g := after, sent := 0)])
         case (_, Err(_)) => s)
    case Send(m, plaintext) =>
      if m >= |s.members| then s
      else
        var (after, c) := EncryptMessage(s.members[m].g, plaintext);
        s.(members := s.members[m := s.members[m].(g := after, sent := s.members[m].sent + 1)],
           wire := s.wire + [Sent(m, c, plaintext)])
  }

  function Exec(s: System, acts: seq<Action>): (r: System)
    requires s.members != []
    ensures r.members != []
  {
    if acts == [] then s else Step(Exec(s, acts[..|acts| - 1]), acts[|acts| - 1])
  }

  function Tags(log: seq<Commit>): (t: seq<Str>)
    ensures |t| == |log|
    ensures forall i | 0 <= i < |log| :: t[i] == log[i].commitTag
  {
    seq(|log|, i requires 0 <= i < |log| => log[i].commitTag)
  }

  // ---- agreement -----------------------------------------------------------

  /** The epoch and both secrets are the fold of the log prefix whose length is the epoch. */
  ghost predicate InStep(o: Origin, log: seq<Commit>, g: GroupState) {
    && |log| < U64 && g.epoch <= |log| && g.groupId == o.groupId
    && g.epochSecret == SecretAt(Fresh(o.seed), Tags(log), g.epoch)
    && g.applicationSecret == AppAt(Fresh(o.seed), Tags(log), g.epoch)
  }

  /** A Welcome carries the fold at the epoch of the add that made it. */
  ghost predicate WelcomeFits(o: Origin, s: System, w: Welcome) {
    && |s.log| < U64 && |s.effects| == |s.log|
    && w.groupId == o.groupId && w.secrets.GroupSecrets? && w.secrets.body.Sealed?
    && var p := w.secrets.body.plain;
    && p.Payload? && 0 < p.epoch <= |s.log|
    && var effect := s.effects[p.epoch - 1];
    && effect.Filled? && effect.slot == p.leafIndex
    && p.epochSecret == SecretAt(Fresh(o.seed), Tags(s.log), p.epoch)
    && p.applicationSecret == AppAt(Fresh(o.seed), Tags(s.log), p.epoch)
  }

  ghost predicate MessageFits(o: Origin, s: System, m: Sent) {
    && |s.log| < U64 && m.sender < |s.members|
    && var c := m.message;
    && c.epoch <= s.members[m.sender].g.epoch && c.epoch <= |s.log|
    && c.senderLeafIndex == s.members[m.sender].g.myLeafIndex
    && c == Envelope(o.groupId, c.epoch, c.senderLeafIndex, c.generation,
                     AppAt(Fresh(o.seed), Tags(s.log), c.epoch), m.plaintext)
  }

  ghost predicate Agreed(o: Origin, s: System) {
    && |s.log| < U64 && |s.effects| == |s.log|
    && s.members != [] && s.members[0].g.epoch == |s.log|
    && (forall i | 0 <= i < |s.log| :: s.log[i].epoch == i + 1)
    && (forall m | 0 <= m < |s.members| :: InStep(o, s.log, s.members[m].g))
    && (forall k | 0 <= k < |s.welcomes| :: WelcomeFits(o, s, s.welcomes[k]))
    && (forall n | 0 <= n < |s.wire| :: MessageFits(o, s, s.wire[n]))
  }

  lemma FoldExtends(o: Origin, log: seq<Commit>, c: Commit, e: nat)
    requires e <= |log| && |log| + 1 < U64
    ensures SecretAt(Fresh(o.seed), Tags(log + [c]), e) == SecretAt(Fresh(o.seed), Tags(log), e)
    ensures AppAt(Fresh(o.seed), Tags(log + [c]), e) == AppAt(Fresh(o.seed), Tags(log), e)
  {
    assert Tags(log + [c]) == Tags(log) + [c.commitTag];
    HistoryExtends(Fresh(o.seed), Tags(log), [c.commitTag], e);
  }

  lemma InStepExtends(o: Origin, log: seq<Commit>, c: Commit, g: GroupState)
    requires InStep(o, log, g) && |log| + 1 < U64
    ensures InStep(o, log + [c], g)
  {
    FoldExtends(o, log, c, g.epoch);
  }

  /** The new state extends the log by one commit and moves no other member back. */
  ghost predicate Extends(s: System, r: System, c: Commit) {
    && |s.log| + 1 < U64 && r.log == s.log + [c] && |s.effects| == |s.log| && |r.effects| == |r.log|
    && s.effects <= r.effects && r.wire == s.wire && |r.members| == |s.members|
    && forall m | 0 <= m < |s.members| ::
         s.members[m].g.epoch <= r.members[m].g.epoch && r.members[m].g.myLeafIndex == s.members[m].g.myLeafIndex
  }

  lemma WelcomeExtends(o: Origin, s: System, r: System, c: Commit, w: Welcome)
    requires Extends(s, r, c) && WelcomeFits(o, s, w)
    ensures WelcomeFits(o, r, w)
  {
    FoldExtends(o, s.log, c, w.secrets.body.plain.epoch);
  }

  lemma MessageExtends(o: Origin, s: System, r: System, c: Commit, m: Sent)
    requires Extends(s, r, c) && MessageFits(o, s, m)
    ensures MessageFits(o, r, m)
  {
    FoldExtends(o, s.log, c, m.message.epoch);
  }

  lemma TagsOneMore(log: seq<Commit>, c: Commit)
    ensures Tags(log + [c]) == Tags(log) + [c.commitTag]
  {
  }

  lemma {:induction false} CommitterInStep(o: Origin, log: seq<Commit>, c: Commit, g: GroupState)
    requires |log| + 1 < U64 && c.commitTag != [] && g.groupId == o.groupId
    requires g.epochSecret == SecretAt(Fresh(o.seed), Tags(log), |log|)
    ensures InStep(o, log + [c], Advanced(g, |log| + 1, c.commitTag))
  {
    TagsOneMore(log, c);
    FoldStep(Fresh(o.seed), Tags(log), c.commitTag);
  }

  /** A commit by the member at the head of the log keeps every old fact and moves only it. */
  lemma CommitKeepsAgreement(o: Origin, s: System, g: GroupState, tag: Str, path: Scalar, effect: Effect)
    requires Agreed(o, s) && |s.log| + 1 < U64
    requires tag != [] && g.groupId == o.groupId && g.myLeafIndex == s.members[0].g.myLeafIndex
    requires g.epoch == |s.log| && g.epochSecret == s.members[0].g.epochSecret
    ensures var after := Advanced(g, Succ64(g.epoch), tag);
            Agreed(o, Committed(s, after, CommitOf(after, tag, path), effect))
  {
    var after := Advanced(g, Succ64(g.epoch), tag);
    var c := CommitOf(after, tag, path);
    var r := Committed(s, after, c, effect);
    assert InStep(o, s.log, s.members[0].g);
    CommitterInStep(o, s.log, c, g);
    assert Extends(s, r, c);
    forall m | 0 <= m < |r.members|
      ensures InStep(o, r.log, r.members[m].g)
    {
      if m > 0 {
        InStepExtends(o, s.log, c, s.members[m].g);
      }
    }
    forall k | 0 <= k < |r.welcomes|
      ensures WelcomeFits(o, r, r.welcomes[k])
    {
      WelcomeExtends(o, s, r, c, s.welcomes[k]);
    }
    forall k | 0 <= k < |r.wire|
      ensures MessageFits(o, r, r.wire[k])
    {
      MessageExtends(o, s, r, c, s.wire[k]);
    }
  }

  lemma AddKeepsAgreement(o: Origin, s: System, kp: KeyPackage, coins: AddCoins)
    requires Agreed(o, s) && |s.log| + 1 < U64
    ensures Agreed(o, Step(s, Action.Add(kp, coins)))
  {
    if VerifyPackage(kp) {
      var g := s.members[0].g;
      assert InStep(o, s.log, g);
      var grown := g.(tree := WithLeaf(g.tree, PackageLeaf(kp)));
      var effect := Filled(FirstBlank(g.tree), PackageLeaf(kp));
      CommitKeepsAgreement(o, s, grown, ADD_TAG, coins.path, effect);
      var after := Advanced(grown, Succ64(g.epoch), ADD_TAG);
      var r := Committed(s, after, CommitOf(after, ADD_TAG, coins.path), effect);
      assert Agreed(o, r) && InStep(o, r.log, r.members[0].g);
      var w := WelcomeFor(after, FirstBlank(g.tree), kp.hpkePublicKey, coins);
      var full := r.(welcomes := s.welcomes + [w]);
      assert WelcomeFits(o, full, w);
      forall k | 0 <= k < |full.welcomes|
        ensures WelcomeFits(o, full, full.welcomes[k])
      {
        if k < |s.welcomes| {
          assert WelcomeFits(o, r, r.welcomes[k]);
        }
      }
      forall k | 0 <= k < |full.wire|
        ensures MessageFits(o, full, full.wire[k])
      {
        assert MessageFits(o, r, r.wire[k]);
      }
      assert Step(s, Action.Add(kp, coins)) == full;
    }
  }

  lemma RemoveKeepsAgreement(o: Origin, s: System, user: Str, path: Scalar)
    requires Agreed(o, s) && |s.log| + 1 < U64
    ensures Agreed(o, Step(s, Remove(user, path)))
  {
    var g := s.members[0].g;
    var found := FindByUser(g.tree, user);
    if found.Some? {
      assert InStep(o, s.log, g);
      CommitKeepsAgreement(o, s, g.(tree := Blanked(g.tree, found.value)), REMOVE_TAG, path, Emptied(found.value));
    }
  }

  /** Replacing members, without touching log or leaf positions or going back in epoch. */
  lemma MembersKeepAgreement(o: Origin, s: System, r: System)
    requires Agreed(o, s)
    requires r == s.(members := r.members) && |r.members| >= |s.members|
    requires r.members[0].g.epoch == |s.log|
    requires forall m | 0 <= m < |r.members| :: InStep(o, s.log, r.members[m].g)
    requires forall m | 0 <= m < |s.members| ::
               s.members[m].g.epoch <= r.members[m].g.epoch && r.members[m].g.myLeafIndex == s.members[m].g.myLeafIndex
    ensures Agreed(o, r)
  {
    forall k | 0 <= k < |r.welcomes|
      ensures WelcomeFits(o, r, r.welcomes[k])
    {
      assert WelcomeFits(o, s, s.welcomes[k]);
    }
    forall k | 0 <= k < |r.wire|
      ensures MessageFits(o, r, r.wire[k])
    {
      assert MessageFits(o, s, s.wire[k]);
    }
  }

  lemma JoinKeepsAgreement(o: Origin, s: System, k: nat, identity: SigningKey, hpke: Scalar)
    requires Agreed(o, s)
    ensures Agreed(o, Step(s, Join(k, identity, hpke)))
  {
    if k < |s.welcomes| {
      assert WelcomeFits(o, s, s.welcomes[k]);
      MembersKeepAgreement(o, s, Step(s, Join(k, identity, hpke)));
    }
  }

  /** The two states differ in member `m` alone. */
  ghost predicate OnlyMember(s: System, r: System, m: nat) {
    && m < |s.members| == |r.members| && r == s.(members := r.members)
    && forall n | 0 <= n < |s.members| && n != m :: r.members[n] == s.members[n]
  }

  /** A commit of the log is refused unless it is the next one, and then continues the fold. */
  lemma CommitContinuesFold(o: Origin, log: seq<Commit>, g: GroupState, i: nat)
    requires InStep(o, log, g) && i < |log| && log[i].epoch == i + 1
    ensures var (after, out) := ApplyCommit(g, log[i]);
            && (out.Ok? <==> i == g.epoch)
            && (out.Ok? ==> after.epoch == i + 1 && InStep(o, log, after))
            && after.tree == g.tree && after.myLeafIndex == g.myLeafIndex
  {
    if g.epoch < |log| {
      assert Succ64(g.epoch) == g.epoch + 1;
    } else {
      assert Succ64(g.epoch) != i + 1;
    }
  }

  /** A commit moves a member exactly when it is the next one for it; anything stale or early
      changes nothing. Applied, it lands the member on the fold one further on. */
  lemma DeliverMovesIffNext(o: Origin, s: System, m: nat, i: nat)
    requires Agreed(o, s) && m < |s.members| && i < |s.log|
    ensures var r := Step(s, Deliver(m, i));
            && (i != s.members[m].g.epoch ==> r == s)
            && (i == s.members[m].g.epoch ==>
                  && OnlyMember(s, r, m)
                  && r.members[m].g.epoch == i + 1 && InStep(o, s.log, r.members[m].g)
                  && r.members[m].g.tree == s.members[m].g.tree
                  && r.members[m].g.myLeafIndex == s.members[m].g.myLeafIndex)
  {
    assert InStep(o, s.log, s.members[m].g);
    CommitContinuesFold(o, s.log, s.members[m].g, i);
  }

  lemma DeliverKeepsAgreement(o: Origin, s: System, m: nat, i: nat)
    requires Agreed(o, s)
    ensures Agreed(o, Step(s, Deliver(m, i)))
  {
    if m < |s.members| && i < |s.log| {
      DeliverMovesIffNext(o, s, m, i);
      if i == s.members[m].g.epoch {
        MembersKeepAgreement(o, s, Step(s, Deliver(m, i)));
      }
    }
  }

  lemma SendKeepsAgreement(o: Origin, s: System, m: nat, plaintext: Str)
    requires Agreed(o, s)
    ensures Agreed(o, Step(s, Send(m, plaintext)))
  {
    if m < |s.members| {
      var r := Step(s, Send(m, plaintext));
      assert InStep(o, s.log, s.members[m].g);
      MembersKeepAgreement(o, s, s.(members := r.members));
      forall k | 0 <= k < |r.wire|
        ensures MessageFits(o, r, r.wire[k])
      {
        if k < |s.wire| {
          assert MessageFits(o, s, s.wire[k]);
        }
      }
      forall k | 0 <= k < |r.welcomes|
        ensures WelcomeFits(o, r, r.welcomes[k])
      {
        assert WelcomeFits(o, s, s.welcomes[k]);
      }
    }
  }

  lemma StepKeepsAgreement(o: Origin, s: System, a: Action)
    requires Agreed(o, s) && |Step(s, a).log| < U64
    ensures Agreed(o, Step(s, a))
  {
    match a {
      case Add(kp, coins) => if VerifyPackage(kp) { AddKeepsAgreement(o, s, kp, coins); }
      case Remove(user, path) =>
        if FindByUser(s.members[0].g.tree, user).Some? { RemoveKeepsAgreement(o, s, user, path); }
      case Join(k, identity, hpke) => JoinKeepsAgreement(o, s, k, identity, hpke);
      case Deliver(m, i) => DeliverKeepsAgreement(o, s, m, i);
      case Send(m, plaintext) => SendKeepsAgreement(o, s, m, plaintext);
    }
  }

  lemma {:induction false} LogGrows(s: System, a: Action)
    requires s.members != []
    ensures |s.log| <= |Step(s, a).log|
  {
  }

  /** In every run, under any delivery of commits, every member, Welcome and message is at the
      fold of the log prefix its epoch names. */
  lemma {:induction false} RunsAgree(o: Origin, acts: seq<Action>)
    requires |Exec(Start(o), acts).log| < U64
    ensures Agreed(o, Exec(Start(o), acts))
  {
    if acts == [] {
    } else {
      var before := Exec(Start(o), acts[..|acts| - 1]);
      LogGrows(before, acts[|acts| - 1]);
      RunsAgree(o, acts[..|acts| - 1]);
      StepKeepsAgreement(o, before, acts[|acts| - 1]);
    }
  }

  /** The state after handing member `m` the commits from `first` up to `last`, in order. */
  function InOrder(s: System, m: nat, first: nat, last: nat): (r: System)
    requires s.members != []
    ensures r.members != []
    decreases last
  {
    if last <= first then s else Step(InOrder(s, m, first, last - 1), Deliver(m, last - 1))
  }

  /** Member `m` alone has moved, to epoch `e`. */
  ghost predicate Reached(o: Origin, s: System, r: System, m: nat, e: nat) {
    Agreed(o, r) && OnlyMember(s, r, m) && r.members[m].g.epoch == e
  }

  lemma CatchUpStep(o: Origin, s: System, mid: System, m: nat, e: nat)
    requires Reached(o, s, mid, m, e) && e < |s.log|
    ensures Reached(o, s, Step(mid, Deliver(m, e)), m, e + 1)
  {
    DeliverMovesIffNext(o, mid, m, e);
    DeliverKeepsAgreement(o, mid, m, e);
  }

  /** From any agreed state, delivering the missing commits in order moves a member to any later
      epoch of the log and touches nobody else. */
  lemma {:induction false} CatchUpReaches(o: Origin, s: System, m: nat, last: nat)
    requires Agreed(o, s) && m < |s.members| && s.members[m].g.epoch <= last <= |s.log|
    ensures Reached(o, s, InOrder(s, m, s.members[m].g.epoch, last), m, last)
    decreases last
  {
    var first := s.members[m].g.epoch;
    if first == last {
    } else {
      CatchUpReaches(o, s, m, last - 1);
      CatchUpStep(o, s, InOrder(s, m, first, last - 1), m, last - 1);
    }
  }

  /** In-order delivery of the missing commits brings any member to the committer's secrets. */
  lemma MissingCommitsCatchUp(o: Origin, acts: seq<Action>, m: nat)
    requires var s := Exec(Start(o), acts); |s.log| < U64 && m < |s.members|
    ensures var s := Exec(Start(o), acts);
            s.members[m].g.epoch <= |s.log|
            && var r := InOrder(s, m, s.members[m].g.epoch, |s.log|);
            && OnlyMember(s, r, m) && r.members[m].g.epoch == s.members[0].g.epoch
            && r.members[m].g.epochSecret == s.members[0].g.epochSecret
            && r.members[m].g.applicationSecret == s.members[0].g.applicationSecret
  {
    RunsAgree(o, acts);
    var s := Exec(Start(o), acts);
    assert InStep(o, s.log, s.members[m].g) && InStep(o, s.log, s.members[0].g);
    CatchUpReaches(o, s, m, |s.log|);
    var r := InOrder(s, m, s.members[m].g.epoch, |s.log|);
    assert InStep(o, r.log, r.members[m].g);
  }

  /** In every run, a member reads a message exactly when it is at the message's epoch, in any
      order and any number of times, and refuses it by epoch otherwise. */
  lemma EveryMessageReadable(o: Origin, acts: seq<Action>, m: nat, n: nat)
    requires var s := Exec(Start(o), acts);
             |s.log| < U64 && m < |s.members| && n < |s.wire|
    ensures var s := Exec(Start(o), acts);
            var (g, c) := (s.members[m].g, s.wire[n].message);
            DecryptMessage(g, c) ==
            if g.epoch == c.epoch then Ok(s.wire[n].plaintext) else Err(InvalidEpoch(g.epoch, c.epoch))
  {
    RunsAgree(o, acts);
    var s := Exec(Start(o), acts);
    assert MessageFits(o, s, s.wire[n]);
    assert InStep(o, s.log, s.members[m].g);
  }
}
