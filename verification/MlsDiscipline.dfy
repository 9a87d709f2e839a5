/** The conditions under which key and nonce never repeat are needed, each on its own: a run that
    breaks one of them once, and respects all of them otherwise, repeats key and nonce. */
module MlsDiscipline {
  import opened Bytes
  import opened Terms
  import opened KeySchedule
  import opened RatchetTree
  import opened Mls
  import opened MlsRuns
  import opened MlsNonces

  /** How many steps of a run are not orderly. */
  ghost function Breaches(s: System, acts: seq<Action>): nat
    requires s.members != []
  {
    if acts == [] then 0
    else
      var prefix, last := acts[..|acts| - 1], acts[|acts| - 1];
      Breaches(s, prefix) + if Orderly(Exec(s, prefix), last) then 0 else 1
  }

  lemma {:induction false} OrderlyMeansNoBreach(s: System, acts: seq<Action>)
    requires s.members != []
    ensures OrderlyRun(s, acts) <==> Breaches(s, acts) == 0
  {
    if acts == [] {
    } else {
      OrderlyMeansNoBreach(s, acts[..|acts| - 1]);
    }
  }

  /** Two messages of the run repeat key and nonce. */
  ghost predicate Repeats(s: System) {
    exists i, j | 0 <= i < j < |s.wire| :: !FreshUse(s.wire[i].message.body, s.wire[j].message.body)
  }

  /** The run repeats key and nonce although step `k` is the only one that is not orderly. */
  ghost predicate BreaksAt(o: Origin, run: seq<Action>, k: nat) {
    && k < |run| && !Orderly(Exec(Start(o), run[..k]), run[k])
    && Breaches(Start(o), run) == 1 && Repeats(Exec(Start(o), run))
  }

  // ---- runs, state by state ------------------------------------------------

  /** Step `i` leads from one state of the trace to the next, and is orderly unless it is step `k`. */
  ghost predicate Hop(run: seq<Action>, trace: seq<System>, k: nat, i: nat)
    requires i < |run| && i + 1 < |trace|
  {
    && trace[i].members != [] && trace[i + 1] == Step(trace[i], run[i])
    && (Orderly(trace[i], run[i]) <==> i != k)
  }

  /** The states of the first steps of a run of a new group, of which step `k` alone is not orderly. */
  ghost predicate Traces(o: Origin, run: seq<Action>, trace: seq<System>, k: nat) {
    && 0 < |trace| <= |run| + 1 && trace[0] == Start(o) && trace[|trace| - 1].members != []
    && forall i | 0 <= i < |trace| - 1 :: Hop(run, trace, k, i)
  }

  lemma {:induction false} HopOn(o: Origin, run: seq<Action>, trace: seq<System>, k: nat, r: System)
    requires Traces(o, run, trace, k) && |trace| <= |run|
    requires var (s, a) := (trace[|trace| - 1], run[|trace| - 1]);
             r == Step(s, a) && (Orderly(s, a) <==> |trace| - 1 != k)
    ensures Traces(o, run, trace + [r], k)
  {
    forall i | 0 <= i < |trace|
      ensures Hop(run, trace + [r], k, i)
    {
      assert i < |trace| - 1 ==> Hop(run, trace, k, i);
    }
  }

  lemma {:induction false} TraceIsExec(o: Origin, run: seq<Action>, trace: seq<System>, k: nat, i: nat)
    requires Traces(o, run, trace, k) && i < |trace|
    ensures Exec(Start(o), run[..i]) == trace[i] && Breaches(Start(o), run[..i]) == if k < i then 1 else 0
    decreases i
  {
    if i == 0 {
    } else {
      TraceIsExec(o, run, trace, k, i - 1);
      assert Hop(run, trace, k, i - 1);
      assert run[..i][..i - 1] == run[..i - 1];
    }
  }

  lemma {:induction false} MessagesMeet(s: System, a: nat, p: Str, b: nat, q: Str)
    requires a < |s.members| && b < |s.members| && a != b
    requires var (g, h) := (s.members[a].g, s.members[b].g);
             && g.applicationSecret == h.applicationSecret && g.messageGeneration == h.messageGeneration
             && g.myLeafIndex % U32 == h.myLeafIndex % U32
    ensures Repeats(Step(Step(s, Send(a, p)), Send(b, q)))
  {
    NextMessagesRepeatIff(s.members[a].g, s.members[b].g, p, q);
    var r := Step(Step(s, Send(a, p)), Send(b, q));
    assert r.wire[|s.wire|].message == EncryptMessage(s.members[a].g, p).1;
    assert r.wire[|s.wire| + 1].message == EncryptMessage(s.members[b].g, q).1;
  }

  lemma {:induction false} SameEpochSameSecret(o: Origin, run: seq<Action>, trace: seq<System>, k: nat, a: nat, b: nat)
    requires Traces(o, run, trace, k)
    requires var s := trace[|trace| - 1];
             |s.log| < U64 && a < |s.members| && b < |s.members| && s.members[a].g.epoch == s.members[b].g.epoch
    ensures var s := trace[|trace| - 1];
            s.members[a].g.applicationSecret == s.members[b].g.applicationSecret
  {
    var s := trace[|trace| - 1];
    TraceIsExec(o, run, trace, k, |trace| - 1);
    RunsAgree(o, run[..|trace| - 1]);
    assert InStep(o, s.log, s.members[a].g) && InStep(o, s.log, s.members[b].g);
  }

  /** A run that ends with the next messages of two members at one epoch, generation and slot. */
  lemma {:induction false} MembersMeet(
      o: Origin, run: seq<Action>, trace: seq<System>, k: nat, a: nat, p: Str, b: nat, q: Str)
    requires Traces(o, run, trace, k) && k + 1 < |trace| == |run| - 1
    requires run[|run| - 2] == Send(a, p) && run[|run| - 1] == Send(b, q)
    requires var s := trace[|trace| - 1];
             && |s.log| < U64 && a < |s.members| && b < |s.members| && a != b
             && s.members[a].sent < U32 && s.members[b].sent < U32
             && var (g, h) := (s.members[a].g, s.members[b].g);
             && g.epoch == h.epoch && g.messageGeneration == h.messageGeneration
             && g.myLeafIndex % U32 == h.myLeafIndex % U32
    ensures BreaksAt(o, run, k)
  {
    var s := trace[|trace| - 1];
    SameEpochSameSecret(o, run, trace, k, a, b);
    MessagesMeet(s, a, p, b, q);
    var mid := Step(s, Send(a, p));
    HopOn(o, run, trace, k, mid);
    var r := Step(mid, Send(b, q));
    HopOn(o, run, trace + [mid], k, r);
    TraceBreaks(o, run, trace + [mid] + [r], k);
  }

  lemma {:induction false} TraceBreaks(o: Origin, run: seq<Action>, trace: seq<System>, k: nat)
    requires Traces(o, run, trace, k) && k < |run| == |trace| - 1 && Repeats(trace[|run|])
    ensures BreaksAt(o, run, k)
  {
    TraceIsExec(o, run, trace, k, |run|);
    TraceIsExec(o, run, trace, k, k);
    assert run[..|run|] == run;
    assert Hop(run, trace, k, k);
  }

  // ---- what single steps do ------------------------------------------------

  /** A newcomer's package and the private keys it joins with. */
  datatype Guest = Guest(userId: Str, deviceId: Str, identity: SigningKey, hpke: Scalar, coins: AddCoins)

  function PackageOf(x: Guest): KeyPackage {
    NewKeyPackage(x.userId, x.deviceId, x.identity, x.hpke)
  }

  function LeafOf(x: Guest): Leaf {
    PackageLeaf(PackageOf(x))
  }

  function Invite(x: Guest): Action {
    Action.Add(PackageOf(x), x.coins)
  }

  function Accept(x: Guest, k: nat): Action {
    Join(k, x.identity, x.hpke)
  }

  /** The committer alone has moved, by one epoch, with this tree and effect. */
  ghost predicate Moves(s: System, r: System, tree: seq<Leaf>, effect: Effect) {
    && s.members != [] && |r.members| >= |s.members|
    && (forall m | 0 < m < |s.members| :: r.members[m] == s.members[m])
    && var (c, d) := (s.members[0], r.members[0]);
    && d.joinedAt == c.joinedAt && d.sent == 0 && d.g.messageGeneration == 0
    && d.g.epoch == Succ64(c.g.epoch) && d.g.myLeafIndex == c.g.myLeafIndex && d.g.tree == tree
    && r.effects == s.effects + [effect] && |r.log| == |s.log| + 1
    && r.log[..|s.log|] == s.log && r.log[|s.log|].epoch == d.g.epoch
  }

  /** A new member in this slot, which has sent nothing yet. */
  ghost predicate Seats(m: Member, slot: nat, epoch: nat) {
    m.joinedAt == epoch == m.g.epoch && m.g.myLeafIndex == slot && m.sent == 0 == m.g.messageGeneration
  }

  /** An add, the join that answers it, and a second join from the same Welcome. */
  lemma {:induction false} InviteThenAccept(s: System, x: Guest)
    requires s.members != []
    ensures var (slot, accept) := (FirstBlank(s.members[0].g.tree), Accept(x, |s.welcomes|));
            var r := Step(Step(s, Invite(x)), accept);
            && Moves(s, r, WithLeaf(s.members[0].g.tree, LeafOf(x)), Filled(slot, LeafOf(x)))
            && |r.members| == |s.members| + 1 && |r.welcomes| == |s.welcomes| + 1
            && Seats(r.members[|s.members|], slot, r.members[0].g.epoch)
            && !Orderly(r, accept)
            && Step(r, accept) == r.(members := r.members + [r.members[|s.members|]])
  {
    WelcomeRoundTrip(s.members[0].g, PackageOf(x), x.coins, x.identity, x.hpke);
  }

  /** The committer adds a guest, who joins. */
  lemma {:induction false} GuestJoins(o: Origin, run: seq<Action>, trace: seq<System>, k: nat, x: Guest)
      returns (next: seq<System>)
    requires Traces(o, run, trace, k) && |trace| + 1 <= |run| && k != |trace|
    requires var s := trace[|trace| - 1];
             && run[|trace| - 1] == Invite(x) && run[|trace|] == Accept(x, |s.welcomes|)
             && (FirstBlank(s.members[0].g.tree) < U32 <==> k != |trace| - 1)
             && forall m | 0 <= m < |s.members| :: s.members[m].joinedAt != Succ64(s.members[0].g.epoch)
    ensures Traces(o, run, next, k) && |next| == |trace| + 2
    ensures var (s, r) := (trace[|trace| - 1], next[|next| - 1]);
            var slot := FirstBlank(s.members[0].g.tree);
            && Moves(s, r, WithLeaf(s.members[0].g.tree, LeafOf(x)), Filled(slot, LeafOf(x)))
            && |r.members| == |s.members| + 1 && |r.welcomes| == |s.welcomes| + 1
            && Seats(r.members[|s.members|], slot, r.members[0].g.epoch)
            && !Orderly(r, run[|trace|])
            && Step(r, run[|trace|]) == r.(members := r.members + [r.members[|s.members|]])
  {
    var s := trace[|trace| - 1];
    InviteThenAccept(s, x);
    var mid := Step(s, Invite(x));
    HopOn(o, run, trace, k, mid);
    var r := Step(mid, Accept(x, |s.welcomes|));
    HopOn(o, run, trace + [mid], k, r);
    next := trace + [mid] + [r];
  }

  /** The committer removes a user. */
  lemma {:induction false} UserLeaves(
      o: Origin, run: seq<Action>, trace: seq<System>, k: nat, user: Str, path: Scalar, slot: nat)
      returns (r: System)
    requires Traces(o, run, trace, k) && |trace| <= |run|
    requires var s := trace[|trace| - 1];
             && run[|trace| - 1] == Remove(user, path) && FindByUser(s.members[0].g.tree, user) == Some(slot)
             && (slot == s.members[0].g.myLeafIndex <==> k == |trace| - 1)
    ensures Traces(o, run, trace + [r], k)
    ensures var s := trace[|trace| - 1];
            && Moves(s, r, Blanked(s.members[0].g.tree, slot), Emptied(slot))
            && |r.members| == |s.members| && r.welcomes == s.welcomes
  {
    r := Step(trace[|trace| - 1], Remove(user, path));
    HopOn(o, run, trace, k, r);
  }

  /** A member applies the commit that is next for it. */
  lemma {:induction false} MemberApplies(o: Origin, run: seq<Action>, trace: seq<System>, k: nat, m: nat)
      returns (r: System)
    requires Traces(o, run, trace, k) && |trace| <= |run|
    requires var s := trace[|trace| - 1];
             && m < |s.members|
             && var e := s.members[m].g.epoch;
             && run[|trace| - 1] == Deliver(m, e) && e < |s.log| && e < |s.effects| && s.log[e].epoch == e + 1
             && (s.effects[e] == Emptied(s.members[m].g.myLeafIndex) <==> k == |trace| - 1)
    ensures Traces(o, run, trace + [r], k)
    ensures var s := trace[|trace| - 1];
            && OnlyMember(s, r, m)
            && var (a, b) := (s.members[m], r.members[m]);
            && b.joinedAt == a.joinedAt && b.sent == 0 == b.g.messageGeneration && b.g.tree == a.g.tree
            && b.g.epoch == a.g.epoch + 1 && b.g.myLeafIndex == a.g.myLeafIndex
  {
    r := Step(trace[|trace| - 1], run[|trace| - 1]);
    HopOn(o, run, trace, k, r);
  }

  // ---- one breach is enough ------------------------------------------------

  /** The committer removes its own leaf: the next member it adds gets the leaf, and both meet. */
  lemma {:induction false} SelfRemovalRepeats(o: Origin, path: Scalar, x: Guest, p: Str, q: Str)
    ensures BreaksAt(o, [Remove(o.userId, path), Invite(x), Accept(x, 0), Send(0, p), Send(1, q)], 0)
  {
    var run := [Remove(o.userId, path), Invite(x), Accept(x, 0), Send(0, p), Send(1, q)];
    var s1 := UserLeaves(o, run, [Start(o)], 0, o.userId, path, 0);
    var trace := GuestJoins(o, run, [Start(o)] + [s1], 0, x);
    MembersMeet(o, run, trace, 0, 0, p, 1, q);
  }

  /** One Welcome makes two members: they sit in one leaf and meet. */
  lemma {:induction false} SecondJoinRepeats(o: Origin, x: Guest, p: Str, q: Str)
    ensures BreaksAt(o, [Invite(x), Accept(x, 0), Accept(x, 0), Send(1, p), Send(2, q)], 2)
  {
    var run := [Invite(x), Accept(x, 0), Accept(x, 0), Send(1, p), Send(2, q)];
    var trace := GuestJoins(o, run, [Start(o)], 2, x);
    var s := Step(trace[2], run[2]);
    HopOn(o, run, trace, 2, s);
    MembersMeet(o, run, trace + [s], 2, 1, p, 2, q);
  }

  /** A Welcome that can be opened makes two members at any point of any run: both repeat key and
      nonce with their first messages. */
  lemma {:induction false} WelcomeIsSingleUse(s: System, k: nat, identity: SigningKey, hpke: Scalar, p: Str, q: Str)
    requires s.members != [] && k < |s.welcomes| && FromWelcome(s.welcomes[k], identity, hpke).Ok?
    ensures var (n, join) := (|s.members|, Join(k, identity, hpke));
            var joined := Step(Step(s, join), join);
            && !Orderly(Step(s, join), join)
            && Repeats(Step(Step(joined, Send(n, p)), Send(n + 1, q)))
  {
    var (n, join) := (|s.members|, Join(k, identity, hpke));
    var one := Step(s, join);
    var joined := Step(one, join);
    assert one.members[n].joinedAt == FromWelcome(s.welcomes[k], identity, hpke).value.epoch;
    assert joined.members[n] == joined.members[n + 1];
    MessagesMeet(joined, n, p, n + 1, q);
  }

  lemma {:induction false} LeafOfGuest(first: Leaf, x: Guest)
    requires !first.isBlank && first.userId != x.userId
    ensures var tree := WithLeaf([first], PackageLeaf(PackageOf(x)));
            FindByUser(tree, x.userId) == Some(1) && FirstBlank(Blanked(tree, 1)) == 1
  {
    var tree := WithLeaf([first], PackageLeaf(PackageOf(x)));
    FirstBlankIs([first], 1);
    FindByUserIs(tree, x.userId, 1);
    FirstBlankIs(Blanked(tree, 1), 1);
  }

  /** A guest comes, is removed, and applies its own removal. */
  lemma {:induction false} GuestAppliesRemoval(o: Origin, run: seq<Action>, x: Guest, path: Scalar)
      returns (trace: seq<System>)
    requires x.userId != o.userId && |run| >= 4
    requires run[0] == Invite(x) && run[1] == Accept(x, 0)
    requires run[2] == Remove(x.userId, path) && run[3] == Deliver(1, 1)
    ensures Traces(o, run, trace, 3) && |trace| == 5
    ensures var s := trace[4];
            && |s.members| == 2 && |s.welcomes| == 1 && |s.log| == 2 == |s.effects|
            && s.members[0].joinedAt == 0 && s.members[0].g.epoch == 2 && FirstBlank(s.members[0].g.tree) == 1
            && s.members[1].joinedAt == 1 && s.members[1].g.epoch == 2 && s.members[1].g.myLeafIndex == 1
  {
    LeafOfGuest(Start(o).members[0].g.tree[0], x);
    var t := GuestJoins(o, run, [Start(o)], 3, x);
    var s2 := UserLeaves(o, run, t, 3, x.userId, path, 1);
    var s3 := MemberApplies(o, run, t + [s2], 3, 1);
    trace := t + [s2] + [s3];
  }

  lemma {:induction false} RemovedMemberMeets(
      o: Origin, run: seq<Action>, x: Guest, path: Scalar, y: Guest, p: Str, q: Str)
    requires x.userId != o.userId && |run| == 9
    requires run[0] == Invite(x) && run[1] == Accept(x, 0)
    requires run[2] == Remove(x.userId, path) && run[3] == Deliver(1, 1)
    requires run[4] == Invite(y) && run[5] == Accept(y, 1) && run[6] == Deliver(1, 2)
    requires run[7] == Send(1, p) && run[8] == Send(2, q)
    ensures BreaksAt(o, run, 3)
  {
    var t := GuestAppliesRemoval(o, run, x, path);
    t := GuestJoins(o, run, t, 3, y);
    var s := MemberApplies(o, run, t, 3, 1);
    MembersMeet(o, run, t + [s], 3, 1, p, 2, q);
  }

  /** A removed member applies its own removal: the next member gets its leaf, and both meet. */
  lemma {:induction false} OwnRemovalAppliedRepeats(o: Origin, x: Guest, path: Scalar, y: Guest, p: Str, q: Str)
    requires x.userId != o.userId
    ensures BreaksAt(o, [Invite(x), Accept(x, 0), Remove(x.userId, path), Deliver(1, 1), Invite(y), Accept(y, 1),
                         Deliver(1, 2), Send(1, p), Send(2, q)], 3)
  {
    RemovedMemberMeets(o, [Invite(x), Accept(x, 0), Remove(x.userId, path), Deliver(1, 1), Invite(y), Accept(y, 1),
                           Deliver(1, 2), Send(1, p), Send(2, q)], x, path, y, p, q);
  }

  // ---- the two limits of width ---------------------------------------------

  /** The creator alone, after `n` messages of its first epoch. */
  ghost predicate HasSent(o: Origin, s: System, p: Str, n: nat) {
    && |s.members| == 1 && s.members[0].sent == n == |s.wire| && n <= U32
    && s.members[0].g == Start(o).members[0].g.(messageGeneration := Wrap32(n))
    && (n > 0 ==> s.wire[0].message == EncryptMessage(Start(o).members[0].g, p).1)
  }

  lemma {:induction false} SendingTrace(o: Origin, run: seq<Action>, p: Str, n: nat) returns (trace: seq<System>)
    requires n <= U32 < |run| && forall i | 0 <= i <= U32 :: run[i] == Send(0, p)
    ensures Traces(o, run, trace, U32) && |trace| == n + 1 && HasSent(o, trace[n], p, n)
    decreases n
  {
    if n == 0 {
      trace := [Start(o)];
    } else {
      var t := SendingTrace(o, run, p, n - 1);
      var r := Step(t[n - 1], run[n - 1]);
      HopOn(o, run, t, U32, r);
      trace := t + [r];
    }
  }

  /** One message more than 2^32 in an epoch: the last meets the first. */
  lemma {:induction false} TooManyMessagesRepeat(o: Origin, p: Str)
    ensures BreaksAt(o, seq(U32 + 1, _ => Send(0, p)), U32)
  {
    var run := seq(U32 + 1, _ => Send(0, p));
    var t := SendingTrace(o, run, p, U32);
    var s := t[U32];
    var r := Step(s, run[U32]);
    HopOn(o, run, t, U32, r);
    NextMessagesRepeatIff(Start(o).members[0].g, s.members[0].g, p, p);
    assert !FreshUse(r.wire[0].message.body, r.wire[U32].message.body);
    TraceBreaks(o, run, t + [r], U32);
  }

  /** The creator alone, after adding `n` members that have not joined. */
  ghost predicate HasAdded(s: System, n: nat) {
    && |s.members| == 1 && |s.log| == |s.welcomes| == n && s.members[0].joinedAt == 0
    && var g := s.members[0].g;
    && g.epoch == n && g.myLeafIndex == 0 && |g.tree| == n + 1
    && forall i | 0 <= i <= n :: !g.tree[i].isBlank
  }

  lemma {:induction false} AddingStep(s: System, x: Guest, n: nat)
    requires HasAdded(s, n) && n < U32
    ensures HasAdded(Step(s, Invite(x)), n + 1) && FirstBlank(s.members[0].g.tree) == n + 1
  {
    FirstBlankIs(s.members[0].g.tree, n + 1);
  }

  lemma {:induction false} AddingTrace(o: Origin, run: seq<Action>, x: Guest, n: nat) returns (trace: seq<System>)
    requires n < U32 <= |run| && forall i | 0 <= i < U32 :: run[i] == Invite(x)
    ensures Traces(o, run, trace, U32 - 1) && |trace| == n + 1 && HasAdded(trace[n], n)
    decreases n
  {
    if n == 0 {
      trace := [Start(o)];
    } else {
      var t := AddingTrace(o, run, x, n - 1);
      AddingStep(t[n - 1], x, n - 1);
      var r := Step(t[n - 1], run[n - 1]);
      HopOn(o, run, t, U32 - 1, r);
      trace := t + [r];
    }
  }

  /** A leaf index past 32 bits: the member in leaf 2^32 meets the one in leaf 0. */
  lemma {:induction false} TooManyLeavesRepeat(o: Origin, x: Guest, p: Str, q: Str)
    ensures BreaksAt(o, seq(U32, _ => Invite(x)) + [Accept(x, U32 - 1), Send(0, p), Send(1, q)], U32 - 1)
  {
    var run := seq(U32, _ => Invite(x)) + [Accept(x, U32 - 1), Send(0, p), Send(1, q)];
    var t := AddingTrace(o, run, x, U32 - 1);
    AddingStep(t[U32 - 1], x, U32 - 1);
    t := GuestJoins(o, run, t, U32 - 1, x);
    MembersMeet(o, run, t, U32 - 1, 0, p, 1, q);
  }
}
