/** Over whole runs no message key meets the same nonce twice, although leaf slots are reused and
    generations restart at every epoch. */
module MlsNonces {
  import opened Bytes
  import opened Terms
  import opened KeySchedule
  import opened RatchetTree
  import opened Mls
  import opened MlsRuns

  /** The slots taken after the first `e` commits; the creator sits in slot 0. */
  ghost function Occupied(effects: seq<Effect>, e: nat): set<nat>
    requires e <= |effects|
  {
    if e == 0 then {0}
    else match effects[e - 1]
      case Filled(slot, _) => Occupied(effects, e - 1) + {slot}
      case Emptied(slot) => Occupied(effects, e - 1) - {slot}
  }

  lemma {:induction false} OccupiedExtends(effects: seq<Effect>, more: seq<Effect>, e: nat)
    requires e <= |effects|
    ensures Occupied(effects + more, e) == Occupied(effects, e)
  {
    if e == 0 {
    } else {
      OccupiedExtends(effects, more, e - 1);
    }
  }

  /** No commit from epoch `a` to epoch `b` emptied the slot. */
  ghost predicate Keeps(effects: seq<Effect>, slot: nat, a: nat, b: nat) {
    a <= b <= |effects| && forall k | a <= k < b :: effects[k] != Emptied(slot)
  }

  lemma {:induction false} KeptSlotStaysOccupied(effects: seq<Effect>, slot: nat, a: nat, b: nat)
    requires Keeps(effects, slot, a, b) && slot in Occupied(effects, a)
    ensures slot in Occupied(effects, b)
    decreases b
  {
    if a == b {
    } else {
      KeptSlotStaysOccupied(effects, slot, a, b - 1);
    }
  }

  // ---- the discipline of a run ---------------------------------------------

  /** What callers must respect: slots fit the 32 bits a nonce has for them, the committer does not
      remove its own leaf, a Welcome makes one member, a removed member does not apply its own
      removal, and nobody encrypts more than 2^32 times in an epoch. */
  ghost predicate Orderly(s: System, a: Action)
    requires s.members != []
  {
    match a
    case Add(kp, coins) => FirstBlank(s.members[0].g.tree) < U32
    case Remove(user, path) => FindByUser(s.members[0].g.tree, user) != Some(s.members[0].g.myLeafIndex)
    case Join(k, identity, hpke) =>
      k < |s.welcomes| ==>
        var joined := FromWelcome(s.welcomes[k], identity, hpke);
        joined.Ok? ==> forall m | 0 <= m < |s.members| :: s.members[m].joinedAt != joined.value.epoch
    case Deliver(m, i) =>
      m < |s.members| && i < |s.effects| && i == s.members[m].g.epoch ==>
        s.effects[i] != Emptied(s.members[m].g.myLeafIndex)
    case Send(m, plaintext) => m < |s.members| ==> s.members[m].sent < U32
  }

  ghost predicate OrderlyRun(s: System, acts: seq<Action>)
    requires s.members != []
  {
    acts != [] ==>
      && OrderlyRun(s, acts[..|acts| - 1])
      && Orderly(Exec(s, acts[..|acts| - 1]), acts[|acts| - 1])
  }

  // ---- what every orderly step keeps ---------------------------------------

  /** A member came in by the commit that filled its slot, and has applied none that emptied it. */
  ghost predicate Seated(effects: seq<Effect>, m: Member) {
    && m.g.myLeafIndex < U32
    && Keeps(effects, m.g.myLeafIndex, m.joinedAt, m.g.epoch)
    && (if m.joinedAt == 0 then m.g.myLeafIndex == 0
        else effects[m.joinedAt - 1].Filled? && effects[m.joinedAt - 1].slot == m.g.myLeafIndex)
  }

  ghost predicate Counted(m: Member) {
    m.sent <= U32 && m.g.messageGeneration == Wrap32(m.sent)
  }

  /** Slots are filled only when free. */
  ghost predicate Lawful(effects: seq<Effect>) {
    forall k | 0 <= k < |effects| && effects[k].Filled? ::
      effects[k].slot < U32 && effects[k].slot !in Occupied(effects, k)
  }

  ghost predicate TreeShows(tree: seq<Leaf>, slots: set<nat>) {
    forall l: nat :: l in slots <==> l < |tree| && !tree[l].isBlank
  }

  ghost predicate Slots(s: System) {
    && s.members != [] && Lawful(s.effects)
    && s.members[0].joinedAt == 0
    && TreeShows(s.members[0].g.tree, Occupied(s.effects, |s.effects|))
    && (forall m | 0 <= m < |s.members| :: Seated(s.effects, s.members[m]))
    && (forall m, n | 0 <= m < n < |s.members| :: s.members[m].joinedAt != s.members[n].joinedAt)
  }

  /** A message was sent during its sender's stay, and its generation is spent. */
  ghost predicate Spent(s: System, w: Sent) {
    && w.sender < |s.members|
    && var m := s.members[w.sender];
    && m.joinedAt <= w.message.epoch <= m.g.epoch
    && (w.message.epoch == m.g.epoch ==> w.message.generation < m.sent)
  }

  ghost predicate Generations(s: System) {
    && (forall m | 0 <= m < |s.members| :: Counted(s.members[m]))
    && (forall n | 0 <= n < |s.wire| :: Spent(s, s.wire[n]))
    && (forall i, j | 0 <= i < j < |s.wire| && s.wire[i].sender == s.wire[j].sender ::
          s.wire[i].message.epoch == s.wire[j].message.epoch ==>
            s.wire[i].message.generation != s.wire[j].message.generation)
  }

  lemma LawfulExtends(effects: seq<Effect>, effect: Effect)
    requires Lawful(effects)
    requires effect.Filled? ==> effect.slot < U32 && effect.slot !in Occupied(effects, |effects|)
    ensures Lawful(effects + [effect])
  {
    forall k | 0 <= k <= |effects|
      ensures Occupied(effects + [effect], k) == Occupied(effects, k)
    {
      OccupiedExtends(effects, [effect], k);
    }
  }

  lemma SeatedExtends(effects: seq<Effect>, effect: Effect, m: Member)
    requires Seated(effects, m)
    ensures Seated(effects + [effect], m)
  {
  }

  /** A commit keeps the seats: the committer moves over its own commit, the rest stay put. */
  lemma CommitKeepsSlots(s: System, g: GroupState, c: Commit, effect: Effect)
    requires Slots(s) && s.members[0].g.epoch == |s.effects|
    requires g.epoch == |s.effects| + 1 && g.myLeafIndex == s.members[0].g.myLeafIndex
    requires effect.Filled? ==> effect.slot < U32 && effect.slot !in Occupied(s.effects, |s.effects|)
    requires effect != Emptied(g.myLeafIndex)
    requires TreeShows(g.tree, Occupied(s.effects + [effect], |s.effects| + 1))
    ensures Slots(Committed(s, g, c, effect))
  {
    var r := Committed(s, g, c, effect);
    LawfulExtends(s.effects, effect);
    forall m | 0 <= m < |r.members|
      ensures Seated(r.effects, r.members[m])
    {
      SeatedExtends(s.effects, effect, s.members[m]);
    }
  }

  lemma {:induction false} FilledTreeShows(tree: seq<Leaf>, slots: set<nat>, leaf: Leaf)
    requires TreeShows(tree, slots) && !leaf.isBlank
    ensures FirstBlank(tree) !in slots && TreeShows(WithLeaf(tree, leaf), slots + {FirstBlank(tree)})
  {
  }

  lemma {:induction false} EmptiedTreeShows(tree: seq<Leaf>, slots: set<nat>, slot: nat)
    requires TreeShows(tree, slots)
    ensures TreeShows(Blanked(tree, slot), slots - {slot})
  {
  }

  lemma {:induction false} AddKeepsSlots(s: System, kp: KeyPackage, coins: AddCoins)
    requires Slots(s) && s.members[0].g.epoch == |s.effects| && |s.effects| + 1 < U64
    requires VerifyPackage(kp) && FirstBlank(s.members[0].g.tree) < U32
    ensures Slots(Step(s, Action.Add(kp, coins)))
  {
    var g := s.members[0].g;
    var slot := FirstBlank(g.tree);
    var effect := Filled(slot, PackageLeaf(kp));
    OccupiedExtends(s.effects, [effect], |s.effects|);
    FilledTreeShows(g.tree, Occupied(s.effects, |s.effects|), PackageLeaf(kp));
    var (after, out) := AddMember(g, kp, coins);
    assert after.tree == WithLeaf(g.tree, PackageLeaf(kp)) && after.epoch == |s.effects| + 1;
    CommitKeepsSlots(s, after, out.value.1, effect);
    var r := Committed(s, after, out.value.1, effect);
    var full := Step(s, Action.Add(kp, coins));
    assert full.members == r.members && full.effects == r.effects;
  }

  lemma {:induction false} RemoveKeepsSlots(s: System, user: Str, path: Scalar)
    requires Slots(s) && s.members[0].g.epoch == |s.effects| && |s.effects| + 1 < U64
    requires var found := FindByUser(s.members[0].g.tree, user);
             found.Some? && found.value != s.members[0].g.myLeafIndex
    ensures Slots(Step(s, Remove(user, path)))
  {
    var g := s.members[0].g;
    var slot := FindByUser(g.tree, user).value;
    OccupiedExtends(s.effects, [Emptied(slot)], |s.effects|);
    EmptiedTreeShows(g.tree, Occupied(s.effects, |s.effects|), slot);
    var (after, out) := RemoveMember(g, user, path);
    assert after.tree == Blanked(g.tree, slot) && after.epoch == |s.effects| + 1;
    CommitKeepsSlots(s, after, out.value, Emptied(slot));
  }

  lemma {:induction false} NewSeatKeepsSlots(s: System, m: Member)
    requires Slots(s) && Seated(s.effects, m)
    requires forall n | 0 <= n < |s.members| :: s.members[n].joinedAt != m.joinedAt
    ensures Slots(s.(members := s.members + [m]))
  {
    var r := s.(members := s.members + [m]);
    assert forall n | 0 <= n < |s.members| :: r.members[n] == s.members[n];
  }

  lemma {:induction false} JoinKeepsSlots(o: Origin, s: System, k: nat, identity: SigningKey, hpke: Scalar)
    requires Agreed(o, s) && Slots(s) && Orderly(s, Join(k, identity, hpke))
    ensures Slots(Step(s, Join(k, identity, hpke)))
  {
    if k < |s.welcomes| {
      assert WelcomeFits(o, s, s.welcomes[k]);
      var joined := FromWelcome(s.welcomes[k], identity, hpke);
      if joined.Ok? {
        NewSeatKeepsSlots(s, Member(joined.value, joined.value.epoch, 0));
      }
    }
  }

  /** One member moves on in its seat. */
  lemma {:induction false} SeatedMoveKeepsSlots(s: System, r: System, m: nat)
    requires Slots(s) && m < |s.members| == |r.members| && r.effects == s.effects
    requires forall n | 0 <= n < |s.members| && n != m :: r.members[n] == s.members[n]
    requires r.members[m].joinedAt == s.members[m].joinedAt && r.members[m].g.tree == s.members[m].g.tree
    requires Seated(s.effects, r.members[m])
    ensures Slots(r)
  {
  }

  lemma {:induction false} SeatOutlastsCommit(effects: seq<Effect>, m: Member, r: Member)
    requires Seated(effects, m) && m.g.epoch < |effects| && effects[m.g.epoch] != Emptied(m.g.myLeafIndex)
    requires r.joinedAt == m.joinedAt && r.g.myLeafIndex == m.g.myLeafIndex && r.g.epoch == m.g.epoch + 1
    ensures Seated(effects, r)
  {
  }

  lemma {:induction false} DeliverKeepsSlots(o: Origin, s: System, m: nat, i: nat)
    requires Agreed(o, s) && Slots(s) && Orderly(s, Deliver(m, i))
    ensures Slots(Step(s, Deliver(m, i)))
  {
    if m < |s.members| && i < |s.log| {
      DeliverMovesIffNext(o, s, m, i);
      if i == s.members[m].g.epoch {
        var r := Step(s, Deliver(m, i));
        SeatOutlastsCommit(s.effects, s.members[m], r.members[m]);
        SeatedMoveKeepsSlots(s, r, m);
      }
    }
  }

  lemma {:induction false} SeatOutlastsMessage(effects: seq<Effect>, m: Member, r: Member)
    requires Seated(effects, m)
    requires r.joinedAt == m.joinedAt && r.g.myLeafIndex == m.g.myLeafIndex && r.g.epoch == m.g.epoch
    ensures Seated(effects, r)
  {
  }

  lemma {:induction false} SendKeepsSlots(s: System, m: nat, plaintext: Str)
    requires Slots(s)
    ensures Slots(Step(s, Send(m, plaintext)))
  {
    if m < |s.members| {
      var r := Step(s, Send(m, plaintext));
      SeatOutlastsMessage(s.effects, s.members[m], r.members[m]);
      SeatedMoveKeepsSlots(s, r, m);
    }
  }

  lemma StepKeepsSlots(o: Origin, s: System, a: Action)
    requires Agreed(o, s) && Slots(s) && Orderly(s, a) && |Step(s, a).log| < U64
    ensures Slots(Step(s, a))
  {
    match a {
      case Add(kp, coins) => if VerifyPackage(kp) { AddKeepsSlots(s, kp, coins); }
      case Remove(user, path) =>
        if FindByUser(s.members[0].g.tree, user).Some? { RemoveKeepsSlots(s, user, path); }
      case Join(k, identity, hpke) => JoinKeepsSlots(o, s, k, identity, hpke);
      case Deliver(m, i) => DeliverKeepsSlots(o, s, m, i);
      case Send(m, plaintext) => SendKeepsSlots(s, m, plaintext);
    }
  }

  /** A step that sends nothing keeps the count, provided whoever moves starts a new epoch. */
  lemma MoveKeepsGenerations(s: System, r: System)
    requires Generations(s) && r.wire == s.wire && |r.members| >= |s.members|
    requires forall m | 0 <= m < |r.members| :: Counted(r.members[m])
    requires forall m | 0 <= m < |s.members| ::
               && r.members[m].joinedAt == s.members[m].joinedAt
               && (r.members[m] == s.members[m] || s.members[m].g.epoch < r.members[m].g.epoch)
    ensures Generations(r)
  {
    forall n | 0 <= n < |r.wire|
      ensures Spent(r, r.wire[n])
    {
      assert Spent(s, s.wire[n]);
    }
  }

  lemma SendKeepsGenerations(s: System, m: nat, plaintext: Str)
    requires s.members != [] && Generations(s) && m < |s.members| && s.members[m].sent < U32
    requires s.members[m].joinedAt <= s.members[m].g.epoch
    ensures Generations(Step(s, Send(m, plaintext)))
  {
    var r := Step(s, Send(m, plaintext));
    assert Counted(s.members[m]);
    var last := r.wire[|s.wire|];
    assert last.message.generation == s.members[m].sent && last.message.epoch == s.members[m].g.epoch;
    forall n | 0 <= n < |r.wire|
      ensures Spent(r, r.wire[n])
      ensures n < |s.wire| && r.wire[n].sender == m && r.wire[n].message.epoch == last.message.epoch ==>
                r.wire[n].message.generation != last.message.generation
    {
      if n < |s.wire| {
        assert r.wire[n] == s.wire[n] && Spent(s, s.wire[n]);
      }
    }
  }

  lemma CommitKeepsGenerations(s: System, g: GroupState, c: Commit, effect: Effect)
    requires s.members != [] && Generations(s) && s.members[0].g.epoch < g.epoch && g.messageGeneration == 0
    ensures Generations(Committed(s, g, c, effect))
  {
    MoveKeepsGenerations(s, Committed(s, g, c, effect));
  }

  lemma AddKeepsGenerations(o: Origin, s: System, kp: KeyPackage, coins: AddCoins)
    requires Agreed(o, s) && Generations(s) && |s.log| + 1 < U64 && VerifyPackage(kp)
    ensures Generations(Step(s, Action.Add(kp, coins)))
  {
    var (after, out) := AddMember(s.members[0].g, kp, coins);
    assert after.epoch == |s.log| + 1;
    var effect := Filled(FirstBlank(s.members[0].g.tree), PackageLeaf(kp));
    CommitKeepsGenerations(s, after, out.value.1, effect);
    var mid := Committed(s, after, out.value.1, effect);
    MoveKeepsGenerations(mid, Step(s, Action.Add(kp, coins)));
  }

  lemma RemoveKeepsGenerations(o: Origin, s: System, user: Str, path: Scalar)
    requires Agreed(o, s) && Generations(s) && |s.log| + 1 < U64
    requires FindByUser(s.members[0].g.tree, user).Some?
    ensures Generations(Step(s, Remove(user, path)))
  {
    var (after, out) := RemoveMember(s.members[0].g, user, path);
    assert after.epoch == |s.log| + 1;
    CommitKeepsGenerations(s, after, out.value, Emptied(FindByUser(s.members[0].g.tree, user).value));
  }

  lemma DeliverKeepsGenerations(o: Origin, s: System, m: nat, i: nat)
    requires Agreed(o, s) && Generations(s)
    ensures Generations(Step(s, Deliver(m, i)))
  {
    if m < |s.members| && i < |s.log| {
      DeliverMovesIffNext(o, s, m, i);
      if i == s.members[m].g.epoch {
        MoveKeepsGenerations(s, Step(s, Deliver(m, i)));
      }
    }
  }

  lemma JoinKeepsGenerations(s: System, k: nat, identity: SigningKey, hpke: Scalar)
    requires s.members != [] && Generations(s)
    ensures Generations(Step(s, Join(k, identity, hpke)))
  {
    MoveKeepsGenerations(s, Step(s, Join(k, identity, hpke)));
  }

  lemma StepKeepsGenerations(o: Origin, s: System, a: Action)
    requires Agreed(o, s) && Slots(s) && Generations(s) && Orderly(s, a) && |Step(s, a).log| < U64
    ensures Generations(Step(s, a))
  {
    match a {
      case Add(kp, coins) => if VerifyPackage(kp) { AddKeepsGenerations(o, s, kp, coins); }
      case Remove(user, path) =>
        if FindByUser(s.members[0].g.tree, user).Some? { RemoveKeepsGenerations(o, s, user, path); }
      case Join(k, identity, hpke) => JoinKeepsGenerations(s, k, identity, hpke);
      case Deliver(m, i) => DeliverKeepsGenerations(o, s, m, i);
      case Send(m, plaintext) =>
        if m < |s.members| {
          assert Seated(s.effects, s.members[m]);
          SendKeepsGenerations(s, m, plaintext);
        }
    }
  }

  lemma {:induction false} StartIsTidy(o: Origin)
    ensures Slots(Start(o)) && Generations(Start(o))
  {
    var s := Start(o);
    assert Seated(s.effects, s.members[0]);
    assert Occupied(s.effects, 0) == {0};
  }

  lemma {:induction false} OrderlyRunsStayTidy(o: Origin, acts: seq<Action>)
    requires OrderlyRun(Start(o), acts) && |Exec(Start(o), acts).log| < U64
    ensures var s := Exec(Start(o), acts);
            Agreed(o, s) && Slots(s) && Generations(s)
  {
    RunsAgree(o, acts);
    if acts == [] {
      StartIsTidy(o);
    } else {
      var (prefix, last) := (acts[..|acts| - 1], acts[|acts| - 1]);
      var before := Exec(Start(o), prefix);
      LogGrows(before, last);
      OrderlyRunsStayTidy(o, prefix);
      StepKeepsSlots(o, before, last);
      StepKeepsGenerations(o, before, last);
    }
  }

  // ---- the result ----------------------------------------------------------

  /** Two members that ever hold the same slot hold it in disjoint stretches of epochs: the later
      one came in after the earlier one's removal. */
  lemma SameSlotDisjointStays(effects: seq<Effect>, m: Member, n: Member)
    requires Lawful(effects) && Seated(effects, m) && Seated(effects, n)
    requires m.joinedAt < n.joinedAt && m.g.myLeafIndex == n.g.myLeafIndex
    ensures m.g.epoch < n.joinedAt
  {
    var slot := m.g.myLeafIndex;
    assert slot in Occupied(effects, m.joinedAt);
    assert slot !in Occupied(effects, n.joinedAt - 1);
    if n.joinedAt <= m.g.epoch {
      KeptSlotStaysOccupied(effects, slot, m.joinedAt, n.joinedAt - 1);
    }
  }

  /** At one epoch no two distinct messages carry the same slot and generation. */
  lemma SlotAndGenerationNameTheMessage(o: Origin, s: System, i: nat, j: nat)
    requires Agreed(o, s) && Slots(s) && Generations(s)
    requires i < j < |s.wire|
    requires s.wire[i].message.epoch == s.wire[j].message.epoch
    ensures s.wire[i].message.senderLeafIndex != s.wire[j].message.senderLeafIndex
         || s.wire[i].message.generation != s.wire[j].message.generation
  {
    assert MessageFits(o, s, s.wire[i]) && MessageFits(o, s, s.wire[j]);
    assert Spent(s, s.wire[i]) && Spent(s, s.wire[j]);
    var a, b := s.wire[i].sender, s.wire[j].sender;
    if a != b && s.members[a].g.myLeafIndex == s.members[b].g.myLeafIndex {
      var (m, n) := (s.members[a], s.members[b]);
      assert Seated(s.effects, m) && Seated(s.effects, n);
      assert m.joinedAt != n.joinedAt;
      if m.joinedAt < n.joinedAt {
        SameSlotDisjointStays(s.effects, m, n);
      } else {
        SameSlotDisjointStays(s.effects, n, m);
      }
    }
  }

  ghost predicate FreshUse(x: Sealed<Str>, y: Sealed<Str>) {
    x.Sealed? && y.Sealed? && (x.key != y.key || x.nonce != y.nonce)
  }

  /** The message was sealed with the key and nonce of its epoch, slot and generation. */
  ghost predicate Keyed(seed: nat, tags: seq<Str>, c: Ciphertext) {
    && c.epoch <= |tags| && c.body.Sealed?
    && c.body.key == MessageKey(AppAt(Fresh(seed), tags, c.epoch), c.generation)
    && c.body.nonce == MessageNonce(c.senderLeafIndex, c.generation)
  }

  lemma WireIsKeyed(o: Origin, s: System, i: nat)
    requires Agreed(o, s) && i < |s.wire|
    ensures Keyed(o.seed, Tags(s.log), s.wire[i].message)
  {
    assert MessageFits(o, s, s.wire[i]);
  }

  /** Messages of one history share key and nonce exactly when epoch, generation and the low 32 bits
      of the slot agree. */
  lemma RepeatIff(seed: nat, tags: seq<Str>, c: Ciphertext, d: Ciphertext)
    requires Keyed(seed, tags, c) && Keyed(seed, tags, d)
    ensures !FreshUse(c.body, d.body) <==>
            && c.epoch == d.epoch && c.generation == d.generation
            && c.senderLeafIndex % U32 == d.senderLeafIndex % U32
  {
    var (ac, ad) := (AppAt(Fresh(seed), tags, c.epoch), AppAt(Fresh(seed), tags, d.epoch));
    MessageKeyInjective(ac, c.generation, ad, d.generation);
    MessageNonceInjective(c.senderLeafIndex, c.generation, d.senderLeafIndex, d.generation);
    if c.epoch != d.epoch {
      EpochsNeverCollide(seed, tags, c.epoch, seed, tags, d.epoch);
    }
  }

  lemma {:induction false} BelowModulus(x: nat)
    requires x < U32
    ensures x % U32 == x
  {
  }

  lemma {:induction false} SeatedSlotIsWhole(o: Origin, s: System, i: nat)
    requires Agreed(o, s) && Slots(s) && i < |s.wire|
    ensures s.wire[i].message.senderLeafIndex % U32 == s.wire[i].message.senderLeafIndex
  {
    assert MessageFits(o, s, s.wire[i]);
    assert Seated(s.effects, s.members[s.wire[i].sender]);
    BelowModulus(s.wire[i].message.senderLeafIndex);
  }

  lemma TidyWireIsFresh(o: Origin, s: System, i: nat, j: nat)
    requires Agreed(o, s) && Slots(s) && Generations(s) && i < j < |s.wire|
    ensures FreshUse(s.wire[i].message.body, s.wire[j].message.body)
  {
    if !FreshUse(s.wire[i].message.body, s.wire[j].message.body) {
      WireIsKeyed(o, s, i);
      WireIsKeyed(o, s, j);
      RepeatIff(o.seed, Tags(s.log), s.wire[i].message, s.wire[j].message);
      SeatedSlotIsWhole(o, s, i);
      SeatedSlotIsWhole(o, s, j);
      SlotAndGenerationNameTheMessage(o, s, i, j);
    }
  }

  /** In every orderly run, no two encryptions by any members use the same key with the same nonce. */
  lemma KeyAndNonceNeverRepeat(o: Origin, acts: seq<Action>)
    requires OrderlyRun(Start(o), acts) && |Exec(Start(o), acts).log| < U64
    ensures var wire := Exec(Start(o), acts).wire;
            forall i, j | 0 <= i < j < |wire| :: FreshUse(wire[i].message.body, wire[j].message.body)
  {
    OrderlyRunsStayTidy(o, acts);
    var s := Exec(Start(o), acts);
    forall i, j | 0 <= i < j < |s.wire|
      ensures FreshUse(s.wire[i].message.body, s.wire[j].message.body)
    {
      TidyWireIsFresh(o, s, i, j);
    }
  }

  // ---- exactly when key and nonce meet again --------------------------------

  /** Two messages of any run, orderly or not, repeat key and nonce exactly when they agree in epoch,
      generation and the low 32 bits of the sender's slot. */
  lemma WireRepeatsIff(o: Origin, acts: seq<Action>, i: nat, j: nat)
    requires var s := Exec(Start(o), acts); |s.log| < U64 && i < |s.wire| && j < |s.wire|
    ensures var s := Exec(Start(o), acts);
            var (c, d) := (s.wire[i].message, s.wire[j].message);
            !FreshUse(c.body, d.body) <==>
            && c.epoch == d.epoch && c.generation == d.generation
            && c.senderLeafIndex % U32 == d.senderLeafIndex % U32
  {
    RunsAgree(o, acts);
    var s := Exec(Start(o), acts);
    WireIsKeyed(o, s, i);
    WireIsKeyed(o, s, j);
    RepeatIff(o.seed, Tags(s.log), s.wire[i].message, s.wire[j].message);
  }

  /** Two members' next messages repeat key and nonce exactly when both hold the same application
      secret, are at the same generation, and sit in slots that agree in their low 32 bits. */
  lemma NextMessagesRepeatIff(g: GroupState, h: GroupState, p: Str, q: Str)
    ensures !FreshUse(EncryptMessage(g, p).1.body, EncryptMessage(h, q).1.body) <==>
            && g.applicationSecret == h.applicationSecret && g.messageGeneration == h.messageGeneration
            && g.myLeafIndex % U32 == h.myLeafIndex % U32
  {
    MessageKeyInjective(g.applicationSecret, g.messageGeneration, h.applicationSecret, h.messageGeneration);
    MessageNonceInjective(g.myLeafIndex, g.messageGeneration, h.myLeafIndex, h.messageGeneration);
  }
}
