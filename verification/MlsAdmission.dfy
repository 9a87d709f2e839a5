/** Who gets into a group: over whole runs, every leaf holds a package its identity key signed, and
    every member that joined holds the private half of the key in its leaf. */
module MlsAdmission {
  import opened Bytes
  import opened Terms
  import opened KeySchedule
  import opened RatchetTree
  import opened Mls
  import opened MlsRuns

  /** The action adds a package with this leaf, signed by the leaf's identity key. */
  ghost predicate Admits(a: Action, leaf: Leaf) {
    && a.Add?
    && leaf == Leaf(a.kp.userId, a.kp.deviceId, a.kp.identityKey, a.kp.hpkePublicKey, false)
    && a.kp.signature == Signed(leaf.identityKey.of,
                                Octets(leaf.userId) + Octets(leaf.deviceId) + [Point(leaf.publicKey)])
  }

  ghost predicate Admitted(acts: seq<Action>, leaf: Leaf) {
    exists a :: a in acts && Admits(a, leaf)
  }

  ghost predicate Founder(o: Origin, leaf: Leaf) {
    leaf == Leaf(o.userId, o.deviceId, VerifyingKey(o.identity), PublicKey(o.hpke), false)
  }

  /** Every occupied leaf is the creator's or an admitted one. */
  ghost predicate Vetted(o: Origin, acts: seq<Action>, tree: seq<Leaf>) {
    forall i | 0 <= i < |tree| && !tree[i].isBlank :: Founder(o, tree[i]) || Admitted(acts, tree[i])
  }

  /** A Welcome names an admitted leaf, and is sealed for the key in that leaf. */
  ghost predicate WelcomeVetted(o: Origin, acts: seq<Action>, w: Welcome) {
    && Vetted(o, acts, w.tree) && w.secrets.GroupSecrets? && w.secrets.body.Sealed?
    && var p := w.secrets.body.plain;
    && p.Payload? && p.leafIndex < |w.tree| && Admitted(acts, w.tree[p.leafIndex])
    && w.secrets.body.key ==
       WelcomeKey(DiffieHellmanOf(w.secrets.ephemeral.of, w.tree[p.leafIndex].publicKey.of))
  }

  /** A member that joined sits in an admitted leaf and holds its private key. */
  ghost predicate Entitled(acts: seq<Action>, g: GroupState) {
    && g.myLeafIndex < |g.tree| && Admitted(acts, g.tree[g.myLeafIndex])
    && g.tree[g.myLeafIndex].publicKey == PublicKey(g.myHpkeSecret)
  }

  ghost predicate Guarded(o: Origin, acts: seq<Action>, s: System) {
    && s.members != []
    && (forall m | 0 <= m < |s.members| :: Vetted(o, acts, s.members[m].g.tree))
    && (forall m | 0 < m < |s.members| :: Entitled(acts, s.members[m].g))
    && (forall k | 0 <= k < |s.welcomes| :: WelcomeVetted(o, acts, s.welcomes[k]))
    && (forall i | 0 <= i < |s.effects| && s.effects[i].Filled? :: Admitted(acts, s.effects[i].leaf))
  }

  lemma {:induction false} AdmittedStays(acts: seq<Action>, a: Action, leaf: Leaf)
    requires Admitted(acts, leaf)
    ensures Admitted(acts + [a], leaf)
  {
    var b :| b in acts && Admits(b, leaf);
    assert b in acts + [a];
  }

  lemma {:induction false} VettedStays(o: Origin, acts: seq<Action>, a: Action, tree: seq<Leaf>)
    requires Vetted(o, acts, tree)
    ensures Vetted(o, acts + [a], tree)
  {
    forall i | 0 <= i < |tree| && !tree[i].isBlank && Admitted(acts, tree[i])
      ensures Admitted(acts + [a], tree[i])
    {
      AdmittedStays(acts, a, tree[i]);
    }
  }

  lemma {:induction false} GuardedStays(o: Origin, acts: seq<Action>, a: Action, s: System)
    requires Guarded(o, acts, s)
    ensures Guarded(o, acts + [a], s)
  {
    forall m | 0 <= m < |s.members|
      ensures Vetted(o, acts + [a], s.members[m].g.tree)
      ensures m > 0 ==> Entitled(acts + [a], s.members[m].g)
    {
      VettedStays(o, acts, a, s.members[m].g.tree);
      if m > 0 {
        AdmittedStays(acts, a, s.members[m].g.tree[s.members[m].g.myLeafIndex]);
      }
    }
    forall k | 0 <= k < |s.welcomes|
      ensures WelcomeVetted(o, acts + [a], s.welcomes[k])
    {
      var w := s.welcomes[k];
      assert WelcomeVetted(o, acts, w);
      VettedStays(o, acts, a, w.tree);
      AdmittedStays(acts, a, w.tree[w.secrets.body.plain.leafIndex]);
    }
    forall i | 0 <= i < |s.effects| && s.effects[i].Filled?
      ensures Admitted(acts + [a], s.effects[i].leaf)
    {
      AdmittedStays(acts, a, s.effects[i].leaf);
    }
  }

  lemma {:induction false} WelcomeKeyInLeaf(
      o: Origin, acts: seq<Action>, w: Welcome, identity: SigningKey, hpke: Scalar)
    requires WelcomeVetted(o, acts, w) && FromWelcome(w, identity, hpke).Ok?
    ensures Entitled(acts, FromWelcome(w, identity, hpke).value)
  {
    var key := w.tree[w.secrets.body.plain.leafIndex].publicKey.of;
    var e := w.secrets.ephemeral.of;
    WelcomeKeyInjective(DiffieHellmanOf(e, key), DiffieHellmanOf(e, hpke));
    DhInjective(e, key, hpke);
  }

  /** Replacing one member by another with the same tree, leaf and private key. */
  lemma {:induction false} MemberMoves(o: Origin, acts: seq<Action>, s: System, r: System, m: nat)
    requires Guarded(o, acts, s) && m < |s.members| == |r.members|
    requires r.welcomes == s.welcomes && r.effects == s.effects
    requires r.members == s.members[m := r.members[m]]
    requires KeepsSelf(s.members[m].g, r.members[m].g) && r.members[m].g.tree == s.members[m].g.tree
    ensures Guarded(o, acts, r)
  {
  }

  lemma {:induction false} CommitterMoves(o: Origin, acts: seq<Action>, s: System, g: GroupState, c: Commit, e: Effect)
    requires Guarded(o, acts, s) && Vetted(o, acts, g.tree) && (e.Filled? ==> Admitted(acts, e.leaf))
    ensures Guarded(o, acts, Committed(s, g, c, e))
  {
  }

  lemma {:induction false} AddVets(o: Origin, acts: seq<Action>, tree: seq<Leaf>, kp: KeyPackage, coins: AddCoins)
    requires Vetted(o, acts, tree) && VerifyPackage(kp)
    ensures var (more, after) := (acts + [Action.Add(kp, coins)], WithLeaf(tree, PackageLeaf(kp)));
            Admitted(more, PackageLeaf(kp)) && Vetted(o, more, after)
  {
    var a := Action.Add(kp, coins);
    assert Admits(a, PackageLeaf(kp)) && a in acts + [a];
    VettedStays(o, acts, a, tree);
  }

  lemma {:induction false} AddKeepsGuard(o: Origin, acts: seq<Action>, s: System, kp: KeyPackage, coins: AddCoins)
    requires Guarded(o, acts, s) && VerifyPackage(kp)
    ensures var a := Action.Add(kp, coins);
            Guarded(o, acts + [a], Step(s, a))
  {
    var a := Action.Add(kp, coins);
    var g := s.members[0].g;
    GuardedStays(o, acts, a, s);
    AddVets(o, acts, g.tree, kp, coins);
    var (after, out) := AddMember(g, kp, coins);
    CommitterMoves(o, acts + [a], s, after, out.value.1, Filled(FirstBlank(g.tree), PackageLeaf(kp)));
    assert WelcomeVetted(o, acts + [a], out.value.0);
  }

  lemma {:induction false} BlankedVets(o: Origin, acts: seq<Action>, tree: seq<Leaf>, i: nat)
    requires Vetted(o, acts, tree)
    ensures Vetted(o, acts, Blanked(tree, i))
  {
  }

  lemma {:induction false} JoinKeepsGuard(
      o: Origin, acts: seq<Action>, s: System, k: nat, identity: SigningKey, hpke: Scalar)
    requires Guarded(o, acts, s)
    ensures Guarded(o, acts, Step(s, Join(k, identity, hpke)))
  {
    if k < |s.welcomes| {
      var w := s.welcomes[k];
      assert WelcomeVetted(o, acts, w);
      var joined := FromWelcome(w, identity, hpke);
      if joined.Ok? {
        WelcomeKeyInLeaf(o, acts, w, identity, hpke);
      }
    }
  }

  lemma {:induction false} StepKeepsGuard(o: Origin, acts: seq<Action>, s: System, a: Action)
    requires Guarded(o, acts, s)
    ensures Guarded(o, acts + [a], Step(s, a))
  {
    GuardedStays(o, acts, a, s);
    match a {
      case Add(kp, coins) => if VerifyPackage(kp) { AddKeepsGuard(o, acts, s, kp, coins); }
      case Remove(user, path) =>
        var g := s.members[0].g;
        var found := FindByUser(g.tree, user);
        if found.Some? {
          BlankedVets(o, acts + [a], g.tree, found.value);
          var (after, out) := RemoveMember(g, user, path);
          CommitterMoves(o, acts + [a], s, after, out.value, Emptied(found.value));
        }
      case Join(k, identity, hpke) => JoinKeepsGuard(o, acts + [a], s, k, identity, hpke);
      case Deliver(m, i) =>
        if m < |s.members| && i < |s.log| { MemberMoves(o, acts + [a], s, Step(s, a), m); }
      case Send(m, plaintext) =>
        if m < |s.members| { MemberMoves(o, acts + [a], s, Step(s, a), m); }
    }
  }

  /** In every run: in the trees of all members and Welcomes, every occupied leaf other than the
      creator's comes from an add whose package the leaf's identity key signed; every Welcome is sealed
      for the key in the leaf it names; every slot ever filled was filled by such an add; and whoever
      joined sits in such a leaf with its private key. */
  lemma {:induction false} OnlySignedPackagesEnter(o: Origin, acts: seq<Action>)
    ensures Guarded(o, acts, Exec(Start(o), acts))
  {
    if acts == [] {
      assert Founder(o, Start(o).members[0].g.tree[0]);
    } else {
      var (prefix, last) := (acts[..|acts| - 1], acts[|acts| - 1]);
      OnlySignedPackagesEnter(o, prefix);
      StepKeepsGuard(o, prefix, Exec(Start(o), prefix), last);
      assert acts == prefix + [last];
    }
  }
}
