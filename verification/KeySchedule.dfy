/** The epoch key schedule of the group protocol. */
module KeySchedule {
  import opened Bytes
  import opened Terms

  const ADD_TAG: Str := Ascii("add_member")
  const REMOVE_TAG: Str := Ascii("remove_member")
  const INIT_TAG: Str := Ascii("init")
  const NEXT_EPOCH: Str := Ascii("genchat_mls_next_epoch")
  const APPLICATION: Str := Ascii("genchat_mls_application_secret")

  /** The context fed to HKDF: the tag, then the epoch in eight bytes. */
  function EpochInfo(tag: Str, epoch: u64): Str {
    tag + BigEndian(epoch, 8)
  }

  function NextSecret(current: Secret, epoch: u64, tag: Str): Secret {
    Hkdf([Block(current)], Octets(EpochInfo(tag, epoch)), NEXT_EPOCH)
  }

  function AppSecret(epochSecret: Secret): Secret {
    Hkdf([], [Block(epochSecret)], APPLICATION)
  }

  /** The pair (next epoch secret, next application secret). */
  function DeriveEpochSecrets(current: Secret, epoch: u64, tag: Str): (Secret, Secret) {
    var next := NextSecret(current, epoch, tag);
    (next, AppSecret(next))
  }

  /** An empty commit tag stands for the add tag. */
  function Normal(tag: Str): Str {
    if tag == [] then ADD_TAG else tag
  }

  /** The epoch secret after the first `e` tags of a history. */
  function SecretAt(init: Secret, tags: seq<Str>, e: nat): Secret
    requires e <= |tags| && e < U64
  {
    if e == 0 then init else NextSecret(SecretAt(init, tags, e - 1), e, Normal(tags[e - 1]))
  }

  /** The application secret in force at epoch `e`; epoch 0 has a step of its own. */
  function AppAt(init: Secret, tags: seq<Str>, e: nat): Secret
    requires e <= |tags| && e < U64
  {
    if e == 0 then AppSecret(NextSecret(init, 0, INIT_TAG)) else AppSecret(SecretAt(init, tags, e))
  }

  function Normals(tags: seq<Str>): (r: seq<Str>)
    ensures |r| == |tags|
    ensures forall i | 0 <= i < |tags| :: r[i] == Normal(tags[i])
  {
    seq(|tags|, i requires 0 <= i < |tags| => Normal(tags[i]))
  }

  lemma EpochInfoInjective(t1: Str, e1: u64, t2: Str, e2: u64)
    ensures EpochInfo(t1, e1) == EpochInfo(t2, e2) <==> t1 == t2 && e1 == e2
  {
    FixedSuffixSplits(t1, BigEndian(e1, 8), t2, BigEndian(e2, 8));
    U64Bytes(e1, e2);
  }

  lemma NextSecretInjective(s1: Secret, e1: u64, t1: Str, s2: Secret, e2: u64, t2: Str)
    ensures NextSecret(s1, e1, t1) == NextSecret(s2, e2, t2) <==> s1 == s2 && e1 == e2 && t1 == t2
  {
    EpochInfoInjective(t1, e1, t2, e2);
    OctetsInjective(EpochInfo(t1, e1), EpochInfo(t2, e2));
    if [Block(s1)] == [Block(s2)] {
      assert [Block(s1)][0] == [Block(s2)][0];
    }
  }

  lemma AppSecretInjective(s1: Secret, s2: Secret)
    ensures AppSecret(s1) == AppSecret(s2) <==> s1 == s2
  {
    if AppSecret(s1) == AppSecret(s2) {
      assert [Block(s1)][0] == [Block(s2)][0];
    }
  }

  /** A longer history leaves the secrets of earlier epochs as they were. */
  lemma {:induction false} HistoryExtends(init: Secret, tags: seq<Str>, more: seq<Str>, e: nat)
    requires e <= |tags| && e < U64
    ensures SecretAt(init, tags + more, e) == SecretAt(init, tags, e)
    ensures AppAt(init, tags + more, e) == AppAt(init, tags, e)
  {
    if e == 0 {
    } else {
      HistoryExtends(init, tags, more, e - 1);
    }
  }

  /** One more tag, the empty one included, moves the fold on by one derivation. */
  lemma FoldStep(init: Secret, tags: seq<Str>, tag: Str)
    requires |tags| + 1 < U64
    ensures var e := |tags| + 1;
            (SecretAt(init, tags + [tag], e), AppAt(init, tags + [tag], e)) ==
            DeriveEpochSecrets(SecretAt(init, tags, |tags|), e, Normal(tag))
  {
    HistoryExtends(init, tags, [tag], |tags|);
  }

  lemma PrefixStep(a: seq<Str>, b: seq<Str>, e: nat)
    requires 0 < e <= |a| && e <= |b|
    ensures a[..e] == b[..e] <==> a[..e - 1] == b[..e - 1] && a[e - 1] == b[e - 1]
  {
    assert a[..e] == a[..e - 1] + [a[e - 1]] && b[..e] == b[..e - 1] + [b[e - 1]];
  }

  /** At one epoch two members hold the same epoch secret exactly when they started
      from the same secret and saw the same normalised tags. */
  lemma {:induction false} SecretsAgreeIffHistoriesAgree(i1: Secret, t1: seq<Str>, i2: Secret, t2: seq<Str>, e: nat)
    requires e <= |t1| && e <= |t2| && e < U64
    ensures SecretAt(i1, t1, e) == SecretAt(i2, t2, e) <==> i1 == i2 && Normals(t1)[..e] == Normals(t2)[..e]
  {
    if e == 0 {
    } else {
      SecretsAgreeIffHistoriesAgree(i1, t1, i2, t2, e - 1);
      NextSecretInjective(SecretAt(i1, t1, e - 1), e, Normal(t1[e - 1]), SecretAt(i2, t2, e - 1), e, Normal(t2[e - 1]));
      PrefixStep(Normals(t1), Normals(t2), e);
    }
  }

  /** The same for application secrets, on which traffic actually depends. */
  lemma AppSecretsAgreeIffHistoriesAgree(i1: Secret, t1: seq<Str>, i2: Secret, t2: seq<Str>, e: nat)
    requires e <= |t1| && e <= |t2| && e < U64
    ensures AppAt(i1, t1, e) == AppAt(i2, t2, e) <==> i1 == i2 && Normals(t1)[..e] == Normals(t2)[..e]
  {
    if e == 0 {
      NextSecretInjective(i1, 0, INIT_TAG, i2, 0, INIT_TAG);
      AppSecretInjective(NextSecret(i1, 0, INIT_TAG), NextSecret(i2, 0, INIT_TAG));
    } else {
      SecretsAgreeIffHistoriesAgree(i1, t1, i2, t2, e);
      AppSecretInjective(SecretAt(i1, t1, e), SecretAt(i2, t2, e));
    }
  }

  /** Once two tag histories differ at some commit, both secrets differ at every later epoch. */
  lemma ForksNeverHeal(i1: Secret, t1: seq<Str>, i2: Secret, t2: seq<Str>, k: nat, e: nat)
    requires k < e <= |t1| && e <= |t2| && e < U64
    requires Normal(t1[k]) != Normal(t2[k])
    ensures SecretAt(i1, t1, e) != SecretAt(i2, t2, e)
    ensures AppAt(i1, t1, e) != AppAt(i2, t2, e)
  {
    SecretsAgreeIffHistoriesAgree(i1, t1, i2, t2, e);
    AppSecretsAgreeIffHistoriesAgree(i1, t1, i2, t2, e);
    assert Normals(t1)[..e][k] != Normals(t2)[..e][k];
  }

  /** Histories that start from random secrets never meet at different epochs either. */
  lemma {:induction false} EpochsNeverCollide(r1: nat, t1: seq<Str>, e1: nat, r2: nat, t2: seq<Str>, e2: nat)
    requires e1 <= |t1| && e1 < U64 && e2 <= |t2| && e2 < U64
    requires e1 != e2
    ensures SecretAt(Fresh(r1), t1, e1) != SecretAt(Fresh(r2), t2, e2)
    ensures AppAt(Fresh(r1), t1, e1) != AppAt(Fresh(r2), t2, e2)
  {
    var p1 := if e1 == 0 then NextSecret(Fresh(r1), 0, INIT_TAG) else SecretAt(Fresh(r1), t1, e1);
    var p2 := if e2 == 0 then NextSecret(Fresh(r2), 0, INIT_TAG) else SecretAt(Fresh(r2), t2, e2);
    var s1 := if e1 == 0 then Fresh(r1) else SecretAt(Fresh(r1), t1, e1 - 1);
    var s2 := if e2 == 0 then Fresh(r2) else SecretAt(Fresh(r2), t2, e2 - 1);
    var g1 := if e1 == 0 then INIT_TAG else Normal(t1[e1 - 1]);
    var g2 := if e2 == 0 then INIT_TAG else Normal(t2[e2 - 1]);
    NextSecretInjective(s1, e1, g1, s2, e2, g2);
    AppSecretInjective(p1, p2);
  }

  /** An application secret names its group's random start, its epoch and every tag up to it. */
  lemma AppSecretNamesHistory(r1: nat, t1: seq<Str>, e1: nat, r2: nat, t2: seq<Str>, e2: nat)
    requires e1 <= |t1| && e1 < U64 && e2 <= |t2| && e2 < U64
    ensures AppAt(Fresh(r1), t1, e1) == AppAt(Fresh(r2), t2, e2) <==>
            r1 == r2 && e1 == e2 && Normals(t1)[..e1] == Normals(t2)[..e2]
  {
    if e1 == e2 {
      AppSecretsAgreeIffHistoriesAgree(Fresh(r1), t1, Fresh(r2), t2, e1);
    } else {
      EpochsNeverCollide(r1, t1, e1, r2, t2, e2);
    }
  }

  /** Secrets of the two uses never meet: no application secret of any group, history and epoch is an
      epoch secret of any. */
  lemma {:induction false} UsesNeverCollide(r1: nat, t1: seq<Str>, e1: nat, r2: nat, t2: seq<Str>, e2: nat)
    requires e1 <= |t1| && e1 < U64 && e2 <= |t2| && e2 < U64
    ensures AppAt(Fresh(r1), t1, e1) != SecretAt(Fresh(r2), t2, e2)
  {
    assert |NEXT_EPOCH| != |APPLICATION|;
  }

  /** Adding and removing lead to different secrets, from any secret and at any epoch. */
  lemma {:induction false} AddAndRemoveDiverge(s: Secret, e: u64)
    ensures NextSecret(s, e, ADD_TAG) != NextSecret(s, e, REMOVE_TAG)
    ensures DeriveEpochSecrets(s, e, ADD_TAG).1 != DeriveEpochSecrets(s, e, REMOVE_TAG).1
  {
    assert |ADD_TAG| != |REMOVE_TAG|;
    NextSecretInjective(s, e, ADD_TAG, s, e, REMOVE_TAG);
    AppSecretInjective(NextSecret(s, e, ADD_TAG), NextSecret(s, e, REMOVE_TAG));
  }

  /** The derivation written out for one add: the current secret is the salt, tag and epoch bytes are
      the keying material, and the application secret comes out of the new epoch secret without salt. */
  lemma {:induction false} DerivationOfEpoch258(s: Secret)
    ensures var next := Hkdf([Block(s)], Octets(Ascii("add_member") + [0, 0, 0, 0, 0, 0, 1, 2]),
                             Ascii("genchat_mls_next_epoch"));
            DeriveEpochSecrets(s, 258, ADD_TAG) ==
            (next, Hkdf([], [Block(next)], Ascii("genchat_mls_application_secret")))
  {
    TwoByteNumber(1, 2, 6);
    assert BigEndian(258, 8) == [0, 0, 0, 0, 0, 0, 1, 2];
  }
}
