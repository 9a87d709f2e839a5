/** The leaf array of a group, used as a slot allocator. */
module RatchetTree {
  import opened Bytes
  import opened Terms

  datatype Leaf = Leaf(userId: Str, deviceId: Str, identityKey: VerifyingKey, publicKey: PublicKey, isBlank: bool)

  /** The lowest blank slot, or the length when every slot is taken. */
  function FirstBlank(leaves: seq<Leaf>): (i: nat)
    ensures i <= |leaves|
    ensures i < |leaves| ==> leaves[i].isBlank
    ensures forall j | 0 <= j < i :: !leaves[j].isBlank
  {
    if leaves == [] || leaves[0].isBlank then 0 else 1 + FirstBlank(leaves[1..])
  }

  /** The leaves after an add. */
  function WithLeaf(leaves: seq<Leaf>, leaf: Leaf): (r: seq<Leaf>)
    ensures |r| == if FirstBlank(leaves) < |leaves| then |leaves| else |leaves| + 1
    ensures r[FirstBlank(leaves)] == leaf
    ensures forall j | 0 <= j < |leaves| && j != FirstBlank(leaves) :: r[j] == leaves[j]
  {
    var i := FirstBlank(leaves);
    if i < |leaves| then leaves[i := leaf] else leaves + [leaf]
  }

  /** The leaves after blanking a slot; an index past the end changes nothing. */
  function Blanked(leaves: seq<Leaf>, i: nat): (r: seq<Leaf>)
    ensures |r| == |leaves|
    ensures forall j | 0 <= j < |leaves| :: r[j] == if j == i then leaves[j].(isBlank := true) else leaves[j]
  {
    if i < |leaves| then leaves[i := leaves[i].(isBlank := true)] else leaves
  }

  predicate Holds(leaf: Leaf, user: Str) {
    !leaf.isBlank && leaf.userId == user
  }

  /** The first occupied slot of a user. */
  function FindByUser(leaves: seq<Leaf>, user: Str): (r: Option<nat>)
    ensures r.Some? ==> r.value < |leaves| && Holds(leaves[r.value], user)
    ensures r.Some? ==> forall j | 0 <= j < r.value :: !Holds(leaves[j], user)
    ensures r.None? ==> forall j | 0 <= j < |leaves| :: !Holds(leaves[j], user)
  {
    if leaves == [] then None
    else if Holds(leaves[0], user) then Some(0)
    else match FindByUser(leaves[1..], user)
      case None => None
      case Some(i) => Some(i + 1)
  }

  lemma FirstBlankIs(leaves: seq<Leaf>, i: nat)
    requires i <= |leaves| && (i < |leaves| ==> leaves[i].isBlank)
    requires forall j | 0 <= j < i :: !leaves[j].isBlank
    ensures FirstBlank(leaves) == i
  {
  }

  lemma FindByUserIs(leaves: seq<Leaf>, user: Str, i: nat)
    requires i < |leaves| && Holds(leaves[i], user)
    requires forall j | 0 <= j < i :: !Holds(leaves[j], user)
    ensures FindByUser(leaves, user) == Some(i)
  {
  }

  class TreeKemTree {
    var leaves: seq<Leaf>

    constructor (leaves: seq<Leaf>)
      ensures this.leaves == leaves
    {
      this.leaves := leaves;
    }

    method AddLeaf(leaf: Leaf) returns (idx: nat)
      modifies this
      ensures idx == FirstBlank(old(leaves))
      ensures leaves == WithLeaf(old(leaves), leaf)
    {
      var i := 0;
      while i < |leaves|
        invariant 0 <= i <= |leaves|
        invariant leaves == old(leaves)
        invariant forall j | 0 <= j < i :: !leaves[j].isBlank
      {
        if leaves[i].isBlank {
          FirstBlankIs(leaves, i);
          leaves := leaves[i := leaf];
          return i;
        }
        i := i + 1;
      }
      FirstBlankIs(leaves, i);
      idx := |leaves|;
      leaves := leaves + [leaf];
    }

    method BlankLeaf(i: nat)
      modifies this
      ensures leaves == Blanked(old(leaves), i)
    {
      if i < |leaves| {
        leaves := leaves[i := leaves[i].(isBlank := true)];
      }
    }

    method FindLeafByUser(user: Str) returns (r: Option<nat>)
      ensures r == FindByUser(leaves, user)
    {
      var i := 0;
      while i < |leaves|
        invariant 0 <= i <= |leaves|
        invariant forall j | 0 <= j < i :: !Holds(leaves[j], user)
      {
        if Holds(leaves[i], user) {
          FindByUserIs(leaves, user, i);
          return Some(i);
        }
        i := i + 1;
      }
      r := None;
    }
  }

  // ---- whole runs of the allocator -----------------------------------------

  datatype TreeOp = Add(leaf: Leaf) | Blank(slot: nat)

  function Apply(leaves: seq<Leaf>, op: TreeOp): seq<Leaf> {
    match op
    case Add(leaf) => WithLeaf(leaves, leaf)
    case Blank(slot) => Blanked(leaves, slot)
  }

  function Run(ops: seq<TreeOp>): seq<Leaf> {
    if ops == [] then [] else Apply(Run(ops[..|ops| - 1]), ops[|ops| - 1])
  }

  /** The number of occupied slots. */
  function Active(leaves: seq<Leaf>): (n: nat)
    ensures n <= |leaves|
  {
    if leaves == [] then 0
    else Active(leaves[..|leaves| - 1]) + (if leaves[|leaves| - 1].isBlank then 0 else 1)
  }

  /** The largest number of slots ever occupied at once during a run. */
  function Peak(ops: seq<TreeOp>): nat {
    if ops == [] then 0
    else
      var before, now := Peak(ops[..|ops| - 1]), Active(Run(ops));
      if before < now then now else before
  }

  lemma {:induction false} ActiveFull(leaves: seq<Leaf>)
    ensures Active(leaves) == |leaves| <==> FirstBlank(leaves) == |leaves|
  {
    if leaves == [] {
    } else {
      var n := |leaves| - 1;
      ActiveFull(leaves[..n]);
      var i := FirstBlank(leaves[..n]);
      if i < n {
        FirstBlankIs(leaves, i);
      } else if leaves[n].isBlank {
        FirstBlankIs(leaves, n);
      } else {
        FirstBlankIs(leaves, n + 1);
      }
    }
  }

  lemma {:induction false} ActiveUpdate(leaves: seq<Leaf>, i: nat, leaf: Leaf)
    requires i < |leaves|
    ensures Active(leaves[i := leaf]) ==
            Active(leaves) + (if leaf.isBlank then 0 else 1) - (if leaves[i].isBlank then 0 else 1)
  {
    var n := |leaves| - 1;
    if i == n {
      assert leaves[i := leaf][..n] == leaves[..n];
    } else {
      ActiveUpdate(leaves[..n], i, leaf);
      assert leaves[i := leaf][..n] == leaves[..n][i := leaf];
    }
  }

  /** Slots are only ever appended at a new peak: from an empty tree, the array is exactly
      as long as the largest number of simultaneous members. */
  lemma {:induction false} LengthIsPeak(ops: seq<TreeOp>)
    requires forall op | op in ops :: op.Add? ==> !op.leaf.isBlank
    ensures |Run(ops)| == Peak(ops)
  {
    if ops == [] {
    } else {
      var prefix, op := ops[..|ops| - 1], ops[|ops| - 1];
      LengthIsPeak(prefix);
      var before := Run(prefix);
      ActiveFull(before);
      match op {
        case Add(leaf) =>
          if FirstBlank(before) < |before| {
            ActiveUpdate(before, FirstBlank(before), leaf);
          } else {
            assert (before + [leaf])[..|before|] == before;
          }
        case Blank(slot) =>
          if slot < |before| {
            ActiveUpdate(before, slot, before[slot].(isBlank := true));
          }
      }
    }
  }
}
