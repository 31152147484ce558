/** The off-chain incremental Merkle tree of apps/backend/scripts/e2e-smoke-test.ts.
    The hash of a pair is an arbitrary function and the depth is arbitrary. */
module MerkleTree {
  import opened Digits

  type Hash = (int, int) -> int

  // ---- the reference: a full binary tree ---------------------------------------------

  /** Root of the full binary tree over exactly 2^n leaves. */
  function FullRoot(h: Hash, xs: seq<int>, n: nat): int
    requires |xs| == Pow(2, n)
  {
    if n == 0 then xs[0]
    else
      var half := Pow(2, n - 1);
      h(FullRoot(h, xs[..half], n - 1), FullRoot(h, xs[half..], n - 1))
  }

  /** The leaves, filled up with zeros to `size`. */
  function Padded(leaves: seq<int>, size: nat): (xs: seq<int>)
    requires |leaves| <= size
    ensures |xs| == size
  {
    leaves + seq(size - |leaves|, _ => 0)
  }

  /** Node j of level i of the zero-padded tree over the leaves. */
  function Node(h: Hash, leaves: seq<int>, i: nat, j: nat): int {
    if i == 0 then (if j < |leaves| then leaves[j] else 0)
    else h(Node(h, leaves, i - 1, 2 * j), Node(h, leaves, i - 1, 2 * j + 1))
  }

  /** The zero ladder. */
  function Zero(h: Hash, i: nat): int {
    if i == 0 then 0 else h(Zero(h, i - 1), Zero(h, i - 1))
  }

  /** n >> i. */
  function Shr(n: nat, i: nat): nat {
    if i == 0 then n else Shr(n, i - 1) / 2
  }

  /** Folds a leaf up a path; side bit 1 says that the node is a right child. */
  function FoldPath(h: Hash, leaf: int, elements: seq<int>, sides: seq<nat>): int
    requires |elements| == |sides|
    decreases |elements|
  {
    if elements == [] then leaf
    else
      var up := if sides[0] == 0 then h(leaf, elements[0]) else h(elements[0], leaf);
      FoldPath(h, up, elements[1..], sides[1..])
  }

  /** The level-by-level tree is the full tree: node j of level i is the root over the
      j-th block of 2^i padded leaves. */
  lemma {:induction false} NodeIsFullRoot(h: Hash, leaves: seq<int>, size: nat, i: nat, j: nat)
    requires |leaves| <= size && (j + 1) * Pow(2, i) <= size
    ensures 0 <= j * Pow(2, i) <= (j + 1) * Pow(2, i)
    ensures (j + 1) * Pow(2, i) - j * Pow(2, i) == Pow(2, i)
    ensures Node(h, leaves, i, j) == FullRoot(h, Padded(leaves, size)[j * Pow(2, i)..(j + 1) * Pow(2, i)], i)
  {
    BlockBounds(j, Pow(2, i));
    if i > 0 {
      var p := Pow(2, i - 1);
      Halves(j, p);
      var xs := Padded(leaves, size);
      NodeIsFullRoot(h, leaves, size, i - 1, 2 * j);
      NodeIsFullRoot(h, leaves, size, i - 1, 2 * j + 1);
      var block := xs[j * Pow(2, i)..(j + 1) * Pow(2, i)];
      assert block[..p] == xs[2 * j * p..(2 * j + 1) * p];
      assert block[p..] == xs[(2 * j + 1) * p..(2 * j + 2) * p];
    }
  }

  lemma BlockBounds(j: nat, p: nat)
    ensures 0 <= j * p <= (j + 1) * p && (j + 1) * p - j * p == p
  {
  }

  lemma Halves(j: nat, p: nat)
    ensures 2 * j * p == j * (2 * p) && (2 * j + 2) * p == (j + 1) * (2 * p)
    ensures (2 * j + 1) * p == 2 * j * p + p && (2 * j + 2) * p == (2 * j + 1) * p + p
    ensures 2 * j * p <= (j + 1) * (2 * p)
  {
    assert (j + 1) * (2 * p) == j * (2 * p) + 2 * p;
    assert j * (2 * p) == 2 * j * p;
  }

  // ---- how one new leaf changes the tree -----------------------------------------------

  lemma {:induction false} NodeUnchanged(h: Hash, leaves: seq<int>, x: int, i: nat, j: nat)
    requires j != Shr(|leaves|, i)
    ensures Node(h, leaves + [x], i, j) == Node(h, leaves, i, j)
  {
    if i > 0 {
      NodeUnchanged(h, leaves, x, i - 1, 2 * j);
      NodeUnchanged(h, leaves, x, i - 1, 2 * j + 1);
    }
  }

  /** Everything to the right of the last leaf is the all-zero subtree. */
  lemma {:induction false} NodeBeyond(h: Hash, leaves: seq<int>, i: nat, j: nat)
    requires leaves != [] ==> j > Shr(|leaves| - 1, i)
    ensures Node(h, leaves, i, j) == Zero(h, i)
  {
    if i > 0 {
      NodeBeyond(h, leaves, i - 1, 2 * j);
      NodeBeyond(h, leaves, i - 1, 2 * j + 1);
    }
  }

  lemma {:induction false} ShrNext(n: nat, i: nat)
    ensures Shr(n + 1, i) == Shr(n, i) || Shr(n + 1, i) == Shr(n, i) + 1
  {
    if i > 0 { ShrNext(n, i - 1); }
  }

  lemma {:induction false} ShrFromHalf(x: nat, n: nat)
    ensures Shr(x, n + 1) == Shr(x / 2, n)
  {
    if n > 0 { ShrFromHalf(x, n - 1); }
  }

  /** An index fits below level n exactly when n shifts leave nothing of it. */
  lemma {:induction false} ShrIsZero(x: nat, n: nat)
    ensures Shr(x, n) == 0 <==> x < Pow(2, n)
  {
    if n > 0 {
      ShrFromHalf(x, n - 1);
      ShrIsZero(x / 2, n - 1);
    }
  }

  // ---- the incremental tree ---------------------------------------------------------------

  /** Level i of the node map: exactly the nodes over at least one leaf, with their values. */
  ghost function LevelMap(h: Hash, leaves: seq<int>, i: nat): map<nat, int> {
    if leaves == [] then map[]
    else map j: nat | 0 <= j <= Shr(|leaves| - 1, i) :: Node(h, leaves, i, j)
  }

  /** What `filledSubtrees[i]` must be worth: the left sibling of the next node of level i,
      whenever that node is a right child. */
  ghost predicate FilledHolds(h: Hash, leaves: seq<int>, i: nat, filled: int) {
    var next := Shr(|leaves|, i);
    next % 2 == 1 ==> filled == Node(h, leaves, i, next - 1)
  }

  class IncrementalMerkleTree {
    const levels: nat
    const hash: Hash
    const zeros: array<int>
    const filledSubtrees: array<int>
    const nodes: array<map<nat, int>>
    var currentRoot: int
    var nextIndex: nat
    ghost var leaves: seq<int>

    ghost predicate Shape()
      reads this
    {
      zeros.Length == levels + 1 && filledSubtrees.Length == levels && nodes.Length == levels + 1
      && zeros != filledSubtrees
    }

    ghost predicate Valid()
      reads this, zeros, filledSubtrees, nodes
    {
      && Shape()
      && nextIndex == |leaves| <= Pow(2, levels)
      && currentRoot == Node(hash, leaves, levels, 0)
      && (forall i :: 0 <= i <= levels ==> zeros[i] == Zero(hash, i))
      && (forall i :: 0 <= i <= levels ==> nodes[i] == LevelMap(hash, leaves, i))
      && (forall i :: 0 <= i < levels ==> FilledHolds(hash, leaves, i, filledSubtrees[i]))
    }

    constructor (hash: Hash, levels: nat)
      ensures Valid() && this.levels == levels && this.hash == hash && leaves == []
      ensures fresh(zeros) && fresh(filledSubtrees) && fresh(nodes)
    {
      this.levels := levels;
      this.hash := hash;
      zeros := new int[levels + 1];
      filledSubtrees := new int[levels];
      nodes := new map<nat, int>[levels + 1](_ => map[]);
      nextIndex := 0;
      leaves := [];
      new;
      ClimbZeros();
      CopyZeros();
      currentRoot := zeros[levels];
      NodeBeyond(hash, [], levels, 0);
      forall i | 0 <= i < levels ensures FilledHolds(hash, [], i, filledSubtrees[i]) {
        ShrOfZero(i);
      }
    }

    /** The loop of the constructor that builds the zero ladder. */
    method ClimbZeros()
      requires Shape()
      modifies zeros
      ensures forall k :: 0 <= k <= levels ==> zeros[k] == Zero(hash, k)
    {
      zeros[0] := 0;
      for i := 1 to levels + 1
        invariant forall k :: 0 <= k < i ==> zeros[k] == Zero(hash, k)
      {
        zeros[i] := hash(zeros[i - 1], zeros[i - 1]);
      }
    }

    /** The loop of the constructor that fills the slots. */
    method CopyZeros()
      requires Shape()
      modifies filledSubtrees
      ensures forall k :: 0 <= k < levels ==> filledSubtrees[k] == zeros[k]
    {
      for i := 0 to levels
        invariant forall k :: 0 <= k < i ==> filledSubtrees[k] == zeros[k]
      {
        filledSubtrees[i] := zeros[i];
      }
    }

    method Insert(leaf: int) returns (ok: bool)
      requires Valid()
      modifies this`currentRoot, this`nextIndex, this`leaves, filledSubtrees, nodes
      ensures Valid()
      ensures ok <==> |old(leaves)| < Pow(2, levels)
      ensures leaves == if ok then old(leaves) + [leaf] else old(leaves)
    {
      if nextIndex >= Pow(2, levels) {
        return false;
      }
      ghost var before := leaves;
      currentRoot := Climb(leaf, before);
      ShrIsZero(nextIndex, levels);
      nextIndex := nextIndex + 1;
      leaves := before + [leaf];
      return true;
    }

    /** The insertion loop: rewrites the way from the new leaf to the root. */
    method Climb(leaf: int, ghost before: seq<int>) returns (currentHash: int)
      requires Shape() && nextIndex == |before|
      requires forall i :: 0 <= i <= levels ==> zeros[i] == Zero(hash, i)
      requires forall i :: 0 <= i <= levels ==> nodes[i] == LevelMap(hash, before, i)
      requires forall i :: 0 <= i < levels ==> FilledHolds(hash, before, i, filledSubtrees[i])
      modifies filledSubtrees, nodes
      ensures currentHash == Node(hash, before + [leaf], levels, Shr(|before|, levels))
      ensures forall i :: 0 <= i <= levels ==> nodes[i] == LevelMap(hash, before + [leaf], i)
      ensures forall i :: 0 <= i < levels ==> FilledHolds(hash, before + [leaf], i, filledSubtrees[i])
    {
      ghost var all := before + [leaf];
      var currentIndex := nextIndex;
      currentHash := leaf;
      PlaceLeaf(leaf, before);
      for i := 0 to levels
        invariant currentIndex == Shr(|before|, i) && currentHash == Node(hash, all, i, currentIndex)
        invariant forall k :: 0 <= k <= levels ==> nodes[k] == LevelMap(hash, if k <= i then all else before, k)
        invariant forall k :: 0 <= k < levels ==> FilledHolds(hash, if k < i then all else before, k, filledSubtrees[k])
      {
        currentIndex, currentHash := ClimbOneLevel(i, currentIndex, currentHash, before, leaf);
      }
    }

    /** Enters the new leaf into the bottom level. */
    method PlaceLeaf(leaf: int, ghost before: seq<int>)
      requires Shape() && nextIndex == |before|
      requires nodes[0] == LevelMap(hash, before, 0)
      modifies nodes
      ensures nodes[0] == LevelMap(hash, before + [leaf], 0)
      ensures forall k :: 1 <= k <= levels ==> nodes[k] == old(nodes[k])
    {
      LevelExtends(hash, before, leaf, 0);
      nodes[0] := nodes[0][nextIndex := leaf];
    }

    /** The body of the insertion loop: one pass from level i to level i + 1. */
    method ClimbOneLevel(i: nat, index: nat, current: int, ghost before: seq<int>, ghost leaf: int)
      returns (nextIdx: nat, next: int)
      requires Shape() && i < levels && zeros[i] == Zero(hash, i)
      requires index == Shr(|before|, i) && current == Node(hash, before + [leaf], i, index)
      requires FilledHolds(hash, before, i, filledSubtrees[i])
      requires nodes[i + 1] == LevelMap(hash, before, i + 1)
      modifies filledSubtrees, nodes
      ensures nextIdx == Shr(|before|, i + 1) && next == Node(hash, before + [leaf], i + 1, nextIdx)
      ensures FilledHolds(hash, before + [leaf], i, filledSubtrees[i])
      ensures nodes[i + 1] == LevelMap(hash, before + [leaf], i + 1)
      ensures forall k :: 0 <= k < levels && k != i ==> filledSubtrees[k] == old(filledSubtrees[k])
      ensures forall k :: 0 <= k <= levels && k != i + 1 ==> nodes[k] == old(nodes[k])
    {
      FilledNext(hash, before, leaf, i, filledSubtrees[i], current);
      ParentOfCurrent(hash, before, leaf, i, filledSubtrees[i]);
      LevelExtends(hash, before, leaf, i + 1);
      var left, right;
      if index % 2 == 0 {
        left := current;
        right := zeros[i];
        filledSubtrees[i] := current;
      } else {
        left := filledSubtrees[i];
        right := current;
      }
      next := hash(left, right);
      nextIdx := index / 2;
      nodes[i + 1] := nodes[i + 1][nextIdx := next];
    }

    /** Sibling values and side bits from a leaf position to the root. */
    method Path(index: nat) returns (pathElements: seq<int>, pathIndices: seq<nat>)
      requires Valid()
      ensures pathElements == Siblings(hash, leaves, index, levels)
      ensures pathIndices == Sides(index, levels)
      ensures index < Pow(2, levels) ==>
        FoldPath(hash, if index < |leaves| then leaves[index] else 0, pathElements, pathIndices) == currentRoot
    {
      pathElements, pathIndices := [], [];
      var currentIndex := index;
      for i := 0 to levels
        invariant currentIndex == Shr(index, i)
        invariant pathElements == Siblings(hash, leaves, index, i) && pathIndices == Sides(index, i)
      {
        var sideBit := currentIndex % 2;
        var siblingIndex := Sibling(currentIndex);
        AbsentIsZero(hash, leaves, i, siblingIndex);
        var sibling := if siblingIndex in nodes[i] then nodes[i][siblingIndex] else zeros[i];
        pathElements := pathElements + [sibling];
        pathIndices := pathIndices + [sideBit];
        currentIndex := currentIndex / 2;
      }
      if index < Pow(2, levels) { PathLeadsToRoot(hash, leaves, levels, index); }
    }

    method Root() returns (root: int)
      requires Valid()
      ensures root == FullRoot(hash, Padded(leaves, Pow(2, levels)), levels)
    {
      RootIsFullRoot(hash, leaves, levels);
      root := currentRoot;
    }
  }

  /** j ^ 1. */
  function Sibling(j: nat): nat {
    if j % 2 == 0 then j + 1 else j - 1
  }

  /** The nodes beside the way from leaf `index` up to level n. */
  function Siblings(h: Hash, leaves: seq<int>, index: nat, n: nat): (es: seq<int>)
    ensures |es| == n
  {
    if n == 0 then [] else
      Siblings(h, leaves, index, n - 1) + [Node(h, leaves, n - 1, Sibling(Shr(index, n - 1)))]
  }

  /** For each level below n, 1 when the way up leaves a right child. */
  function Sides(index: nat, n: nat): (bs: seq<nat>)
    ensures |bs| == n
  {
    if n == 0 then [] else Sides(index, n - 1) + [Shr(index, n - 1) % 2]
  }

  lemma {:induction false} ShrOfZero(i: nat)
    ensures Shr(0, i) == 0
  {
    if i > 0 { ShrOfZero(i - 1); }
  }

  lemma LevelExtends(h: Hash, leaves: seq<int>, x: int, i: nat)
    ensures var j := Shr(|leaves|, i);
            LevelMap(h, leaves + [x], i) == LevelMap(h, leaves, i)[j := Node(h, leaves + [x], i, j)]
  {
    var j, all := Shr(|leaves|, i), leaves + [x];
    var was, now := LevelMap(h, leaves, i), LevelMap(h, all, i);
    forall k: nat ensures k in now <==> k == j || k in was {
      if leaves == [] { ShrOfZero(i); } else { ShrNext(|leaves| - 1, i); }
    }
    forall k | k in now && k != j ensures now[k] == was[k] {
      NodeUnchanged(h, leaves, x, i, k);
    }
  }

  lemma AbsentIsZero(h: Hash, leaves: seq<int>, i: nat, j: nat)
    ensures j !in LevelMap(h, leaves, i) ==> Node(h, leaves, i, j) == Zero(h, i)
  {
    if j !in LevelMap(h, leaves, i) { NodeBeyond(h, leaves, i, j); }
  }

  /** The pair the insertion hashes at level i is the pair of children of the next node. */
  lemma ParentOfCurrent(h: Hash, leaves: seq<int>, x: int, i: nat, filled: int)
    requires FilledHolds(h, leaves, i, filled)
    ensures var j, all := Shr(|leaves|, i), leaves + [x];
            var current := Node(h, all, i, j);
            Node(h, all, i + 1, j / 2) == if j % 2 == 0 then h(current, Zero(h, i)) else h(filled, current)
  {
    var j := Shr(|leaves|, i);
    if j % 2 == 0 {
      NodeBeyond(h, leaves + [x], i, j + 1);
    } else {
      NodeUnchanged(h, leaves, x, i, j - 1);
    }
  }

  /** The slot of level i after an insertion, whether or not the insertion wrote it. */
  lemma FilledNext(h: Hash, leaves: seq<int>, x: int, i: nat, filled: int, current: int)
    requires FilledHolds(h, leaves, i, filled)
    requires current == Node(h, leaves + [x], i, Shr(|leaves|, i))
    ensures FilledHolds(h, leaves + [x], i, if Shr(|leaves|, i) % 2 == 0 then current else filled)
  {
    var j := Shr(|leaves|, i);
    ShrNext(|leaves|, i);
    if j % 2 == 1 { NodeUnchanged(h, leaves, x, i, j - 1); }
  }

  // ---- what the tree promises ---------------------------------------------------------------

  /** A valid tree's cached root is the root of the full tree over its padded leaves. */
  lemma RootIsFullRoot(h: Hash, leaves: seq<int>, levels: nat)
    requires |leaves| <= Pow(2, levels)
    ensures Node(h, leaves, levels, 0) == FullRoot(h, Padded(leaves, Pow(2, levels)), levels)
  {
    NodeIsFullRoot(h, leaves, Pow(2, levels), levels, 0);
    var xs := Padded(leaves, Pow(2, levels));
    assert xs[0 * Pow(2, levels)..(0 + 1) * Pow(2, levels)] == xs;
  }

  /** The path of any position, taken at any time, folds its leaf to the current root. */
  lemma PathLeadsToRoot(h: Hash, leaves: seq<int>, levels: nat, index: nat)
    requires index < Pow(2, levels)
    ensures FoldPath(h, Node(h, leaves, 0, index), Siblings(h, leaves, index, levels), Sides(index, levels))
         == Node(h, leaves, levels, 0)
  {
    ShrIsZero(index, levels);
    FoldToLevel(h, leaves, index, levels);
  }

  lemma {:induction false} FoldToLevel(h: Hash, leaves: seq<int>, index: nat, n: nat)
    ensures FoldPath(h, Node(h, leaves, 0, index), Siblings(h, leaves, index, n), Sides(index, n))
         == Node(h, leaves, n, Shr(index, n))
  {
    if n > 0 {
      FoldToLevel(h, leaves, index, n - 1);
      FoldSnoc(h, Node(h, leaves, 0, index), Siblings(h, leaves, index, n - 1), Sides(index, n - 1),
               Node(h, leaves, n - 1, Sibling(Shr(index, n - 1))), Shr(index, n - 1) % 2);
    }
  }

  lemma {:induction false} FoldSnoc(h: Hash, leaf: int, elements: seq<int>, sides: seq<nat>, e: int, side: nat)
    requires |elements| == |sides|
    ensures FoldPath(h, leaf, elements + [e], sides + [side])
         == var below := FoldPath(h, leaf, elements, sides);
            if side == 0 then h(below, e) else h(e, below)
    decreases |elements|
  {
    if elements == [] {
      assert FoldPath(h, leaf, [e], [side]) == FoldPath(h, if side == 0 then h(leaf, e) else h(e, leaf), [], []);
    } else {
      var up := if sides[0] == 0 then h(leaf, elements[0]) else h(elements[0], leaf);
      FoldSnoc(h, up, elements[1..], sides[1..], e, side);
      assert (elements + [e])[1..] == elements[1..] + [e] && (sides + [side])[1..] == sides[1..] + [side];
    }
  }

  predicate PairInjective(h: Hash, a: int, b: int, c: int, d: int) {
    h(a, b) == h(c, d) ==> a == c && b == d
  }

  /** With a hash that is injective on pairs, a path proves one leaf value only. */
  lemma {:induction false} PathBindsLeaf(h: Hash, x: int, y: int, elements: seq<int>, sides: seq<nat>)
    requires forall a, b, c, d :: PairInjective(h, a, b, c, d)
    requires |elements| == |sides|
    ensures FoldPath(h, x, elements, sides) == FoldPath(h, y, elements, sides) <==> x == y
    decreases |elements|
  {
    if elements != [] {
      var e := elements[0];
      var ux := if sides[0] == 0 then h(x, e) else h(e, x);
      var uy := if sides[0] == 0 then h(y, e) else h(e, y);
      assert PairInjective(h, x, e, y, e) && PairInjective(h, e, x, e, y);
      PathBindsLeaf(h, ux, uy, elements[1..], sides[1..]);
    }
  }

  /** With a hash that is injective on pairs, full trees of one depth have one root exactly when they
      have the same leaves. */
  lemma {:induction false} FullRootBinds(h: Hash, xs: seq<int>, ys: seq<int>, n: nat)
    requires forall a, b, c, d :: PairInjective(h, a, b, c, d)
    requires |xs| == |ys| == Pow(2, n)
    ensures FullRoot(h, xs, n) == FullRoot(h, ys, n) <==> xs == ys
  {
    if n > 0 && FullRoot(h, xs, n) == FullRoot(h, ys, n) {
      var half := Pow(2, n - 1);
      assert PairInjective(h, FullRoot(h, xs[..half], n - 1), FullRoot(h, xs[half..], n - 1),
                           FullRoot(h, ys[..half], n - 1), FullRoot(h, ys[half..], n - 1));
      FullRootBinds(h, xs[..half], ys[..half], n - 1);
      FullRootBinds(h, xs[half..], ys[half..], n - 1);
      assert xs == xs[..half] + xs[half..] && ys == ys[..half] + ys[half..];
    }
  }

  /** So the root of a tree commits to its leaves, up to zeros at the end. */
  lemma RootBindsLeaves(h: Hash, a: seq<int>, b: seq<int>, levels: nat)
    requires forall x, y, z, w :: PairInjective(h, x, y, z, w)
    requires |a| <= Pow(2, levels) && |b| <= Pow(2, levels)
    ensures Node(h, a, levels, 0) == Node(h, b, levels, 0) <==> Padded(a, Pow(2, levels)) == Padded(b, Pow(2, levels))
  {
    RootIsFullRoot(h, a, levels);
    RootIsFullRoot(h, b, levels);
    FullRootBinds(h, Padded(a, Pow(2, levels)), Padded(b, Pow(2, levels)), levels);
  }
}
