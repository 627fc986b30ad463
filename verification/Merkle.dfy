/**
 The Merkle tree of a block (BuildMerkleTree, GetMerkleBranch and CheckMerkleBranch in
 src/core.cpp, CalcTreeWidth and CalcHash of CPartialMerkleTree). The hash of two nodes is any
 function; where forgeries are to be excluded it is assumed to be injective.
 */
module Merkle {
  import opened Core
  import opened Numbers

  type Combine = (Hash, Hash) -> Hash

  ghost predicate Injective(node: Combine) {
    forall a, b, c, d :: node(a, b) == node(c, d) ==> a == c && b == d
  }

  // ---- the shape of the tree ----

  /** The number of nodes at a height over n leaves. */
  function Width(n: nat, height: nat): nat {
    if height == 0 then n else (Width(n, height - 1) + 1) / 2
  }

  /** The height of the root over n leaves. */
  function Height(n: nat): nat {
    if n <= 1 then 0 else Height((n + 1) / 2) + 1
  }

  /** The position of the first leaf below a node. */
  function First(height: nat, pos: nat): nat {
    if height == 0 then pos else First(height - 1, 2 * pos)
  }

  lemma {:induction false} FirstIsShift(height: nat, pos: nat)
    ensures First(height, pos) == pos * Pow2(height)
  {
    if height > 0 {
      FirstIsShift(height - 1, 2 * pos);
      assert 2 * pos * Pow2(height - 1) == pos * Pow2(height);
    }
  }

  /** A node exists exactly when its first leaf does. */
  lemma {:induction false} FirstInside(n: nat, height: nat, pos: nat)
    ensures First(height, pos) < n <==> pos < Width(n, height)
  {
    if height > 0 {
      FirstInside(n, height - 1, 2 * pos);
    }
  }

  /** CalcTreeWidth rounds n leaves up to whole nodes by adding and shifting. */
  method CalcTreeWidth(nTransactions: nat, height: nat) returns (width: nat)
    ensures width == Width(nTransactions, height)
  {
    WidthIsShift(nTransactions, height);
    width := (nTransactions + Pow2(height) - 1) / Pow2(height);
  }

  lemma {:induction false} WidthIsShift(n: nat, height: nat)
    ensures (n + Pow2(height) - 1) / Pow2(height) == Width(n, height)
  {
    var w, p := Width(n, height), Pow2(height);
    FirstInside(n, height, w);
    FirstIsShift(height, w);
    if w > 0 {
      FirstInside(n, height, w - 1);
      FirstIsShift(height, w - 1);
      assert (w - 1) * p == w * p - p;
    }
    QuotientIs(n + p - 1, p, w);
  }

  /** The loop that looks for the height of the root. */
  method CalcHeight(nTransactions: nat) returns (nHeight: nat)
    ensures nHeight == Height(nTransactions)
  {
    nHeight := 0;
    var width := CalcTreeWidth(nTransactions, nHeight);
    while width > 1
      invariant width == Width(nTransactions, nHeight)
      invariant nHeight + Height(width) == Height(nTransactions)
      decreases width
    {
      nHeight := nHeight + 1;
      width := CalcTreeWidth(nTransactions, nHeight);
    }
  }

  /** One node at the height of the root, and more than one below. */
  lemma {:induction false} RootWidth(n: nat, height: nat)
    requires n > 0 && height + Height(Width(n, height)) == Height(n)
    ensures Width(n, Height(n)) == 1
    decreases Height(Width(n, height))
  {
    FirstInside(n, height, 0);
    FirstIsShift(height, 0);
    if Width(n, height) > 1 {
      RootWidth(n, height + 1);
    }
  }

  lemma {:induction false} HeightIsLog(n: nat)
    requires n > 0
    ensures n <= Pow2(Height(n)) && (n > 1 ==> Pow2(Height(n) - 1) < n)
  {
    if n > 1 {
      HeightIsLog((n + 1) / 2);
    }
  }

  /** CalcHash: the hash of a node. */
  function NodeHash(node: Combine, vTxid: seq<Hash>, height: nat, pos: nat): Hash
    requires pos < Width(|vTxid|, height)
  {
    if height == 0 then vTxid[pos]
    else
      var left := NodeHash(node, vTxid, height - 1, 2 * pos);
      node(left, if 2 * pos + 1 < Width(|vTxid|, height - 1) then NodeHash(node, vTxid, height - 1, 2 * pos + 1) else left)
  }

  /** The Merkle root: the hash of the node at the top. */
  function MerkleRoot(node: Combine, vTxid: seq<Hash>): Hash
    requires vTxid != []
  {
    RootWidth(|vTxid|, 0);
    NodeHash(node, vTxid, Height(|vTxid|), 0)
  }

  // ---- the flat tree, level by level ----

  /** The level above: each pair hashed, the last node with itself when it has no partner. */
  function NextLevel(node: Combine, level: seq<Hash>): (next: seq<Hash>)
    ensures |next| == (|level| + 1) / 2
    ensures forall i :: 0 <= i < |next| ==> next[i] == Pair(node, level, i)
  {
    seq((|level| + 1) / 2, i requires 0 <= i < (|level| + 1) / 2 => Pair(node, level, i))
  }

  /** The hash of pair i of a level. */
  function Pair(node: Combine, level: seq<Hash>, i: nat): Hash
    requires i < (|level| + 1) / 2
  {
    node(level[2 * i], level[Min(2 * i + 1, |level| - 1)])
  }

  /** A level and all levels above it. */
  function Flat(node: Combine, level: seq<Hash>): seq<Hash>
    decreases |level|
  {
    if |level| <= 1 then level else level + Flat(node, NextLevel(node, level))
  }

  /** The siblings on the way up from a position. */
  function Branch(node: Combine, level: seq<Hash>, nIndex: nat): seq<Hash>
    decreases |level|
  {
    if |level| <= 1 then []
    else [level[Min(Xor1(nIndex), |level| - 1)]] + Branch(node, NextLevel(node, level), nIndex / 2)
  }

  /** Flipping the last bit. */
  function Xor1(n: nat): nat {
    if n % 2 == 0 then n + 1 else n - 1
  }

  /** Hashing up a branch. */
  function Climb(node: Combine, hash: Hash, vMerkleBranch: seq<Hash>, nIndex: int): Hash
    decreases |vMerkleBranch|
  {
    if vMerkleBranch == [] then hash
    else
      var otherside := vMerkleBranch[0];
      Climb(node, if nIndex % 2 == 1 then node(otherside, hash) else node(hash, otherside), vMerkleBranch[1..], nIndex / 2)
  }

  /** One level up in the flat tree. */
  lemma {:induction false} FlatStep(node: Combine, tree: seq<Hash>, j: nat, next: seq<Hash>)
    requires |tree| > j + 1 && next == NextLevel(node, tree[j..])
    ensures (tree + next)[..|tree|] + Flat(node, (tree + next)[|tree|..]) == tree[..j] + Flat(node, tree[j..])
  {
    assert (tree + next)[..|tree|] == tree[..j] + tree[j..] && (tree + next)[|tree|..] == next;
    ConcatAssociative(tree[..j], tree[j..], Flat(node, next));
  }

  /** Reading a level in the flat tree. */
  lemma {:induction false} LevelInFlat(node: Combine, tree: seq<Hash>, j: nat, level: seq<Hash>, i: nat)
    requires j <= |tree| && tree[j..] == Flat(node, level) && |level| > 1 && i < |level|
    ensures j + |level| <= |tree| && tree[j + i] == level[i]
    ensures tree[j + |level|..] == Flat(node, NextLevel(node, level))
  {
    assert tree[j + i] == tree[j..][i];
    assert tree[j + |level|..] == tree[j..][|level|..];
  }

  lemma {:induction false} BranchStep(node: Combine, level: seq<Hash>, nIndex: nat, before: seq<Hash>)
    requires |level| > 1
    ensures before + Branch(node, level, nIndex)
            == (before + [level[Min(Xor1(nIndex), |level| - 1)]]) + Branch(node, NextLevel(node, level), nIndex / 2)
  {
    var sibling := [level[Min(Xor1(nIndex), |level| - 1)]];
    ConcatAssociative(before, sibling, Branch(node, NextLevel(node, level), nIndex / 2));
  }

  /** The inner loop of BuildMerkleTree: hashes the last nSize entries in pairs. */
  method HashPairs(node: Combine, tree: seq<Hash>, j: nat, nSize: nat) returns (next: seq<Hash>)
    requires |tree| == j + nSize
    ensures next == NextLevel(node, tree[j..])
  {
    next := [];
    var i: nat := 0;
    while i < nSize
      invariant i == 2 * |next| && |next| <= (nSize + 1) / 2
      invariant forall k :: 0 <= k < |next| ==> next[k] == Pair(node, tree[j..], k)
      decreases nSize + 1 - i
    {
      var i2 := Min(i + 1, nSize - 1);
      next := next + [node(tree[j + i], tree[j + i2])];
      i := i + 2;
    }
  }

  class MerkleBlock {
    const node: Combine
    const vtx: seq<Hash>
    var vMerkleTree: seq<Hash>

    constructor (node: Combine, vtx: seq<Hash>)
      ensures this.node == node && this.vtx == vtx && vMerkleTree == []
    {
      this.node := node;
      this.vtx := vtx;
      vMerkleTree := [];
    }

    /** Fills the array level by level and returns the root, or 0 for no transactions. */
    method BuildMerkleTree() returns (root: Hash)
      modifies this
      ensures vMerkleTree == Flat(node, vtx)
      ensures root == if vtx == [] then 0 else MerkleRoot(node, vtx)
    {
      vMerkleTree := vtx;
      var j: nat, nSize: nat := 0, |vtx|;
      while nSize > 1
        invariant |vMerkleTree| == j + nSize
        invariant nSize > 0 || vtx == []
        invariant vMerkleTree[..j] + Flat(node, vMerkleTree[j..]) == Flat(node, vtx)
        decreases nSize
      {
        var next := HashPairs(node, vMerkleTree, j, nSize);
        FlatStep(node, vMerkleTree, j, next);
        vMerkleTree := vMerkleTree + next;
        j := j + nSize;
        nSize := (nSize + 1) / 2;
      }
      assert vMerkleTree[..j] + vMerkleTree[j..] == vMerkleTree;
      root := if vMerkleTree == [] then 0 else vMerkleTree[|vMerkleTree| - 1];
      if vtx != [] {
        Leaves(node, vtx);
        FlatEndsInRoot(node, vtx, vtx, 0);
      }
    }

    /** The siblings on the way up from transaction nIndex. */
    method GetMerkleBranch(nIndex: nat) returns (vMerkleBranch: seq<Hash>)
      requires vMerkleTree == [] || vMerkleTree == Flat(node, vtx)
      modifies this
      ensures vMerkleBranch == Branch(node, vtx, nIndex)
      ensures vMerkleTree == Flat(node, vtx)
    {
      if vMerkleTree == [] {
        var root := BuildMerkleTree();
      }
      vMerkleBranch := [];
      var j, nSize, index := 0, |vtx|, nIndex;
      ghost var level := vtx;
      while nSize > 1
        invariant 0 <= j && |level| == nSize && vMerkleTree == Flat(node, vtx)
        invariant j <= |vMerkleTree| && vMerkleTree[j..] == Flat(node, level)
        invariant vMerkleBranch + Branch(node, level, index) == Branch(node, vtx, nIndex)
        decreases nSize
      {
        var i := Min(Xor1(index), nSize - 1);
        LevelInFlat(node, vMerkleTree, j, level, i);
        BranchStep(node, level, index, vMerkleBranch);
        vMerkleBranch := vMerkleBranch + [vMerkleTree[j + i]];
        level := NextLevel(node, level);
        index := index / 2;
        j := j + nSize;
        nSize := (nSize + 1) / 2;
      }
    }
  }

  /** What a transaction hashes to with a branch, or 0 for the index -1. */
  method CheckMerkleBranch(node: Combine, hash: Hash, vMerkleBranch: seq<Hash>, nIndex: int) returns (r: Hash)
    ensures r == if nIndex == -1 then 0 else Climb(node, hash, vMerkleBranch, nIndex)
  {
    if nIndex == -1 {
      return 0;
    }
    r := hash;
    var index := nIndex;
    for k := 0 to |vMerkleBranch|
      invariant Climb(node, r, vMerkleBranch[k..], index) == Climb(node, hash, vMerkleBranch, nIndex)
    {
      var otherside := vMerkleBranch[k];
      assert vMerkleBranch[k..][1..] == vMerkleBranch[k + 1..];
      if index % 2 == 1 {
        r := node(otherside, r);
      } else {
        r := node(r, otherside);
      }
      index := index / 2;
    }
  }

  // ---- the two trees are the same ----

  predicate Holds(node: Combine, vTxid: seq<Hash>, height: nat, level: seq<Hash>, pos: nat)
    requires |level| == Width(|vTxid|, height) && pos < |level|
  {
    level[pos] == NodeHash(node, vTxid, height, pos)
  }

  /** A level holds the hashes of the nodes at its height. */
  predicate IsLevel(node: Combine, vTxid: seq<Hash>, height: nat, level: seq<Hash>) {
    && |level| == Width(|vTxid|, height)
    && forall pos {:trigger Holds(node, vTxid, height, level, pos)} ::
         0 <= pos < |level| ==> Holds(node, vTxid, height, level, pos)
  }

  lemma {:induction false} Leaves(node: Combine, vTxid: seq<Hash>)
    ensures IsLevel(node, vTxid, 0, vTxid)
  {
    forall pos | 0 <= pos < |vTxid| ensures Holds(node, vTxid, 0, vTxid, pos) {}
  }

  lemma {:induction false} LevelAbove(node: Combine, vTxid: seq<Hash>, height: nat, level: seq<Hash>)
    requires IsLevel(node, vTxid, height, level)
    ensures IsLevel(node, vTxid, height + 1, NextLevel(node, level))
  {
    var next, above := NextLevel(node, level), height + 1;
    forall pos | 0 <= pos < |next| ensures Holds(node, vTxid, above, next, pos)
    {
      assert Holds(node, vTxid, height, level, 2 * pos);
      assert Holds(node, vTxid, height, level, Min(2 * pos + 1, |level| - 1));
    }
  }

  /** The last entry of the flat tree is the hash that the recursive definition gives the root. */
  lemma {:induction false} FlatEndsInRoot(node: Combine, vTxid: seq<Hash>, level: seq<Hash>, height: nat)
    requires vTxid != [] && level != [] && IsLevel(node, vTxid, height, level)
    requires height + Height(|level|) == Height(|vTxid|)
    ensures Flat(node, level) != []
    ensures Flat(node, level)[|Flat(node, level)| - 1] == MerkleRoot(node, vTxid)
    decreases |level|
  {
    if |level| == 1 {
      assert Holds(node, vTxid, height, level, 0);
    } else {
      LevelAbove(node, vTxid, height, level);
      FlatEndsInRoot(node, vTxid, NextLevel(node, level), height + 1);
    }
  }

  // ---- branches ----

  /** The pair of a position, hashed. */
  lemma {:induction false} PairOf(node: Combine, level: seq<Hash>, nIndex: nat)
    requires nIndex < |level|
    ensures nIndex / 2 < |NextLevel(node, level)|
    ensures NextLevel(node, level)[nIndex / 2]
            == if nIndex % 2 == 1 then node(level[nIndex - 1], level[nIndex])
               else node(level[nIndex], level[Min(nIndex + 1, |level| - 1)])
  {
    var i := nIndex / 2;
    assert NextLevel(node, level)[i] == Pair(node, level, i);
  }

  /** One step up a branch. */
  lemma {:induction false} ClimbStep(node: Combine, level: seq<Hash>, nIndex: nat)
    requires nIndex < |level| && |level| > 1
    ensures var next, up := NextLevel(node, level), nIndex / 2;
      && |Branch(node, level, nIndex)| == 1 + |Branch(node, next, up)|
      && Climb(node, level[nIndex], Branch(node, level, nIndex), nIndex) == Climb(node, next[up], Branch(node, next, up), up)
  {
    PairOf(node, level, nIndex);
    var own := Branch(node, level, nIndex);
    assert own[0] == level[Min(Xor1(nIndex), |level| - 1)];
    assert own[1..] == Branch(node, NextLevel(node, level), nIndex / 2);
  }

  /** Climbing the branch of a position, from the hash at that position, reaches the root. */
  lemma {:induction false} BranchReachesRoot(node: Combine, vTxid: seq<Hash>, level: seq<Hash>, height: nat, nIndex: nat)
    requires vTxid != [] && IsLevel(node, vTxid, height, level) && nIndex < |level|
    requires height + Height(|level|) == Height(|vTxid|)
    ensures |Branch(node, level, nIndex)| == Height(|level|)
    ensures Climb(node, level[nIndex], Branch(node, level, nIndex), nIndex) == MerkleRoot(node, vTxid)
    decreases |level|
  {
    if |level| == 1 {
      assert Holds(node, vTxid, height, level, 0);
    } else {
      LevelAbove(node, vTxid, height, level);
      ClimbStep(node, level, nIndex);
      BranchReachesRoot(node, vTxid, NextLevel(node, level), height + 1, nIndex / 2);
    }
  }

  /** For every transaction of a block, its own branch leads to the Merkle root. */
  lemma {:induction false} OwnBranchChecks(node: Combine, vTxid: seq<Hash>, nIndex: nat)
    requires nIndex < |vTxid|
    ensures Climb(node, vTxid[nIndex], Branch(node, vTxid, nIndex), nIndex) == MerkleRoot(node, vTxid)
  {
    Leaves(node, vTxid);
    BranchReachesRoot(node, vTxid, vTxid, 0, nIndex);
  }

  /** With an injective hash nothing else of the right length leads there: not another
      transaction, and not another branch. */
  lemma {:induction false} ClimbFixesLevel(node: Combine, level: seq<Hash>, nIndex: nat, hash: Hash, branch: seq<Hash>)
    requires Injective(node) && nIndex < |level| && |branch| == |Branch(node, level, nIndex)|
    requires Climb(node, hash, branch, nIndex) == Climb(node, level[nIndex], Branch(node, level, nIndex), nIndex)
    ensures hash == level[nIndex] && branch == Branch(node, level, nIndex)
    decreases |level|
  {
    if |level| > 1 {
      var next, own := NextLevel(node, level), Branch(node, level, nIndex);
      PairOf(node, level, nIndex);
      assert own == [own[0]] + Branch(node, next, nIndex / 2);
      assert own[1..] == Branch(node, next, nIndex / 2);
      assert branch == [branch[0]] + branch[1..];
      ClimbStep(node, level, nIndex);
      var up := if nIndex % 2 == 1 then node(branch[0], hash) else node(hash, branch[0]);
      ClimbFixesLevel(node, next, nIndex / 2, up, branch[1..]);
    }
  }

  /** A branch of the right length proves a hash at a position exactly when it is the hash at that
      position with its own branch. */
  lemma {:induction false} BranchChecksIff(node: Combine, vTxid: seq<Hash>, nIndex: nat, hash: Hash, branch: seq<Hash>)
    requires Injective(node) && nIndex < |vTxid| && |branch| == Height(|vTxid|)
    ensures Climb(node, hash, branch, nIndex) == MerkleRoot(node, vTxid)
            <==> hash == vTxid[nIndex] && branch == Branch(node, vTxid, nIndex)
  {
    Leaves(node, vTxid);
    BranchReachesRoot(node, vTxid, vTxid, 0, nIndex);
    if Climb(node, hash, branch, nIndex) == MerkleRoot(node, vTxid) {
      ClimbFixesLevel(node, vTxid, nIndex, hash, branch);
    }
  }

  /** The root fixes all transactions of a block, once their number is known. */
  lemma {:induction false} RootFixesIds(node: Combine, a: seq<Hash>, b: seq<Hash>)
    requires Injective(node) && |a| == |b| > 0
    ensures MerkleRoot(node, a) == MerkleRoot(node, b) <==> a == b
  {
    if MerkleRoot(node, a) == MerkleRoot(node, b) {
      forall i | 0 <= i < |a| ensures a[i] == b[i] {
        Leaves(node, b);
        BranchReachesRoot(node, b, b, 0, i);
        BranchChecksIff(node, a, i, b[i], Branch(node, b, i));
      }
    }
  }
}
