/**
 The size of a partial Merkle tree, and when it meets the bounds that the comment before
 CPartialMerkleTree in src/main.h documents.
 */
module PartialMerkleSize {
  import opened Core
  import opened Numbers
  import opened Merkle
  import opened PartialMerkle

  // ---- the bound on the bits ----

  /** Nothing is marked below the last node at a height. */
  predicate LastUnmarked(vMatch: seq<bool>, h: nat)
    requires vMatch != []
  {
    forall i :: FirstOfLast(|vMatch|, h) <= i < |vMatch| ==> !vMatch[i]
  }

  /** The first leaf below the last node at a height. */
  function FirstOfLast(n: nat, h: nat): nat
    requires n > 0
  {
    WidthPositive(n, h);
    First(h, Width(n, h) - 1)
  }

  lemma {:induction false} WidthPositive(n: nat, h: nat)
    requires n > 0
    ensures Width(n, h) > 0
  {
    if h > 0 {
      WidthPositive(n, h - 1);
    }
  }

  lemma {:induction false} SelectedNone(vTxid: seq<Hash>, vMatch: seq<bool>, lo: nat, hi: nat)
    requires |vMatch| == |vTxid| && lo <= hi <= |vTxid|
    ensures Selected(vTxid, vMatch, lo, hi) == [] <==> forall i :: lo <= i < hi ==> !vMatch[i]
    decreases hi - lo
  {
    if lo < hi {
      SelectedNone(vTxid, vMatch, lo + 1, hi);
    }
  }

  lemma {:induction false} LastBelow(vTxid: seq<Hash>, vMatch: seq<bool>, h: nat)
    requires |vMatch| == |vTxid| > 0
    ensures Width(|vTxid|, h) > 0
    ensures Below(vTxid, vMatch, h, Width(|vTxid|, h) - 1) == [] <==> LastUnmarked(vMatch, h)
  {
    var n := |vTxid|;
    WidthPositive(n, h);
    var last := Width(n, h) - 1;
    FirstInside(n, h, last);
    FirstInside(n, h, last + 1);
    BelowIsSelected(vTxid, vMatch, h, last);
    SelectedNone(vTxid, vMatch, Start(n, h, last), n);
  }

  /** Up to a height, nothing is marked below a last node that has one child. */
  predicate NoLoneChild(vMatch: seq<bool>, height: nat)
    requires vMatch != []
  {
    forall h {:trigger LastUnmarked(vMatch, h)} :: 1 <= h <= height && Width(|vMatch|, h - 1) % 2 == 1 ==> LastUnmarked(vMatch, h)
  }

  /** Where nothing is marked below the last node, nothing is below the last nodes under it. */
  lemma {:induction false} UnmarkedBelow(vTxid: seq<Hash>, vMatch: seq<bool>, height: nat)
    requires |vMatch| == |vTxid| > 0 && LastUnmarked(vMatch, height)
    ensures NoLoneChild(vMatch, height)
  {
    if height > 0 {
      LastBelow(vTxid, vMatch, height);
      LastBelow(vTxid, vMatch, height - 1);
      UnmarkedBelow(vTxid, vMatch, height - 1);
    }
  }

  /** No node with one child is descended below a node, exactly if that is not the last one or
      nothing is marked below a last one with one child. */
  lemma {:induction false} OneChildIff(vTxid: seq<Hash>, vMatch: seq<bool>, height: nat, pos: nat)
    requires |vMatch| == |vTxid| > 0 && pos < Width(|vTxid|, height)
    ensures OneChild(vTxid, vMatch, height, pos) == 0
            <==> (pos == Width(|vTxid|, height) - 1 ==> NoLoneChild(vMatch, height))
  {
    var n := |vTxid|;
    OneChildAtMost(vTxid, vMatch, height, pos);
    if height > 0 && pos == Width(n, height) - 1 {
      LastBelow(vTxid, vMatch, height);
      if Below(vTxid, vMatch, height, pos) == [] {
        UnmarkedBelow(vTxid, vMatch, height);
      } else if 2 * pos + 1 < Width(n, height - 1) {
        OneChildAtMost(vTxid, vMatch, height - 1, 2 * pos);
        OneChildIff(vTxid, vMatch, height - 1, 2 * pos + 1);
      }
    }
  }

  /** The documented bound of 2N-1 bits for N hashes is met if and only if nothing is marked below
      a node with one child. */
  lemma {:induction false} DocumentedBoundIff(node: Combine, vTxid: seq<Hash>, vMatch: seq<bool>)
    requires |vMatch| == |vTxid| > 0
    ensures var b := BuiltTree(node, vTxid, vMatch);
      |b.bits| <= 2 * |b.hashes| - 1 <==> NoLoneChild(vMatch, Height(|vTxid|))
  {
    BuiltTreeSize(node, vTxid, vMatch);
    OneChildIff(vTxid, vMatch, Height(|vTxid|), 0);
  }

  /** It is not always met: marking the third of three
      transactions takes two hashes and four bits. */
  lemma {:induction false} BitsExceedDocumentedBound(node: Combine, vTxid: seq<Hash>)
    requires |vTxid| == 3
    ensures var b := Built(node, vTxid, [false, false, true], 2, 0);
      Height(3) == 2 && |b.hashes| == 2 && |b.bits| == 4 > 2 * |b.hashes| - 1
  {
    var vMatch := [false, false, true];
    assert Width(3, 0) == 3 && Width(3, 1) == 2 && Width(3, 2) == 1 && Height(1) == 0 && Height(2) == 1 && Height(3) == 2;
    assert Below(vTxid, vMatch, 0, 0) == [] && Below(vTxid, vMatch, 0, 1) == [] && Below(vTxid, vMatch, 0, 2) == [vTxid[2]];
    assert Below(vTxid, vMatch, 1, 0) == [] && Below(vTxid, vMatch, 1, 1) == [vTxid[2]];
    var leaf := Built(node, vTxid, vMatch, 0, 2);
    assert |leaf.bits| == 1 && |leaf.hashes| == 1;
    var left, right := Built(node, vTxid, vMatch, 1, 0), Built(node, vTxid, vMatch, 1, 1);
    assert |left.bits| == 1 && |left.hashes| == 1;
    assert right == Partial([true], []).Add(leaf).Add(Partial([], []));
    assert Built(node, vTxid, vMatch, 2, 0) == Partial([true], []).Add(left).Add(right);
  }


  // ---- the bound on the bytes ----

  /** The length of the count before a vector. */
  function CompactSize(n: nat): nat {
    if n < 253 then 1 else if n <= 0xFFFF then 3 else if n <= UINT_MAX then 5 else 9
  }

  /** The bytes of a serialized partial tree. */
  function TreeBytes(b: Partial): nat {
    var nBytes := (|b.bits| + 7) / 8;
    4 + CompactSize(|b.hashes|) + 32 * |b.hashes| + CompactSize(nBytes) + nBytes
  }

  /** The documented guarantee for N hashes: ten bytes and thirty-two and a quarter for each hash. */
  function DocumentedBytes(nHashes: nat): nat {
    10 + 32 * nHashes + (nHashes + 3) / 4
  }

  lemma {:induction false} PowMonotone(a: nat, b: nat)
    requires a <= b
    ensures Pow2(a) <= Pow2(b)
  {
    if a < b {
      PowMonotone(a, b - 1);
    }
  }

  lemma {:induction false} HeightAtMost(n: nat)
    requires 0 < n <= MAX_TRANSACTIONS
    ensures Height(n) <= 15
  {
    HeightIsLog(n);
    assert Pow2(5) == 32 && Pow2(10) == 1024 && Pow2(15) == 32768;
    if Height(n) > 15 {
      PowMonotone(15, Height(n) - 1);
    }
  }

  /** Whether a transaction below a node is marked. */
  predicate Marks(vMatch: seq<bool>, height: nat, pos: nat)
    requires pos < Width(|vMatch|, height)
  {
    if height == 0 then vMatch[pos]
    else
      || Marks(vMatch, height - 1, 2 * pos)
      || (2 * pos + 1 < Width(|vMatch|, height - 1) && Marks(vMatch, height - 1, 2 * pos + 1))
  }

  /** How many hashes a node takes: one where nothing below is marked, and at a leaf. */
  function HashesFor(vMatch: seq<bool>, height: nat, pos: nat): nat
    requires pos < Width(|vMatch|, height)
  {
    if height == 0 || !Marks(vMatch, height, pos) then 1
    else
      HashesFor(vMatch, height - 1, 2 * pos)
      + if 2 * pos + 1 < Width(|vMatch|, height - 1) then HashesFor(vMatch, height - 1, 2 * pos + 1) else 0
  }

  /** How many nodes with one child have a marked transaction below them. */
  function LoneChildren(vMatch: seq<bool>, height: nat, pos: nat): nat
    requires pos < Width(|vMatch|, height)
  {
    if height == 0 || !Marks(vMatch, height, pos) then 0
    else
      LoneChildren(vMatch, height - 1, 2 * pos)
      + if 2 * pos + 1 < Width(|vMatch|, height - 1) then LoneChildren(vMatch, height - 1, 2 * pos + 1) else 1
  }

  lemma {:induction false} MarksIff(vTxid: seq<Hash>, vMatch: seq<bool>, height: nat, pos: nat)
    requires |vMatch| == |vTxid| && pos < Width(|vTxid|, height)
    ensures Marks(vMatch, height, pos) <==> Below(vTxid, vMatch, height, pos) != []
  {
    if height > 0 {
      MarksIff(vTxid, vMatch, height - 1, 2 * pos);
      if 2 * pos + 1 < Width(|vTxid|, height - 1) {
        MarksIff(vTxid, vMatch, height - 1, 2 * pos + 1);
      }
    }
  }

  /** The size of a tree from the number of transactions and the marks alone. */
  lemma {:induction false} SizeFromMarks(node: Combine, vTxid: seq<Hash>, vMatch: seq<bool>, height: nat, pos: nat)
    requires |vMatch| == |vTxid| && pos < Width(|vTxid|, height)
    ensures |Built(node, vTxid, vMatch, height, pos).hashes| == HashesFor(vMatch, height, pos)
    ensures OneChild(vTxid, vMatch, height, pos) == LoneChildren(vMatch, height, pos)
  {
    MarksIff(vTxid, vMatch, height, pos);
    if height > 0 && Marks(vMatch, height, pos) {
      SizeFromMarks(node, vTxid, vMatch, height - 1, 2 * pos);
      if 2 * pos + 1 < Width(|vTxid|, height - 1) {
        SizeFromMarks(node, vTxid, vMatch, height - 1, 2 * pos + 1);
      }
    }
  }

  /** For a block of any size, with N hashes and k marked nodes with one child, both known from the
      marks: the guarantee holds if and only if the 2N-1+k flag bits take less than 253 bytes, or no
      more bytes than a quarter for each hash. */
  lemma {:induction false} DocumentedSizeIff(node: Combine, vTxid: seq<Hash>, vMatch: seq<bool>)
    requires |vMatch| == |vTxid| && 1 <= |vTxid| <= MAX_TRANSACTIONS
    ensures Width(|vMatch|, Height(|vMatch|)) == 1
    ensures var b := BuiltTree(node, vTxid, vMatch);
      var N, k := HashesFor(vMatch, Height(|vMatch|), 0), LoneChildren(vMatch, Height(|vMatch|), 0);
      && |b.hashes| == N && |b.bits| == 2 * N - 1 + k
      && (TreeBytes(b) <= DocumentedBytes(N) <==> 2 * N - 1 + k <= 2016 || 2 * N - 1 + k <= 8 * ((N + 3) / 4))
  {
    BuiltTreeSize(node, vTxid, vMatch);
    SizeFromMarks(node, vTxid, vMatch, Height(|vTxid|), 0);
    HeightAtMost(|vTxid|);
  }

  // ---- a block that exceeds it ----

  function AllMarked(n: nat): (vMatch: seq<bool>)
    ensures |vMatch| == n && forall i :: 0 <= i < n ==> vMatch[i]
  {
    seq(n, _ => true)
  }

  /** How many of the widths below a height are odd. */
  function OddWidths(n: nat, height: nat): nat {
    if height == 0 then 0 else OddWidths(n, height - 1) + Width(n, height - 1) % 2
  }

  lemma {:induction false} AllBelow(vTxid: seq<Hash>, height: nat, pos: nat)
    requires vTxid != [] && pos < Width(|vTxid|, height)
    ensures Below(vTxid, AllMarked(|vTxid|), height, pos) != []
  {
    var n, vMatch := |vTxid|, AllMarked(|vTxid|);
    FirstInside(n, height, pos);
    FirstGrows(height, pos);
    BelowIsSelected(vTxid, vMatch, height, pos);
    SelectedNone(vTxid, vMatch, Start(n, height, pos), End(n, height, pos));
    assert vMatch[Start(n, height, pos)];
  }

  /** When all transactions are marked, each has a hash. */
  lemma {:induction false} AllMarkedHashes(node: Combine, vTxid: seq<Hash>, height: nat, pos: nat)
    requires vTxid != [] && pos < Width(|vTxid|, height)
    ensures Start(|vTxid|, height, pos) + |Built(node, vTxid, AllMarked(|vTxid|), height, pos).hashes| == End(|vTxid|, height, pos)
  {
    AllBelow(vTxid, height, pos);
    if height > 0 {
      LeavesSplit(|vTxid|, height, pos);
      AllMarkedHashes(node, vTxid, height - 1, 2 * pos);
      if 2 * pos + 1 < Width(|vTxid|, height - 1) {
        AllMarkedHashes(node, vTxid, height - 1, 2 * pos + 1);
      }
    }
  }

  /** When all transactions are marked, every last node with one child counts. */
  lemma {:induction false} AllMarkedOneChild(vTxid: seq<Hash>, height: nat, pos: nat)
    requires vTxid != [] && pos < Width(|vTxid|, height)
    ensures OneChild(vTxid, AllMarked(|vTxid|), height, pos)
            == if pos == Width(|vTxid|, height) - 1 then OddWidths(|vTxid|, height) else 0
  {
    AllBelow(vTxid, height, pos);
    if height > 0 {
      AllMarkedOneChild(vTxid, height - 1, 2 * pos);
      if 2 * pos + 1 < Width(|vTxid|, height - 1) {
        AllMarkedOneChild(vTxid, height - 1, 2 * pos + 1);
      }
    }
  }

  lemma {:induction false} Widths1028()
    ensures Height(1028) == 11 && OddWidths(1028, 11) == 8
  {
    assert Width(1028, 1) == 514 && Width(1028, 2) == 257 && Width(1028, 3) == 129 && Width(1028, 4) == 65;
    assert Width(1028, 5) == 33 && Width(1028, 6) == 17 && Width(1028, 7) == 9 && Width(1028, 8) == 5;
    assert Width(1028, 9) == 3 && Width(1028, 10) == 2;
    assert OddWidths(1028, 2) == 0 && OddWidths(1028, 4) == 2 && OddWidths(1028, 6) == 4 && OddWidths(1028, 8) == 6;
    assert Height(1) == 0 && Height(3) == 2 && Height(9) == 4 && Height(33) == 6 && Height(129) == 8 && Height(514) == 10;
  }

  /** Marking all of 1028 transactions takes one byte more than is guaranteed. */
  lemma {:induction false} SizeExceedsDocumentedBound(node: Combine, vTxid: seq<Hash>)
    requires |vTxid| == 1028
    ensures var b := BuiltTree(node, vTxid, AllMarked(1028));
      |b.hashes| == 1028 && |b.bits| == 2063 && TreeBytes(b) == DocumentedBytes(1028) + 1
  {
    Widths1028();
    RootSelects(vTxid, AllMarked(1028));
    AllMarkedHashes(node, vTxid, 11, 0);
    AllMarkedOneChild(vTxid, 11, 0);
    BuiltTreeSize(node, vTxid, AllMarked(1028));
  }
}
