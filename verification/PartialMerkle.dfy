/**
 The partial Merkle tree of BIP 37 (CPartialMerkleTree in src/main.h and src/main.cpp): a part of
 a block's Merkle tree that proves a selection of its transactions.
 */
module PartialMerkle {
  import opened Bits
  import opened Core
  import opened Numbers
  import opened Merkle


  /** No serialized transaction is shorter than 60 bytes. */
  const MAX_TRANSACTIONS := MAX_BLOCK_SIZE / 60

  // ---- what a tree stands for ----

  /** The marked transactions among those from lo up to hi, in order. */
  function Selected(vTxid: seq<Hash>, vMatch: seq<bool>, lo: nat, hi: nat): seq<Hash>
    requires |vMatch| == |vTxid| && lo <= hi <= |vTxid|
    decreases hi - lo
  {
    if lo == hi then []
    else (if vMatch[lo] then [vTxid[lo]] else []) + Selected(vTxid, vMatch, lo + 1, hi)
  }

  lemma {:induction false} SelectedSplit(vTxid: seq<Hash>, vMatch: seq<bool>, lo: nat, mid: nat, hi: nat)
    requires |vMatch| == |vTxid| && lo <= mid <= hi <= |vTxid|
    ensures Selected(vTxid, vMatch, lo, hi) == Selected(vTxid, vMatch, lo, mid) + Selected(vTxid, vMatch, mid, hi)
    ensures |Selected(vTxid, vMatch, lo, mid)| <= mid - lo
    decreases mid - lo
  {
    if lo < mid {
      SelectedSplit(vTxid, vMatch, lo + 1, mid, hi);
    }
  }

  /** The leaves below a node are those from Start up to End. */
  function Start(n: nat, height: nat, pos: nat): nat {
    Min(First(height, pos), n)
  }

  function End(n: nat, height: nat, pos: nat): nat {
    Start(n, height, pos + 1)
  }

  lemma {:induction false} FirstMonotone(height: nat, a: nat, b: nat)
    requires a <= b
    ensures First(height, a) <= First(height, b)
  {
    if height > 0 {
      FirstMonotone(height - 1, 2 * a, 2 * b);
    }
  }

  /** The leaves below a node are those below its left child, followed by those below its right
      child if there is one. */
  lemma {:induction false} LeavesSplit(n: nat, height: nat, pos: nat)
    requires height > 0
    ensures var mid := End(n, height - 1, 2 * pos);
      && Start(n, height, pos) == Start(n, height - 1, 2 * pos) <= mid <= End(n, height, pos)
      && mid == Start(n, height - 1, 2 * pos + 1)
      && (if 2 * pos + 1 < Width(n, height - 1) then End(n, height - 1, 2 * pos + 1) else mid) == End(n, height, pos)
  {
    FirstMonotone(height - 1, 2 * pos, 2 * pos + 1);
    FirstMonotone(height - 1, 2 * pos + 1, 2 * pos + 2);
    FirstInside(n, height - 1, 2 * pos + 1);
  }

  /** The marked transactions below a node. */
  function Below(vTxid: seq<Hash>, vMatch: seq<bool>, height: nat, pos: nat): seq<Hash>
    requires |vMatch| == |vTxid| && pos < Width(|vTxid|, height)
  {
    if height == 0 then if vMatch[pos] then [vTxid[pos]] else []
    else
      Below(vTxid, vMatch, height - 1, 2 * pos)
      + if 2 * pos + 1 < Width(|vTxid|, height - 1) then Below(vTxid, vMatch, height - 1, 2 * pos + 1) else []
  }

  lemma {:induction false} BelowIsSelected(vTxid: seq<Hash>, vMatch: seq<bool>, height: nat, pos: nat)
    requires |vMatch| == |vTxid| && pos < Width(|vTxid|, height)
    ensures Start(|vTxid|, height, pos) <= End(|vTxid|, height, pos)
    ensures Below(vTxid, vMatch, height, pos)
            == Selected(vTxid, vMatch, Start(|vTxid|, height, pos), End(|vTxid|, height, pos))
  {
    var n := |vTxid|;
    FirstMonotone(height, pos, pos + 1);
    if height == 0 {
      assert Selected(vTxid, vMatch, pos + 1, pos + 1) == [];
    } else {
      LeavesSplit(n, height, pos);
      SelectedSplit(vTxid, vMatch, Start(n, height, pos), End(n, height - 1, 2 * pos), End(n, height, pos));
      BelowIsSelected(vTxid, vMatch, height - 1, 2 * pos);
      if 2 * pos + 1 < Width(n, height - 1) {
        BelowIsSelected(vTxid, vMatch, height - 1, 2 * pos + 1);
      }
    }
  }

  // ---- building ----

  datatype Partial = Partial(bits: seq<bool>, hashes: seq<Hash>) {
    function Add(more: Partial): Partial {
      Partial(bits + more.bits, hashes + more.hashes)
    }

    function Drop(nBits: nat, nHashes: nat): Partial
      requires nBits <= |bits| && nHashes <= |hashes|
    {
      Partial(bits[nBits..], hashes[nHashes..])
    }
  }

  lemma {:induction false} AddNothing(p: Partial)
    ensures p.Add(Partial([], [])) == p
  {
    assert p.bits + [] == p.bits && p.hashes + [] == p.hashes;
  }

  lemma {:induction false} AddAssociative(p: Partial, q: Partial, r: Partial)
    ensures p.Add(q).Add(r) == p.Add(q.Add(r))
  {
    assert (p.bits + q.bits) + r.bits == p.bits + (q.bits + r.bits);
    assert (p.hashes + q.hashes) + r.hashes == p.hashes + (q.hashes + r.hashes);
  }

  /** What TraverseAndBuild adds for a node. */
  function Built(node: Combine, vTxid: seq<Hash>, vMatch: seq<bool>, height: nat, pos: nat): Partial
    requires |vMatch| == |vTxid| && pos < Width(|vTxid|, height)
  {
    var fParentOfMatch := Below(vTxid, vMatch, height, pos) != [];
    if height == 0 || !fParentOfMatch then
      Partial([fParentOfMatch], [NodeHash(node, vTxid, height, pos)])
    else
      var left := Built(node, vTxid, vMatch, height - 1, 2 * pos);
      var right := if 2 * pos + 1 < Width(|vTxid|, height - 1) then Built(node, vTxid, vMatch, height - 1, 2 * pos + 1)
                   else Partial([], []);
      Partial([true], []).Add(left).Add(right)
  }

  /** What is built for a whole block. */
  function BuiltTree(node: Combine, vTxid: seq<Hash>, vMatch: seq<bool>): Partial
    requires |vMatch| == |vTxid| > 0
  {
    RootWidth(|vTxid|, 0);
    Built(node, vTxid, vMatch, Height(|vTxid|), 0)
  }

  // ---- extracting ----

  /** What TraverseAndExtract returns for a node: its hash, what is left to read, the matches. */
  datatype Extracted = Extracted(hash: Hash, rest: Partial, vMatch: seq<Hash>)

  /** TraverseAndExtract, or nothing if bits or hashes run out. */
  function Extract(node: Combine, n: nat, p: Partial, height: nat, pos: nat): Option<Extracted>
    decreases height, 1
  {
    if p.bits == [] then None
    else if height == 0 || !p.bits[0] then
      if p.hashes == [] then None
      else Some(Extracted(p.hashes[0], p.Drop(1, 1), if height == 0 && p.bits[0] then [p.hashes[0]] else []))
    else ExtractChildren(node, n, p.Drop(1, 0), height, pos)
  }

  function ExtractChildren(node: Combine, n: nat, p: Partial, height: nat, pos: nat): Option<Extracted>
    requires height > 0
    decreases height, 0
  {
    match Extract(node, n, p, height - 1, 2 * pos)
    case None => None
    case Some(left) =>
      if 2 * pos + 1 < Width(n, height - 1) then
        match Extract(node, n, left.rest, height - 1, 2 * pos + 1)
        case None => None
        case Some(right) => Some(Extracted(node(left.hash, right.hash), right.rest, left.vMatch + right.vMatch))
      else Some(left.(hash := node(left.hash, left.hash)))
  }

  /** ExtractMatches, or nothing if it reports failure. */
  function ExtractAll(node: Combine, n: nat, p: Partial): Option<Extracted> {
    if n == 0 || n > MAX_TRANSACTIONS || |p.hashes| > n || |p.bits| < |p.hashes| then None
    else
      match Extract(node, n, p, Height(n), 0)
      case None => None
      case Some(e) =>
        if (|p.bits| - |e.rest.bits| + 7) / 8 != (|p.bits| + 7) / 8 || e.rest.hashes != [] then None else Some(e)
  }

  class PartialMerkleTree {
    const node: Combine
    var nTransactions: nat
    var vBits: seq<bool>
    var vHash: seq<Hash>
    var fBad: bool

    function Contents(): Partial
      reads `vBits, `vHash
    {
      Partial(vBits, vHash)
    }

    /** The tree that proves the marked transactions of a block. */
    constructor Build(node: Combine, vTxid: seq<Hash>, vMatch: seq<bool>)
      requires |vMatch| == |vTxid| > 0
      ensures this.node == node && nTransactions == |vTxid| && !fBad
      ensures Contents() == BuiltTree(node, vTxid, vMatch)
    {
      this.node := node;
      nTransactions := |vTxid|;
      vBits, vHash, fBad := [], [], false;
      new;
      var nHeight := CalcHeight(nTransactions);
      RootWidth(nTransactions, 0);
      TraverseAndBuild(nHeight, 0, vTxid, vMatch);
    }

    /** A tree read from the network. */
    constructor Read(node: Combine, nTransactions: nat, vBits: seq<bool>, vHash: seq<Hash>)
      ensures this.node == node && this.nTransactions == nTransactions && !fBad
      ensures Contents() == Partial(vBits, vHash)
    {
      this.node := node;
      this.nTransactions := nTransactions;
      this.vBits := vBits;
      this.vHash := vHash;
      fBad := false;
    }

    /** The hash of a node, by the recursion of CalcHash. */
    method CalcHash(height: nat, pos: nat, vTxid: seq<Hash>) returns (hash: Hash)
      requires |vTxid| == nTransactions && pos < Width(nTransactions, height)
      ensures hash == NodeHash(node, vTxid, height, pos)
    {
      if height == 0 {
        return vTxid[pos];
      }
      var left := CalcHash(height - 1, pos * 2, vTxid);
      var right;
      var width := CalcTreeWidth(nTransactions, height - 1);
      if pos * 2 + 1 < width {
        right := CalcHash(height - 1, pos * 2 + 1, vTxid);
      } else {
        right := left;
      }
      return node(left, right);
    }

    /** Whether a transaction below the node is marked. */
    method ParentOfMatch(height: nat, pos: nat, vTxid: seq<Hash>, vMatch: seq<bool>) returns (fParentOfMatch: bool)
      requires |vMatch| == |vTxid| == nTransactions && pos < Width(nTransactions, height)
      ensures fParentOfMatch == (Below(vTxid, vMatch, height, pos) != [])
    {
      FirstIsShift(height, pos);
      FirstIsShift(height, pos + 1);
      FirstInside(nTransactions, height, pos);
      BelowIsSelected(vTxid, vMatch, height, pos);
      fParentOfMatch := false;
      var p := pos * Pow2(height);
      ghost var lo, hi := Start(nTransactions, height, pos), End(nTransactions, height, pos);
      while p < (pos + 1) * Pow2(height) && p < nTransactions
        invariant lo <= p <= hi
        invariant fParentOfMatch == (Selected(vTxid, vMatch, lo, p) != [])
        decreases hi - p
      {
        SelectedSplit(vTxid, vMatch, lo, p, p + 1);
        assert Selected(vTxid, vMatch, p + 1, p + 1) == [];
        fParentOfMatch := fParentOfMatch || vMatch[p];
        p := p + 1;
      }
    }

    method TraverseAndBuild(height: nat, pos: nat, vTxid: seq<Hash>, vMatch: seq<bool>)
      requires |vMatch| == |vTxid| == nTransactions && pos < Width(nTransactions, height)
      modifies this`vBits, this`vHash
      ensures Contents() == old(Contents()).Add(Built(node, vTxid, vMatch, height, pos))
      decreases height, 1
    {
      ghost var before := Contents();
      var fParentOfMatch := ParentOfMatch(height, pos, vTxid, vMatch);
      vBits := vBits + [fParentOfMatch];
      if height == 0 || !fParentOfMatch {
        var hash := CalcHash(height, pos, vTxid);
        vHash := vHash + [hash];
      } else {
        ghost var bit, left := Partial([true], []), Built(node, vTxid, vMatch, height - 1, 2 * pos);
        assert Contents() == before.Add(bit);
        ghost var right := BuildChildren(height, pos, vTxid, vMatch);
        AddAssociative(before, bit, left);
        AddAssociative(before, bit.Add(left), right);
      }
    }

    /** Adds the children of a node. */
    method BuildChildren(height: nat, pos: nat, vTxid: seq<Hash>, vMatch: seq<bool>) returns (ghost right: Partial)
      requires |vMatch| == |vTxid| == nTransactions && 0 < height && pos < Width(nTransactions, height)
      modifies this`vBits, this`vHash
      ensures right == if 2 * pos + 1 < Width(nTransactions, height - 1) then Built(node, vTxid, vMatch, height - 1, 2 * pos + 1)
                       else Partial([], [])
      ensures Contents() == old(Contents()).Add(Built(node, vTxid, vMatch, height - 1, 2 * pos)).Add(right)
      decreases height, 0
    {
      TraverseAndBuild(height - 1, pos * 2, vTxid, vMatch);
      right := Partial([], []);
      AddNothing(Contents());
      var width := CalcTreeWidth(nTransactions, height - 1);
      if pos * 2 + 1 < width {
        right := Built(node, vTxid, vMatch, height - 1, 2 * pos + 1);
        TraverseAndBuild(height - 1, pos * 2 + 1, vTxid, vMatch);
      }
    }

    /** Reads one node. When bits or hashes run out, the flag is set and the reading goes on with a
        null hash; the values it returns then mean nothing. */
    method TraverseAndExtract(height: nat, pos: nat, nBits: nat, nHash: nat)
      returns (hash: Hash, nBitsUsed: nat, nHashUsed: nat, vMatch: seq<Hash>)
      requires nBits <= |vBits| && nHash <= |vHash|
      modifies this`fBad
      ensures nBitsUsed <= |vBits| && nHashUsed <= |vHash|
      ensures fBad == (old(fBad) || Extract(node, nTransactions, Contents().Drop(nBits, nHash), height, pos) == None)
      ensures !fBad ==> Extract(node, nTransactions, Contents().Drop(nBits, nHash), height, pos)
                        == Some(Extracted(hash, Contents().Drop(nBitsUsed, nHashUsed), vMatch))
      decreases height, 1
    {
      nBitsUsed, nHashUsed, vMatch := nBits, nHash, [];
      if nBitsUsed >= |vBits| {
        fBad := true;
        return 0, nBitsUsed, nHashUsed, vMatch;
      }
      ghost var p := Contents().Drop(nBits, nHash);
      var fParentOfMatch := vBits[nBitsUsed];
      nBitsUsed := nBitsUsed + 1;
      if height == 0 || !fParentOfMatch {
        if nHashUsed >= |vHash| {
          fBad := true;
          return 0, nBitsUsed, nHashUsed, vMatch;
        }
        hash := vHash[nHashUsed];
        nHashUsed := nHashUsed + 1;
        assert p.Drop(1, 1) == Contents().Drop(nBitsUsed, nHashUsed);
        if height == 0 && fParentOfMatch {
          vMatch := [hash];
        }
      } else {
        hash, nBitsUsed, nHashUsed, vMatch := TraverseChildren(height, pos, nBitsUsed, nHashUsed);
        assert p.Drop(1, 0) == Contents().Drop(nBits + 1, nHash);
      }
    }

    /** Reads the children of a node. */
    method TraverseChildren(height: nat, pos: nat, nBits: nat, nHash: nat)
      returns (hash: Hash, nBitsUsed: nat, nHashUsed: nat, vMatch: seq<Hash>)
      requires nBits <= |vBits| && nHash <= |vHash| && height > 0
      modifies this`fBad
      ensures nBitsUsed <= |vBits| && nHashUsed <= |vHash|
      ensures var e := ExtractChildren(node, nTransactions, Contents().Drop(nBits, nHash), height, pos);
        && fBad == (old(fBad) || e == None)
        && (!fBad ==> e == Some(Extracted(hash, Contents().Drop(nBitsUsed, nHashUsed), vMatch)))
      decreases height, 0
    {
      var left;
      left, nBitsUsed, nHashUsed, vMatch := TraverseAndExtract(height - 1, pos * 2, nBits, nHash);
      var right := left;
      var width := CalcTreeWidth(nTransactions, height - 1);
      if pos * 2 + 1 < width {
        var more;
        right, nBitsUsed, nHashUsed, more := TraverseAndExtract(height - 1, pos * 2 + 1, nBitsUsed, nHashUsed);
        vMatch := vMatch + more;
      }
      hash := node(left, right);
    }

    /** The Merkle root and the matched transactions, or the root 0 on failure. */
    method ExtractMatches() returns (root: Hash, vMatch: seq<Hash>)
      modifies this`fBad
      ensures root == if old(fBad) || ExtractAll(node, nTransactions, Contents()) == None then 0
                      else ExtractAll(node, nTransactions, Contents()).value.hash
      ensures !old(fBad) && ExtractAll(node, nTransactions, Contents()).Some? ==>
                vMatch == ExtractAll(node, nTransactions, Contents()).value.vMatch
      ensures Injective(node) && root != 0 ==> TrueOfBlocks(node, nTransactions, root, vMatch)
    {
      vMatch := [];
      if nTransactions == 0 || nTransactions > MAX_TRANSACTIONS || |vHash| > nTransactions || |vBits| < |vHash| {
        return 0, vMatch;
      }
      var nHeight := CalcHeight(nTransactions);
      assert Contents().Drop(0, 0) == Contents();
      var hashMerkleRoot, nBitsUsed, nHashUsed;
      hashMerkleRoot, nBitsUsed, nHashUsed, vMatch := TraverseAndExtract(nHeight, 0, 0, 0);
      if fBad || (nBitsUsed + 7) / 8 != (|vBits| + 7) / 8 || nHashUsed != |vHash| {
        return 0, vMatch;
      }
      if Injective(node) {
        AcceptedTrueOfBlocks(node, nTransactions, Contents());
      }
      return hashMerkleRoot, vMatch;
    }
  }

  // ---- a built tree gives back what was put in ----

  lemma {:induction false} DropFirst(p: Partial, left: Partial, right: Partial, rest: Partial)
    requires p == Partial([true], []).Add(left).Add(right).Add(rest)
    ensures p.bits != [] && p.bits[0] && p.Drop(1, 0) == left.Add(right.Add(rest))
  {
    AddAssociative(Partial([true], []), left, right);
    AddAssociative(Partial([true], []), left.Add(right), rest);
    AddAssociative(left, right, rest);
    assert ([true] + left.Add(right).Add(rest).bits)[1..] == left.Add(right).Add(rest).bits;
  }

  lemma {:induction false} BuiltInner(node: Combine, vTxid: seq<Hash>, vMatch: seq<bool>, height: nat, pos: nat) returns (left: Partial, right: Partial)
    requires |vMatch| == |vTxid| && 0 < height && pos < Width(|vTxid|, height) && Below(vTxid, vMatch, height, pos) != []
    ensures Built(node, vTxid, vMatch, height, pos) == Partial([true], []).Add(left).Add(right)
    ensures left == Built(node, vTxid, vMatch, height - 1, 2 * pos)
    ensures right == if 2 * pos + 1 < Width(|vTxid|, height - 1) then Built(node, vTxid, vMatch, height - 1, 2 * pos + 1)
                     else Partial([], [])
  {
    left := Built(node, vTxid, vMatch, height - 1, 2 * pos);
    right := if 2 * pos + 1 < Width(|vTxid|, height - 1) then Built(node, vTxid, vMatch, height - 1, 2 * pos + 1)
             else Partial([], []);
  }

  lemma {:induction false} StoppedReadsBack(node: Combine, vTxid: seq<Hash>, vMatch: seq<bool>, height: nat, pos: nat, p: Partial, rest: Partial)
    requires |vMatch| == |vTxid| && pos < Width(|vTxid|, height)
    requires height == 0 || Below(vTxid, vMatch, height, pos) == []
    requires p == Built(node, vTxid, vMatch, height, pos).Add(rest)
    ensures Extract(node, |vTxid|, p, height, pos)
            == Some(Extracted(NodeHash(node, vTxid, height, pos), rest, Below(vTxid, vMatch, height, pos)))
  {
    assert p.Drop(1, 1) == rest;
  }

  /** Reading what was built for a node returns its hash and the marked transactions below it, and
      leaves what follows. */
  lemma {:induction false} BuiltReadsBack(node: Combine, vTxid: seq<Hash>, vMatch: seq<bool>, height: nat, pos: nat,
                                          p: Partial, rest: Partial)
    requires |vMatch| == |vTxid| && pos < Width(|vTxid|, height)
    requires p == Built(node, vTxid, vMatch, height, pos).Add(rest)
    ensures Extract(node, |vTxid|, p, height, pos)
            == Some(Extracted(NodeHash(node, vTxid, height, pos), rest, Below(vTxid, vMatch, height, pos)))
    decreases height, 1
  {
    if height == 0 || Below(vTxid, vMatch, height, pos) == [] {
      StoppedReadsBack(node, vTxid, vMatch, height, pos, p, rest);
    } else {
      var left, right := BuiltInner(node, vTxid, vMatch, height, pos);
      DropFirst(p, left, right, rest);
      ChildrenReadBack(node, vTxid, vMatch, height, pos, right, rest);
    }
  }

  lemma {:induction false} ChildrenReadBack(node: Combine, vTxid: seq<Hash>, vMatch: seq<bool>, height: nat, pos: nat,
                                            right: Partial, rest: Partial)
    requires |vMatch| == |vTxid| && 0 < height && pos < Width(|vTxid|, height)
    requires right == if 2 * pos + 1 < Width(|vTxid|, height - 1) then Built(node, vTxid, vMatch, height - 1, 2 * pos + 1)
                      else Partial([], [])
    ensures ExtractChildren(node, |vTxid|, Built(node, vTxid, vMatch, height - 1, 2 * pos).Add(right.Add(rest)), height, pos)
            == Some(Extracted(NodeHash(node, vTxid, height, pos), rest, Below(vTxid, vMatch, height, pos)))
    decreases height, 0
  {
    var p := Built(node, vTxid, vMatch, height - 1, 2 * pos).Add(right.Add(rest));
    BuiltReadsBack(node, vTxid, vMatch, height - 1, 2 * pos, p, right.Add(rest));
    if 2 * pos + 1 < Width(|vTxid|, height - 1) {
      BuiltReadsBack(node, vTxid, vMatch, height - 1, 2 * pos + 1, right.Add(rest), rest);
    } else {
      assert right.Add(rest) == rest;
      assert Below(vTxid, vMatch, height, pos) == Below(vTxid, vMatch, height - 1, 2 * pos);
    }
  }

  // ---- its size ----

  lemma {:induction false} FirstGrows(height: nat, pos: nat)
    ensures First(height, pos) < First(height, pos + 1)
  {
    if height > 0 {
      FirstGrows(height - 1, 2 * pos);
      FirstMonotone(height - 1, 2 * pos + 1, 2 * pos + 2);
    }
  }

  /** How many nodes with one child are descended at and below a node. */
  function OneChild(vTxid: seq<Hash>, vMatch: seq<bool>, height: nat, pos: nat): nat
    requires |vMatch| == |vTxid| && pos < Width(|vTxid|, height)
  {
    if height == 0 || Below(vTxid, vMatch, height, pos) == [] then 0
    else
      OneChild(vTxid, vMatch, height - 1, 2 * pos)
      + if 2 * pos + 1 < Width(|vTxid|, height - 1) then OneChild(vTxid, vMatch, height - 1, 2 * pos + 1) else 1
  }

  /** At least one hash; at most one for each transaction below; at most one more than the height
      for each marked transaction; and exactly two bits a hash less one, except that every node
      with one child needs one more. */
  predicate SizeOk(b: Partial, leaves: nat, matches: nat, height: nat, oneChild: nat) {
    && 1 <= |b.hashes| <= leaves
    && |b.hashes| <= 1 + matches * height
    && |b.bits| == 2 * |b.hashes| - 1 + oneChild
  }

  lemma {:induction false} SizesAdd(matches: nat, left: nat, right: nat, height: nat)
    requires matches == left + right > 0 && height > 0
    ensures (1 + left * (height - 1)) + (1 + right * (height - 1)) <= 1 + matches * height
    ensures left * (height - 1) <= left * height
  {
    assert left * (height - 1) == left * height - left && right * (height - 1) == right * height - right;
    assert matches * height == left * height + right * height;
  }

  lemma {:induction false} BuiltSize(node: Combine, vTxid: seq<Hash>, vMatch: seq<bool>, height: nat, pos: nat)
    requires |vMatch| == |vTxid| && pos < Width(|vTxid|, height)
    ensures End(|vTxid|, height, pos) > Start(|vTxid|, height, pos)
    ensures SizeOk(Built(node, vTxid, vMatch, height, pos), End(|vTxid|, height, pos) - Start(|vTxid|, height, pos),
                   |Below(vTxid, vMatch, height, pos)|, height, OneChild(vTxid, vMatch, height, pos))
  {
    var n := |vTxid|;
    FirstGrows(height, pos);
    FirstInside(n, height, pos);
    if height > 0 && Below(vTxid, vMatch, height, pos) != [] {
      LeavesSplit(n, height, pos);
      BuiltSize(node, vTxid, vMatch, height - 1, 2 * pos);
      var left := |Below(vTxid, vMatch, height - 1, 2 * pos)|;
      SizesAdd(|Below(vTxid, vMatch, height, pos)|, left, |Below(vTxid, vMatch, height, pos)| - left, height);
      if 2 * pos + 1 < Width(n, height - 1) {
        BuiltSize(node, vTxid, vMatch, height - 1, 2 * pos + 1);
      }
    }
  }

  /** There is at most one such node at each height, the last one. */
  lemma {:induction false} OneChildAtMost(vTxid: seq<Hash>, vMatch: seq<bool>, height: nat, pos: nat)
    requires |vMatch| == |vTxid| && pos < Width(|vTxid|, height)
    ensures OneChild(vTxid, vMatch, height, pos) <= if pos == Width(|vTxid|, height) - 1 then height else 0
  {
    if height > 0 {
      OneChildAtMost(vTxid, vMatch, height - 1, 2 * pos);
      if 2 * pos + 1 < Width(|vTxid|, height - 1) {
        OneChildAtMost(vTxid, vMatch, height - 1, 2 * pos + 1);
      }
    }
  }

  /** For a block with any selection of its transactions: the tree that is built, also with
      padding bits up to the next byte, is accepted, and yields the Merkle root and exactly the
      selected transactions in their order. */
  lemma {:induction false} BuiltExtracts(node: Combine, vTxid: seq<Hash>, vMatch: seq<bool>, padding: seq<bool>)
    requires |vMatch| == |vTxid| && 1 <= |vTxid| <= MAX_TRANSACTIONS
    requires (|BuiltTree(node, vTxid, vMatch).bits| + |padding| + 7) / 8 == (|BuiltTree(node, vTxid, vMatch).bits| + 7) / 8
    ensures ExtractAll(node, |vTxid|, BuiltTree(node, vTxid, vMatch).Add(Partial(padding, [])))
            == Some(Extracted(MerkleRoot(node, vTxid), Partial(padding, []), Selected(vTxid, vMatch, 0, |vTxid|)))
  {
    var b, rest := BuiltTree(node, vTxid, vMatch), Partial(padding, []);
    RootWidth(|vTxid|, 0);
    RootSelects(vTxid, vMatch);
    BuiltTreeSize(node, vTxid, vMatch);
    BuiltReadsBack(node, vTxid, vMatch, Height(|vTxid|), 0, b.Add(rest), rest);
  }

  lemma {:induction false} RootSelects(vTxid: seq<Hash>, vMatch: seq<bool>)
    requires |vMatch| == |vTxid| > 0
    ensures Width(|vTxid|, Height(|vTxid|)) == 1
    ensures Start(|vTxid|, Height(|vTxid|), 0) == 0 && End(|vTxid|, Height(|vTxid|), 0) == |vTxid|
    ensures Below(vTxid, vMatch, Height(|vTxid|), 0) == Selected(vTxid, vMatch, 0, |vTxid|)
  {
    var n, nHeight := |vTxid|, Height(|vTxid|);
    RootWidth(n, 0);
    FirstInside(n, nHeight, 1);
    FirstIsShift(nHeight, 0);
    BelowIsSelected(vTxid, vMatch, nHeight, 0);
  }

  /** How many hashes and bits prove a selection of a block's transactions. */
  lemma {:induction false} BuiltTreeSize(node: Combine, vTxid: seq<Hash>, vMatch: seq<bool>)
    requires |vMatch| == |vTxid| > 0
    ensures Width(|vTxid|, Height(|vTxid|)) == 1
    ensures var b, n := BuiltTree(node, vTxid, vMatch), |vTxid|;
      && 1 <= |b.hashes| <= n
      && |b.hashes| <= 1 + |Selected(vTxid, vMatch, 0, n)| * Height(n)
      && |b.bits| == 2 * |b.hashes| - 1 + OneChild(vTxid, vMatch, Height(n), 0)
      && OneChild(vTxid, vMatch, Height(n), 0) <= Height(n)
  {
    RootSelects(vTxid, vMatch);
    BuiltSize(node, vTxid, vMatch, Height(|vTxid|), 0);
    OneChildAtMost(vTxid, vMatch, Height(|vTxid|), 0);
  }

  // ---- the flag bits as bytes ----

  /** The bits that a reader finds in some bytes, the least significant bit of each first. */
  function Unpacked(vBytes: seq<bv8>): (vBits: seq<bool>)
    ensures |vBits| == 8 * |vBytes|
    ensures forall p :: 0 <= p < |vBits| ==> vBits[p] == BitOf(vBytes[p / 8], p % 8)
  {
    seq(8 * |vBytes|, p requires 0 <= p < 8 * |vBytes| => BitOf(vBytes[p / 8], p % 8))
  }

  /** As few bytes as possible, with the bits first when they are read again. */
  predicate IsPacked(vBits: seq<bool>, vBytes: seq<bv8>) {
    |vBytes| == (|vBits| + 7) / 8 && vBits <= Unpacked(vBytes)
  }

  /** Writing the bits. */
  method PackBits(vBits: seq<bool>) returns (vBytes: seq<bv8>)
    ensures IsPacked(vBits, vBytes)
  {
    vBytes := seq((|vBits| + 7) / 8, _ => 0);
    for p := 0 to |vBits|
      invariant |vBytes| == (|vBits| + 7) / 8
      invariant forall q :: 0 <= q < |vBits| ==> BitOf(vBytes[q / 8], q % 8) == (q < p && vBits[q])
    {
      if vBits[p] {
        var i, k := p / 8, p % 8;
        forall j | 0 <= j < 8 ensures BitOf(vBytes[i] | (1 << k), j) == (BitOf(vBytes[i], j) || j == k) {
          SetBit(vBytes[i], k, j);
        }
        vBytes := vBytes[i := vBytes[i] | (1 << k)];
      }
    }
  }

  /** Reading the bits. */
  method UnpackBits(vBytes: seq<bv8>) returns (vBits: seq<bool>)
    ensures vBits == Unpacked(vBytes)
  {
    vBits := seq(8 * |vBytes|, _ => false);
    for p := 0 to 8 * |vBytes|
      invariant |vBits| == 8 * |vBytes| && forall q :: 0 <= q < p ==> vBits[q] == Unpacked(vBytes)[q]
    {
      vBits := vBits[p := vBytes[p / 8] & (1 << (p % 8)) != 0];
    }
  }

  /** The same tree after its bits were written as bytes and read again. */
  lemma {:induction false} PackedExtracts(node: Combine, vTxid: seq<Hash>, vMatch: seq<bool>, vBytes: seq<bv8>)
    requires |vMatch| == |vTxid| && 1 <= |vTxid| <= MAX_TRANSACTIONS
    requires IsPacked(BuiltTree(node, vTxid, vMatch).bits, vBytes)
    ensures var e := ExtractAll(node, |vTxid|, Partial(Unpacked(vBytes), BuiltTree(node, vTxid, vMatch).hashes));
      e.Some? && e.value.hash == MerkleRoot(node, vTxid) && e.value.vMatch == Selected(vTxid, vMatch, 0, |vTxid|)
  {
    var b := BuiltTree(node, vTxid, vMatch);
    var padding := Unpacked(vBytes)[|b.bits|..];
    assert b.bits + padding == Unpacked(vBytes) && b.hashes + [] == b.hashes;
    BuiltExtracts(node, vTxid, vMatch, padding);
  }

  // ---- an arbitrary tree that leads to the root proves what it claims ----

  /** The entries of a list are transactions at increasing places from lo up to hi. */
  predicate PlacedAt(vTxid: seq<Hash>, vMatch: seq<Hash>, at: seq<nat>, lo: nat, hi: nat) {
    && |at| == |vMatch| && hi <= |vTxid|
    && (forall k :: 0 <= k < |at| ==> lo <= at[k] < hi && vMatch[k] == vTxid[at[k]])
    && forall j, k :: 0 <= j < k < |at| ==> at[j] < at[k]
  }

  lemma {:induction false} PlacedAppend(vTxid: seq<Hash>, a: seq<Hash>, atA: seq<nat>, b: seq<Hash>, atB: seq<nat>, lo: nat, mid: nat, hi: nat)
    requires lo <= mid <= hi && PlacedAt(vTxid, a, atA, lo, mid) && PlacedAt(vTxid, b, atB, mid, hi)
    ensures PlacedAt(vTxid, a + b, atA + atB, lo, hi)
  {}

  /** The node hashes at the children of a node read with its true hash are true, too. */
  lemma {:induction false} ExtractSplit(node: Combine, vTxid: seq<Hash>, p: Partial, height: nat, pos: nat, e: Extracted)
    returns (left: Extracted, right: Extracted)
    requires Injective(node) && 0 < height && pos < Width(|vTxid|, height)
    requires Extract(node, |vTxid|, p, height, pos) == Some(e) && p.bits[0]
    requires e.hash == NodeHash(node, vTxid, height, pos)
    ensures Extract(node, |vTxid|, p.Drop(1, 0), height - 1, 2 * pos) == Some(left)
    ensures left.hash == NodeHash(node, vTxid, height - 1, 2 * pos) && e.vMatch == left.vMatch + right.vMatch
    ensures if 2 * pos + 1 < Width(|vTxid|, height - 1) then
              && Extract(node, |vTxid|, left.rest, height - 1, 2 * pos + 1) == Some(right)
              && right.hash == NodeHash(node, vTxid, height - 1, 2 * pos + 1)
            else right.vMatch == []
  {
    var n := |vTxid|;
    left := Extract(node, n, p.Drop(1, 0), height - 1, 2 * pos).value;
    right := left.(vMatch := []);
    if 2 * pos + 1 < Width(n, height - 1) {
      right := Extract(node, n, left.rest, height - 1, 2 * pos + 1).value;
    }
    assert e.hash == node(left.hash, right.hash);
  }

  /** Wherever a node is read with its true hash, the matches are transactions below that node. */
  lemma {:induction false} ExtractSound(node: Combine, vTxid: seq<Hash>, p: Partial, height: nat, pos: nat, e: Extracted)
    returns (at: seq<nat>)
    requires Injective(node) && pos < Width(|vTxid|, height)
    requires Extract(node, |vTxid|, p, height, pos) == Some(e)
    requires e.hash == NodeHash(node, vTxid, height, pos)
    ensures PlacedAt(vTxid, e.vMatch, at, Start(|vTxid|, height, pos), End(|vTxid|, height, pos))
    decreases height
  {
    var n := |vTxid|;
    if height == 0 {
      at := if p.bits[0] then [pos] else [];
    } else if !p.bits[0] {
      at := [];
    } else {
      LeavesSplit(n, height, pos);
      var left, right := ExtractSplit(node, vTxid, p, height, pos, e);
      at := ExtractSound(node, vTxid, p.Drop(1, 0), height - 1, 2 * pos, left);
      var more := [];
      if 2 * pos + 1 < Width(n, height - 1) {
        more := ExtractSound(node, vTxid, left.rest, height - 1, 2 * pos + 1, right);
      }
      PlacedAppend(vTxid, left.vMatch, at, right.vMatch, more, Start(n, height, pos), End(n, height - 1, 2 * pos), End(n, height, pos));
      at := at + more;
    }
  }

  /** Whatever bits and hashes a peer sends: when they lead to the root of a block, with its number
      of transactions, all matches are transactions of the block, in their order. */
  lemma {:induction false} AcceptedMatchesAreInBlock(node: Combine, vTxid: seq<Hash>, p: Partial) returns (at: seq<nat>)
    requires Injective(node) && vTxid != []
    requires ExtractAll(node, |vTxid|, p).Some? && ExtractAll(node, |vTxid|, p).value.hash == MerkleRoot(node, vTxid)
    ensures PlacedAt(vTxid, ExtractAll(node, |vTxid|, p).value.vMatch, at, 0, |vTxid|)
  {
    RootWidth(|vTxid|, 0);
    var nHeight := Height(|vTxid|);
    at := ExtractSound(node, vTxid, p, nHeight, 0, Extract(node, |vTxid|, p, nHeight, 0).value);
  }

  /** The matches are transactions, at places of their own, of every block with that many
      transactions and that root. */
  ghost predicate TrueOfBlocks(node: Combine, n: nat, root: Hash, vMatch: seq<Hash>) {
    forall vTxid :: |vTxid| == n > 0 && MerkleRoot(node, vTxid) == root ==> exists at :: PlacedAt(vTxid, vMatch, at, 0, n)
  }

  lemma {:induction false} AcceptedTrueOfBlocks(node: Combine, n: nat, p: Partial)
    requires Injective(node) && ExtractAll(node, n, p).Some?
    ensures TrueOfBlocks(node, n, ExtractAll(node, n, p).value.hash, ExtractAll(node, n, p).value.vMatch)
  {
    var e := ExtractAll(node, n, p).value;
    forall vTxid | |vTxid| == n > 0 && MerkleRoot(node, vTxid) == e.hash
      ensures exists at :: PlacedAt(vTxid, e.vMatch, at, 0, n)
    {
      var at := AcceptedMatchesAreInBlock(node, vTxid, p);
    }
  }
}
