/**
 A chain as an array indexed by height (CChain in src/main.h and src/main.cpp): moving its tip,
 describing a block to another node by a locator, and finding the fork with a locator.
 */
module ChainArray {
  import opened Core
  import opened Utxo
  import opened BlockTree
  import opened Numbers

  /** How far back from its start entry k of a locator lies, as long as that is not before the
      genesis block: eleven single steps, then steps that double. */
  function Offset(k: nat): nat {
    if k <= 11 then k else 9 + Pow2(k - 10)
  }

  /** A number of blocks back, but not before the genesis block. */
  function Back(nHeight: nat, n: nat): (r: nat)
    ensures r <= nHeight
  {
    if n <= nHeight then nHeight - n else 0
  }

  /** Two path arrays share their blocks up to height f and no block above. */
  predicate ForkAt(p: seq<Hash>, q: seq<Hash>, f: nat) {
    && f < |p| && f < |q|
    && (forall k :: 0 <= k <= f ==> p[k] == q[k])
    && forall k :: f < k < |p| && k < |q| ==> p[k] != q[k]
  }

  /** Where a path array holds a block of a path, it holds the blocks before it too. */
  lemma {:induction false} SharedBelow(t: Tree, p: seq<Hash>, h: Hash, m: nat)
    requires TreeOk(t) && IsPath(t, p) && h in t && m <= t[h].nHeight + 1
    ensures 0 < m <= |p| && p[m - 1] == Path(t, h)[m - 1] ==> forall k :: 0 <= k < m ==> p[k] == Path(t, h)[k]
    ensures p != [] ==> p[0] == Path(t, h)[0] != NULL
  {
    PathStart(t, h);
    if p != [] {
      PathStart(t, Tip(p));
    }
    if 0 < m <= |p| {
      PathPrefix(t, h, m - 1);
      PrefixIsPath(t, p, m);
    }
  }

  /** The entries of a locator before the genesis block. */
  predicate EntriesOk(t: Tree, h: Hash, vHave: seq<Hash>)
    requires TreeOk(t) && h in t
  {
    forall k :: 0 <= k < |vHave| ==> Offset(k) < t[h].nHeight && vHave[k] == Path(t, h)[t[h].nHeight - Offset(k)]
  }

  /** The locator of a block: the blocks at the offsets back along its path that lie after the
      genesis block, and the genesis block. */
  predicate IsLocator(t: Tree, h: Hash, vHave: seq<Hash>)
    requires TreeOk(t) && h in t
  {
    && vHave != []
    && EntriesOk(t, h, vHave[..|vHave| - 1])
    && Offset(|vHave| - 1) >= t[h].nHeight
    && vHave[|vHave| - 1] == Path(t, h)[0]
  }

  /** The state at the end of the loop of SetTip: written from its end, up to where a block was in
      place already. */
  ghost predicate FilledTo(t: Tree, h: Hash, resized: seq<Hash>, filled: seq<Hash>, pindex: Hash)
    requires TreeOk(t) && h in t
  {
    && |filled| == |resized| == t[h].nHeight + 1
    && (pindex != NULL ==> pindex in t && t[pindex].nHeight < |resized|
                           && pindex == Path(t, h)[t[pindex].nHeight] == resized[t[pindex].nHeight])
    && var m := if pindex == NULL then 0 else t[pindex].nHeight + 1;
    && (forall k :: 0 <= k < m ==> filled[k] == resized[k])
    && (forall k :: m <= k < |filled| ==> filled[k] == Path(t, h)[k] != resized[k])
  }

  /** Below the block in place nothing needs to be written. */
  lemma {:induction false} FilledPath(t: Tree, p: seq<Hash>, h: Hash, resized: seq<Hash>, filled: seq<Hash>, fork: Hash)
    requires TreeOk(t) && IsPath(t, p) && h in t && FilledTo(t, h, resized, filled, fork)
    requires forall k :: 0 <= k < |resized| ==> resized[k] == if k < |p| then p[k] else NULL
    ensures filled == Path(t, h)
    ensures if p == [] then fork == NULL
            else fork in t && ForkAt(filled, p, t[fork].nHeight) && filled[t[fork].nHeight] == fork
  {
    SharedBelow(t, p, h, if fork == NULL then 0 else t[fork].nHeight + 1);
    if fork != NULL {
      assert fork in t && NULL !in t;
    }
  }

  class Chain {
    var vChain: seq<Hash>

    constructor ()
      ensures vChain == []
    {
      vChain := [];
    }

    /** Makes the array the path of the new tip. It stops at the first block that is already in
        place, and returns that block: the last one the old and the new chain share. */
    method SetTip(t: Tree, pindexNew: Hash) returns (fork: Hash)
      requires TreeOk(t) && IsPath(t, vChain)
      requires pindexNew == NULL || pindexNew in t
      modifies this
      ensures vChain == if pindexNew == NULL then [] else Path(t, pindexNew)
      ensures if vChain == [] || old(vChain) == [] then fork == NULL
              else fork in t && ForkAt(vChain, old(vChain), t[fork].nHeight) && vChain[t[fork].nHeight] == fork
    {
      if pindexNew == NULL {
        vChain := [];
        return NULL;
      }
      var nSize := t[pindexNew].nHeight + 1;
      var resized := if nSize <= |vChain| then vChain[..nSize] else vChain + seq(nSize - |vChain|, _ => NULL);
      ghost var before := vChain;
      vChain, fork := FillBack(t, pindexNew, resized);
      FilledPath(t, before, pindexNew, resized, vChain, fork);
    }

    /** The loop of SetTip: writes the path from its end until a block is in place. */
    static method FillBack(t: Tree, pindexNew: Hash, resized: seq<Hash>)
      returns (filled: seq<Hash>, pindex: Hash)
      requires TreeOk(t) && pindexNew in t && |resized| == t[pindexNew].nHeight + 1
      ensures FilledTo(t, pindexNew, resized, filled, pindex)
    {
      filled, pindex := resized, pindexNew;
      ghost var m := |resized|;
      ghost var path := Path(t, pindexNew);
      while pindex != NULL && filled[t[pindex].nHeight] != pindex
        invariant |filled| == |resized| && m <= |resized|
        invariant if m == 0 then pindex == NULL else pindex in t && t[pindex].nHeight == m - 1 && pindex == path[m - 1]
        invariant forall k :: 0 <= k < m ==> filled[k] == resized[k]
        invariant forall k :: m <= k < |filled| ==> filled[k] == path[k] != resized[k]
        decreases m
      {
        PathParent(t, pindexNew, m - 1);
        if m > 1 {
          PathParent(t, pindexNew, m - 2);
        }
        filled := filled[t[pindex].nHeight := pindex];
        pindex := t[pindex].pprev;
        m := m - 1;
      }
    }

    /** Looking up a block of the path of `pindex`: going back block by block until the chain takes
        over, then by height. */
    method Ancestor(t: Tree, pindex: Hash, nHeight: nat) returns (r: Hash)
      requires TreeOk(t) && IsPath(t, vChain) && pindex in t && nHeight <= t[pindex].nHeight
      ensures r in t && t[r].nHeight == nHeight && r == Path(t, pindex)[nHeight]
    {
      r := pindex;
      ghost var path := Path(t, pindex);
      while t[r].nHeight > nHeight && !Contains(t, vChain, r)
        invariant r in t && nHeight <= t[r].nHeight <= t[pindex].nHeight && r == path[t[r].nHeight]
        decreases t[r].nHeight
      {
        PathParent(t, pindex, t[r].nHeight);
        PathParent(t, pindex, t[r].nHeight - 1);
        r := t[r].pprev;
      }
      if t[r].nHeight > nHeight {
        ContainsPrefix(t, vChain, r);
        PathPrefix(t, pindex, t[r].nHeight);
        PathPrefix(t, pindex, nHeight);
        assert vChain[nHeight] == Path(t, r)[nHeight];
        r := vChain[nHeight];
      }
    }

    /** The locator of a block, by default the tip. */
    method GetLocator(t: Tree, pindexStart: Hash) returns (vHave: seq<Hash>)
      requires TreeOk(t) && IsPath(t, vChain) && (pindexStart == NULL || pindexStart in t)
      ensures var from := if pindexStart == NULL then Tip(vChain) else pindexStart;
        if from == NULL then vHave == [] else IsLocator(t, from, vHave)
    {
      vHave := [];
      var start := if pindexStart == NULL then Tip(vChain) else pindexStart;
      if start == NULL {
        return;
      }
      var pindex, nStep := start, 1;
      ghost var top, path := t[start].nHeight, Path(t, start);
      while t[pindex].nHeight != 0
        invariant pindex in t && t[pindex].nHeight <= top && pindex == path[t[pindex].nHeight]
        invariant EntriesOk(t, start, vHave)
        invariant t[pindex].nHeight == Back(top, Offset(|vHave|))
        invariant nStep == Offset(|vHave| + 1) - Offset(|vHave|)
        decreases t[pindex].nHeight
      {
        LocatorStep(t, start, vHave, pindex, nStep);
        vHave := vHave + [pindex];
        pindex := Ancestor(t, pindex, Back(t[pindex].nHeight, nStep));
        if |vHave| > 10 {
          nStep := nStep * 2;
        }
      }
      assert (vHave + [pindex])[..|vHave|] == vHave;
      vHave := vHave + [pindex];
    }

    /** Whether a hash is that of a block of this chain. */
    predicate Here(t: Tree, h: Hash)
      reads this
    {
      h in t && t[h].nHeight < |vChain| && vChain[t[h].nHeight] == h
    }

    /** The first entry of a locator that is in this chain, or else its genesis block. */
    method FindFork(t: Tree, vHave: seq<Hash>) returns (fork: Hash)
      requires TreeOk(t)
      ensures fork == FirstContained(t, vChain, vHave)
      ensures forall i :: 0 <= i < |vHave| && Here(t, vHave[i]) && (forall j :: 0 <= j < i ==> !Here(t, vHave[j])) ==> fork == vHave[i]
      ensures vChain != [] && (forall i :: 0 <= i < |vHave| ==> !Here(t, vHave[i])) ==> fork == vChain[0]
    {
      for i := 0 to |vHave|
        invariant FirstContained(t, vChain, vHave[i..]) == FirstContained(t, vChain, vHave)
        invariant forall j :: 0 <= j < i ==> !Here(t, vHave[j])
      {
        if vHave[i] in t {
          if Contains(t, vChain, vHave[i]) {
            return vHave[i];
          }
        }
      }
      return if vChain != [] then vChain[0] else NULL;
    }
  }

  lemma {:induction false} EntriesSnoc(t: Tree, h: Hash, vHave: seq<Hash>, x: Hash)
    requires TreeOk(t) && h in t && EntriesOk(t, h, vHave)
    requires Offset(|vHave|) < t[h].nHeight && x == Path(t, h)[t[h].nHeight - Offset(|vHave|)]
    ensures EntriesOk(t, h, vHave + [x])
  {}

  /** One round of GetLocator. */
  lemma {:induction false} LocatorStep(t: Tree, h: Hash, vHave: seq<Hash>, x: Hash, nStep: nat)
    requires TreeOk(t) && h in t && EntriesOk(t, h, vHave)
    requires x in t && 0 < t[x].nHeight <= t[h].nHeight && x == Path(t, h)[t[x].nHeight]
    requires t[x].nHeight == Back(t[h].nHeight, Offset(|vHave|))
    requires nStep == Offset(|vHave| + 1) - Offset(|vHave|)
    ensures EntriesOk(t, h, vHave + [x])
    ensures nStep > 0 && (if |vHave| + 1 > 10 then 2 * nStep else nStep) == Offset(|vHave| + 2) - Offset(|vHave| + 1)
    ensures var next := Back(t[x].nHeight, nStep);
      next == Back(t[h].nHeight, Offset(|vHave| + 1)) && Path(t, x)[next] == Path(t, h)[next]
  {
    OffsetStep(|vHave|);
    EntriesSnoc(t, h, vHave, x);
    PathPrefix(t, h, t[x].nHeight);
  }

  /** The steps between entries: 1 up to the eleventh entry, then doubling. */
  lemma {:induction false} OffsetStep(k: nat)
    ensures Offset(k) < Offset(k + 1)
    ensures Offset(k + 2) - Offset(k + 1) == (Offset(k + 1) - Offset(k)) * if k + 1 > 10 then 2 else 1
  {}

  function FirstContained(t: Tree, p: seq<Hash>, vHave: seq<Hash>): Hash {
    if vHave == [] then if p != [] then p[0] else NULL
    else if vHave[0] in t && Contains(t, p, vHave[0]) then vHave[0]
    else FirstContained(t, p, vHave[1..])
  }

  // ---- finding the fork with a locator from another node ----

  lemma {:induction false} OffsetMonotone(j: nat, k: nat)
    requires j <= k
    ensures Offset(j) <= Offset(k) && (j < k ==> Offset(j) < Offset(k))
    decreases k
  {
    if j < k {
      OffsetMonotone(j, k - 1);
      OffsetStep(k - 1);
    }
  }

  /** Entry k is the block at its offset back along the path, or the genesis block. */
  predicate EntryAt(t: Tree, h: Hash, vHave: seq<Hash>, k: nat)
    requires TreeOk(t) && h in t && k < |vHave|
  {
    vHave[k] in t && t[vHave[k]].nHeight == Back(t[h].nHeight, Offset(k)) && vHave[k] == Path(t, h)[t[vHave[k]].nHeight]
  }

  lemma {:induction false} LocatorEntry(t: Tree, h: Hash, vHave: seq<Hash>, k: nat)
    requires TreeOk(t) && h in t && IsLocator(t, h, vHave) && k < |vHave|
    ensures EntryAt(t, h, vHave, k)
  {
    PathPrefix(t, h, Back(t[h].nHeight, Offset(k)));
    if k < |vHave| - 1 {
      assert vHave[k] == vHave[..|vHave| - 1][k];
    }
  }

  /** A locator goes strictly back, from the block to the genesis block. */
  lemma {:induction false} LocatorDescends(t: Tree, h: Hash, vHave: seq<Hash>)
    requires TreeOk(t) && h in t && IsLocator(t, h, vHave)
    ensures vHave[0] == h && vHave[|vHave| - 1] == GENESIS_HASH
    ensures forall k :: 0 <= k < |vHave| ==> EntryAt(t, h, vHave, k)
    ensures forall j, k :: 0 <= j < k < |vHave| ==> t[vHave[j]].nHeight > t[vHave[k]].nHeight
  {
    PathStart(t, h);
    forall k | 0 <= k < |vHave| ensures EntryAt(t, h, vHave, k) {
      LocatorEntry(t, h, vHave, k);
    }
    forall j, k | 0 <= j < k < |vHave| ensures t[vHave[j]].nHeight > t[vHave[k]].nHeight {
      OffsetMonotone(j, k);
      assert EntryAt(t, h, vHave, j) && EntryAt(t, h, vHave, k);
    }
    assert EntryAt(t, h, vHave, 0) && EntryAt(t, h, vHave, |vHave| - 1);
  }

  /** The first entry at a given height or below is at most twice as far back. */
  lemma {:induction false} OffsetReaches(d: nat, k: nat)
    requires Offset(k) >= d && (k > 0 ==> Offset(k - 1) < d)
    ensures Offset(k) <= 2 * d && (d <= 11 ==> Offset(k) == d)
  {
    if k > 12 {
      assert Offset(k) == 9 + 2 * Pow2(k - 11) && Offset(k - 1) == 9 + Pow2(k - 11);
    } else if k == 12 {
      assert Pow2(0) == 1 && Pow2(1) == 2 && Pow2(2) == 4;
    }
  }

  /** Two nodes agree on the parent of every block both know: the hash of a block fixes it. */
  predicate Agree(t: Tree, t': Tree) {
    forall x :: x in t && x in t' ==> t[x].pprev == t'[x].pprev
  }

  lemma {:induction false} AgreeOnPaths(t: Tree, t': Tree, h: Hash)
    requires TreeOk(t) && TreeOk(t') && Agree(t, t') && h in t && h in t'
    ensures t[h].nHeight == t'[h].nHeight && Path(t, h) == Path(t', h)
    decreases t[h].nHeight
  {
    assert Linked(t, h) && Linked(t', h);
    if t[h].pprev != NULL {
      AgreeOnPaths(t, t', t[h].pprev);
    }
  }

  /** An entry of the path of a block that another node made a locator for is in this chain
      exactly when it is not above the fork. */
  lemma {:induction false} ContainedIffShared(t: Tree, h: Hash, t': Tree, p: seq<Hash>, f: nat, g: nat)
    requires TreeOk(t) && TreeOk(t') && Agree(t, t') && h in t && IsPath(t', p)
    requires ForkAt(Path(t, h), p, f) && g <= t[h].nHeight
    ensures Path(t, h)[g] in t' && Contains(t', p, Path(t, h)[g]) <==> g <= f
  {
    var x := Path(t, h)[g];
    PathPrefix(t, h, g);
    if x in t' {
      AgreeOnPaths(t, t', x);
    }
    if g <= f {
      PrefixIsPath(t', p, g + 1);
    }
  }

  lemma {:induction false} FirstContainedAt(t: Tree, p: seq<Hash>, vHave: seq<Hash>, i: nat)
    requires i < |vHave| && vHave[i] in t && Contains(t, p, vHave[i])
    requires forall k :: 0 <= k < i ==> vHave[k] !in t || !Contains(t, p, vHave[k])
    ensures FirstContained(t, p, vHave) == vHave[i]
  {
    if i > 0 {
      FirstContainedAt(t, p, vHave[1..], i - 1);
    }
  }

  /** When the chain of a node leaves the path of a block d blocks before it, the locator another
      node makes for the block leads to a shared block at most twice as far back, and to the very
      fork when that is at most 11 blocks back. */
  lemma {:induction false} FindForkDistance(t: Tree, h: Hash, vHave: seq<Hash>, t': Tree, p: seq<Hash>, f: nat) returns (r: nat)
    requires TreeOk(t) && TreeOk(t') && Agree(t, t') && h in t && IsPath(t', p)
    requires IsLocator(t, h, vHave) && ForkAt(Path(t, h), p, f)
    ensures var d := t[h].nHeight - f;
      && d <= r <= 2 * d
      && r <= t[h].nHeight
      && (d <= 11 ==> r == d)
      && FirstContained(t', p, vHave) == Path(t, h)[t[h].nHeight - r]
  {
    var top, d := t[h].nHeight, t[h].nHeight - f;
    var i := 0;
    while Offset(i) < d
      invariant i < |vHave|
      invariant forall k :: 0 <= k < i ==> Offset(k) < d
      decreases |vHave| - i
    {
      i := i + 1;
    }
    OffsetReaches(d, i);
    LocatorEntry(t, h, vHave, i);
    r := top - Back(top, Offset(i));
    ContainedIffShared(t, h, t', p, f, top - r);
    forall k | 0 <= k < i ensures vHave[k] !in t' || !Contains(t', p, vHave[k]) {
      LocatorEntry(t, h, vHave, k);
      ContainedIffShared(t, h, t', p, f, top - Offset(k));
    }
    FirstContainedAt(t', p, vHave, i);
  }
}
