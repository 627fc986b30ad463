/**
 Choosing and activating the best chain (FindMostWorkChain, ActivateBestChain, ConnectTip,
 DisconnectTip, InvalidBlockFound and AddToBlockIndex in src/main.cpp).
 */
module BestChain {
  import opened Core
  import opened Utxo
  import opened Storage
  import opened CoinsView
  import Connector
  import opened Replay
  import opened BlockTree
  import opened Sequences
  import opened ChainArray
  import opened Supply

  // ---- what the state keeps, on values ----

  /** `u` is what connecting the blocks of the path array leads to, where some records may have been
      stored and read back. */
  ghost predicate CoinsAt(t: Tree, p: seq<Hash>, u: UtxoSet)
    requires TreeOk(t)
  {
    && IsPath(t, p)
    && (forall x :: x in p ==> x in t)
    && Replayed(Blocks(t, p)).Some?
    && StoredFrom(u, Replayed(Blocks(t, p)).value)
  }

  /** A block that some block on its path keeps from being accepted. */
  ghost predicate Invalid(t: Tree, h: Hash)
    requires TreeOk(t)
  {
    h in t && !ValidPath(t, h)
  }

  /** Only blocks without a valid path are flagged, and exactly the others are candidates. */
  ghost predicate FlagsOk(t: Tree, failed: set<Hash>, candidates: set<Hash>)
    requires TreeOk(t)
  {
    && (forall h {:trigger Invalid(t, h)} :: h in failed ==> Invalid(t, h))
    && candidates == t.Keys - failed
  }

  /** The undo file of a block holds what connecting it on its path writes. */
  ghost predicate UndoAt(t: Tree, undo: map<Hash, seq<TxUndo>>, h: Hash)
    requires TreeOk(t) && h in undo
  {
    h in t && ValidPath(t, h) && undo[h] == KeptUndos(UndoFor(Blocks(t, Path(t, h))))
  }

  ghost predicate UndoOk(t: Tree, undo: map<Hash, seq<TxUndo>>, active: seq<Hash>)
    requires TreeOk(t)
  {
    && (forall h {:trigger UndoAt(t, undo, h)} :: h in undo ==> UndoAt(t, undo, h))
    && forall i :: 1 <= i < |active| ==> active[i] in undo
  }

  predicate NoneIn(p: seq<Hash>, failed: set<Hash>) {
    forall x :: x in p ==> x !in failed
  }

  /** No candidate is better than a given block. */
  ghost predicate AtLeastAsGood(t: Tree, candidates: set<Hash>, tip: Hash) {
    tip in t && forall x :: x in candidates ==> x in t && (x == tip || Worse(t, x, tip))
  }

  /** No block with a valid path is better than the tip. */
  ghost predicate Maximal(t: Tree, tip: Hash)
    requires TreeOk(t)
  {
    forall h {:trigger ValidPath(t, h)} :: h in t && ValidPath(t, h) ==> tip in t && (h == tip || Worse(t, h, tip))
  }

  /** The blocks of a chain that was connected carry no failure flag. */
  lemma {:induction false} ActiveUnflagged(t: Tree, p: seq<Hash>, u: UtxoSet, failed: set<Hash>, candidates: set<Hash>)
    requires TreeOk(t) && CoinsAt(t, p, u) && FlagsOk(t, failed, candidates)
    ensures forall x :: x in p ==> x in t && ValidPath(t, x) && x !in failed
  {
    forall i | 0 <= i < |p| ensures p[i] in t && ValidPath(t, p[i]) && p[i] !in failed {
      assert p[i] in p;
      ValidAncestor(t, Tip(p), i);
      assert !Invalid(t, p[i]);
    }
  }

  /** Whatever comes after a block without a valid path has none either. */
  lemma {:induction false} InvalidDescendant(t: Tree, a: Hash, h: Hash, i: nat)
    requires TreeOk(t) && h in t && Invalid(t, a) && t[a].nHeight <= i <= t[h].nHeight && Path(t, h)[t[a].nHeight] == a
    ensures Invalid(t, Path(t, h)[i])
  {
    PathPrefix(t, h, i);
    if ValidPath(t, Path(t, h)[i]) {
      ValidAncestor(t, Path(t, h)[i], t[a].nHeight);
    }
  }

  /** The blocks of a path from height k on. */
  function Above(t: Tree, h: Hash, k: nat): set<Hash>
    requires TreeOk(t) && h in t
  {
    if k > t[h].nHeight then {} else Members(Path(t, h)[k..])
  }

  /** One block further down a path. */
  lemma {:induction false} AboveParent(t: Tree, h: Hash, x: Hash, k: nat)
    requires TreeOk(t) && h in t && 0 < k <= t[h].nHeight && x == Path(t, h)[k]
    ensures x in t && t[x].nHeight == k && t[x].pprev == Path(t, h)[k - 1]
    ensures Above(t, h, k) == Above(t, h, k + 1) + {x}
  {
    var p := Path(t, h);
    PathParent(t, h, k);
    assert p[k..] == [p[k]] + p[k + 1..];
  }

  /** The state after the blocks of a path from height k on got a flag. */
  ghost predicate FlaggedAbove(s: Snapshot, s': Snapshot, h: Hash, k: nat)
    requires TreeOk(s.t) && h in s.t
  {
    s' == s.(failedChild := s.failedChild + Above(s.t, h, k), candidates := s.candidates - Above(s.t, h, k))
  }

  /** Flagging all blocks after a failed one is right. */
  lemma {:induction false} FlagsAbove(t: Tree, failed: set<Hash>, candidates: set<Hash>, h: Hash, a: Hash)
    requires TreeOk(t) && FlagsOk(t, failed, candidates) && h in t && a in Path(t, h) && a in t && a in failed
    ensures var above := Above(t, h, t[a].nHeight + 1);
      FlagsOk(t, failed + above, candidates - above) && (h != a ==> h in above)
  {
    var p, k := Path(t, h), t[a].nHeight + 1;
    var at :| 0 <= at < |p| && p[at] == a;
    PathPrefix(t, h, at);
    if h != a {
      assert p[k..][t[h].nHeight - k] == h;
    }
    forall x | x in Above(t, h, k) ensures Invalid(t, x) {
      var i :| 0 <= i < |p[k..]| && p[k..][i] == x;
      InvalidDescendant(t, a, h, k + i);
    }
  }

  lemma {:induction false} MoreFlagged(failed: set<Hash>, candidates: set<Hash>, above: set<Hash>, x: Hash)
    ensures failed + above + {x} == failed + (above + {x}) && candidates - above - {x} == candidates - (above + {x})
  {}

  lemma {:induction false} GoodFlaggedAbove(s: Snapshot, s': Snapshot, h: Hash, a: Hash)
    requires Good(s) && h in s.candidates && a in Path(s.t, h) && a in s.Failed()
    requires a in s.t && FlaggedAbove(s, s', h, s.t[a].nHeight + 1)
    ensures Good(s') && s'.candidates < s.candidates
  {
    FlagsAbove(s.t, s.Failed(), s.candidates, h, a);
    assert s'.Failed() == s.Failed() + Above(s.t, h, s.t[a].nHeight + 1);
  }

  /** Only failed blocks were dropped from the end of a chain. */
  predicate Peeled(p: seq<Hash>, p': seq<Hash>, failed: set<Hash>) {
    p' <= p && forall i :: |p'| <= i < |p| ==> p[i] in failed
  }

  lemma {:induction false} PeeledNext(p: seq<Hash>, p': seq<Hash>, failed: set<Hash>)
    requires Peeled(p, p', failed) && p' != [] && Tip(p') in failed
    ensures Peeled(p, p'[..|p'| - 1], failed)
  {}

  /** Looks for a failed block on the path of a block, back to where it meets the active chain,
      whose blocks are not failed. */
  method FindFailed(t: Tree, active: seq<Hash>, failed: set<Hash>, pindexNew: Hash) returns (found: bool, pindexTest: Hash)
    requires TreeOk(t) && IsPath(t, active) && pindexNew in t
    requires NoneIn(active, failed)
    ensures if found then pindexTest in Path(t, pindexNew) && pindexTest in failed
            else NoneIn(Path(t, pindexNew), failed)
    ensures found ==> pindexTest in t && forall k :: t[pindexTest].nHeight < k <= t[pindexNew].nHeight ==> Path(t, pindexNew)[k] !in failed
  {
    ghost var path := Path(t, pindexNew);
    ghost var n := |path|;
    pindexTest := pindexNew;
    while pindexTest != NULL && !Contains(t, active, pindexTest)
      invariant n <= |path|
      invariant if n == 0 then pindexTest == NULL
                else pindexTest in t && t[pindexTest].nHeight == n - 1 && pindexTest == path[n - 1]
      invariant forall k :: n <= k < |path| ==> path[k] !in failed
      decreases n
    {
      if pindexTest in failed {
        return true, pindexTest;
      }
      PathParent(t, pindexNew, n - 1);
      if n > 1 {
        PathParent(t, pindexNew, n - 2);
      }
      pindexTest := t[pindexTest].pprev;
      n := n - 1;
    }
    if pindexTest != NULL {
      ContainsPrefix(t, active, pindexTest);
      PathPrefix(t, pindexNew, n - 1);
      forall k | 0 <= k < n ensures path[k] !in failed {
        assert path[k] == active[..n][k];
      }
    }
    found := false;
  }

  // ---- one block more, one block less ----

  /** The undo files after one was written, unless there was one already. */
  function StoredUndo(undo: map<Hash, seq<TxUndo>>, h: Hash, made: seq<TxUndo>): map<Hash, seq<TxUndo>> {
    if h == GENESIS_HASH || h in undo then undo else undo[h := KeptUndos(made)]
  }

  /** Undo data stored before is kept, and is the same as what connecting the block again makes. */
  lemma {:induction false} UndoKept(t: Tree, p: seq<Hash>, undo: map<Hash, seq<TxUndo>>, h: Hash, made: seq<TxUndo>)
    requires TreeOk(t) && UndoOk(t, undo, p)
    requires h in t && ValidPath(t, h) && KeptUndos(made) == KeptUndos(UndoFor(Blocks(t, Path(t, h))))
    requires h == GENESIS_HASH ==> p == []
    ensures UndoOk(t, StoredUndo(undo, h, made), p + [h])
  {
    var undo' := StoredUndo(undo, h, made);
    forall x | x in undo' ensures UndoAt(t, undo', x) {
      if x in undo {
        assert UndoAt(t, undo, x) && undo'[x] == undo[x];
      } else {
        assert x == h && undo'[x] == KeptUndos(made);
      }
    }
  }

  /** Connecting an accepted block. */
  lemma {:induction false} ConnectedStep(t: Tree, p: seq<Hash>, u: UtxoSet, h: Hash, undo: map<Hash, seq<TxUndo>>, c: Connected)
    requires TreeOk(t) && CoinsAt(t, p, u) && UndoOk(t, undo, p)
    requires h in t && t[h].pprev == Tip(p) && ConnectBlock(u, t[h].block, |p|) == Some(c)
    ensures CoinsAt(t, p + [h], c.utxo) && Path(t, h) == p + [h]
    ensures UndoOk(t, StoredUndo(undo, h, c.undo), p + [h])
  {
    var w := Replayed(Blocks(t, p)).value;
    ConnectBlockStored(u, w, t[h].block, |p|);
    PathSnoc(t, p, h);
    ValidStep(t, p, h, w);
    assert Linked(t, h);
    UndoKept(t, p, undo, h, c.undo);
  }

  /** A refused block has no valid path. */
  lemma {:induction false} RefusedStep(t: Tree, p: seq<Hash>, u: UtxoSet, h: Hash)
    requires TreeOk(t) && CoinsAt(t, p, u)
    requires h in t && t[h].pprev == Tip(p) && ConnectBlock(u, t[h].block, |p|) == None
    ensures Invalid(t, h)
  {
    var w := Replayed(Blocks(t, p)).value;
    ConnectBlockStored(u, w, t[h].block, |p|);
    ValidStep(t, p, h, w);
  }

  /** Disconnecting the tip cannot fail, and leads back to what was there before it. */
  lemma {:induction false} DisconnectedStep(t: Tree, p: seq<Hash>, u: UtxoSet, undo: map<Hash, seq<TxUndo>>) returns (before: UtxoSet)
    requires TreeOk(t) && CoinsAt(t, p, u) && UndoOk(t, undo, p) && |p| > 1 && UndoableAt(t, Tip(p))
    ensures Tip(p) in t && Tip(p) in undo && t[Tip(p)].pprev == p[|p| - 2]
    ensures DisconnectBlock(u, t[Tip(p)].block, undo[Tip(p)], |p| - 1) == Some(before)
    ensures CoinsAt(t, p[..|p| - 1], before) && UndoOk(t, undo, p[..|p| - 1])
    ensures p[|p| - 2] in t && Path(t, p[|p| - 2]) == p[..|p| - 1]
  {
    var tip := Tip(p);
    assert p[|p| - 1] in undo;
    assert UndoAt(t, undo, tip);
    IsPathFromGenesis(t, p);
    UndoableIff(Blocks(t, p));
    BlocksPrefix(t, p, |p| - 1);
    ReplayedPrefix(Blocks(t, p), |p| - 1);
    PrefixIsPath(t, p, |p| - 1);
    PathParent(t, tip, |p| - 1);
    var w, block, made := Replayed(Blocks(t, p)).value, t[tip].block, UndoFor(Blocks(t, p));
    DisconnectBlockStored(u, w, block, made, |p| - 1);
    before := DisconnectBlock(u, block, undo[tip], |p| - 1).value;
  }

  // ---- a new block in the tree ----

  lemma {:induction false} TreeGrow(t: Tree, h: Hash, index: BlockIndex)
    requires TreeOk(t) && h !in t && h != NULL
    requires Linked(t[h := index], h) && Checked(t[h := index], h)
    ensures TreeOk(t[h := index])
  {
    var t' := t[h := index];
    forall x | x in t' ensures Linked(t', x) && Checked(t', x) {
      if x != h {
        assert Linked(t, x) && Checked(t, x);
      }
    }
  }

  ghost predicate AllUndoable(t: Tree)
    requires TreeOk(t)
  {
    forall h {:trigger UndoableAt(t, h)} :: h in t ==> UndoableAt(t, h)
  }

  lemma {:induction false} UndoableGrow(t: Tree, h: Hash, index: BlockIndex)
    requires TreeOk(t) && h !in t && TreeOk(t[h := index]) && AllUndoable(t)
    requires index.pprev in t ==> Undoable(Blocks(t, Path(t, index.pprev)) + [index.block])
    ensures AllUndoable(t[h := index])
  {
    var t' := t[h := index];
    forall x | x in t' ensures UndoableAt(t', x) {
      UndoableStep(t, h, index, x);
    }
  }

  lemma {:induction false} UndoableStep(t: Tree, h: Hash, index: BlockIndex, x: Hash)
    requires TreeOk(t) && h !in t && TreeOk(t[h := index]) && (x == h || (x in t && UndoableAt(t, x)))
    requires index.pprev in t ==> Undoable(Blocks(t, Path(t, index.pprev)) + [index.block])
    ensures UndoableAt(t[h := index], x)
  {
    var t' := t[h := index];
    if x != h {
      PathGrow(t, t', x);
    } else {
      assert Linked(t', h);
      if index.pprev != NULL {
        assert index.pprev != h;
        PathGrow(t, t', index.pprev);
        assert Path(t', h) == Path(t', index.pprev) + [h];
        BlocksSnoc(t', Path(t', index.pprev), h);
      }
    }
  }

  /** What is known about the other blocks stays as it is. */
  lemma {:induction false} InvalidGrow(t: Tree, t': Tree, h: Hash)
    requires TreeOk(t) && TreeOk(t') && h in t
    requires forall x :: x in t ==> x in t' && t'[x] == t[x]
    ensures Path(t', h) == Path(t, h) && ValidPath(t', h) == ValidPath(t, h) && Invalid(t', h) == Invalid(t, h)
  {
    PathGrow(t, t', h);
  }

  lemma {:induction false} IsPathGrow(t: Tree, t': Tree, p: seq<Hash>)
    requires TreeOk(t) && TreeOk(t') && IsPath(t, p)
    requires forall x :: x in t ==> x in t' && t'[x] == t[x]
    ensures IsPath(t', p)
    ensures forall x :: x in p ==> x in t && x in t'
    ensures Blocks(t', p) == Blocks(t, p)
  {
    if p != [] {
      PathGrow(t, t', Tip(p));
    }
  }

  lemma {:induction false} UndoGrow(t: Tree, t': Tree, undo: map<Hash, seq<TxUndo>>, active: seq<Hash>)
    requires TreeOk(t) && TreeOk(t') && UndoOk(t, undo, active)
    requires forall x :: x in t ==> x in t' && t'[x] == t[x]
    ensures UndoOk(t', undo, active)
  {
    forall h | h in undo ensures UndoAt(t', undo, h) {
      assert UndoAt(t, undo, h);
      PathGrow(t, t', h);
    }
  }

  // ---- the state ----

  /** What the fields of the state hold, as one value. */
  datatype Snapshot = Snapshot(
    t: Tree, failedValid: set<Hash>, failedChild: set<Hash>, candidates: set<Hash>, bestInvalid: Hash, undo: map<Hash, seq<TxUndo>>,
    active: seq<Hash>, mostWork: seq<Hash>, utxo: UtxoSet, best: Hash) {
    function Failed(): set<Hash> {
      failedValid + failedChild
    }
  }

  /** The whole invariant: the tree, the flags and candidates, both path arrays, and the coins and
      undo data of the active chain. */
  ghost predicate Good(s: Snapshot) {
    && TreeOk(s.t)
    && AllUndoable(s.t)
    && FlagsOk(s.t, s.Failed(), s.candidates)
    && IsPath(s.t, s.mostWork)
    && CoinsAt(s.t, s.active, s.utxo)
    && s.best == Tip(s.active)
    && UndoOk(s.t, s.undo, s.active)
    && (s.bestInvalid == NULL || s.bestInvalid in s.t)
  }

  lemma {:induction false} GoodEmpty(s: Snapshot)
    requires s == Snapshot(map[], {}, {}, {}, NULL, map[], [], [], map[], NULL)
    ensures Good(s)
  {}

  lemma {:induction false} GoodBestInvalid(s: Snapshot, h: Hash) returns (s': Snapshot)
    requires Good(s) && h in s.t
    ensures Good(s') && s' == s.(bestInvalid := h)
  {
    s' := s.(bestInvalid := h);
  }

  lemma {:induction false} GoodFlagged(s: Snapshot, h: Hash) returns (s': Snapshot)
    requires Good(s) && Invalid(s.t, h)
    ensures Good(s') && s' == s.(failedValid := s.failedValid + {h}, candidates := s.candidates - {h})
  {
    s' := s.(failedValid := s.failedValid + {h}, candidates := s.candidates - {h});
  }

  lemma {:induction false} GoodMostWork(s: Snapshot, h: Hash) returns (s': Snapshot)
    requires Good(s) && (h == NULL || h in s.t)
    ensures Good(s') && s' == s.(mostWork := if h == NULL then [] else Path(s.t, h))
  {
    s' := s.(mostWork := if h == NULL then [] else Path(s.t, h));
  }

  lemma {:induction false} GoodGrown(s: Snapshot, h: Hash, index: BlockIndex) returns (s': Snapshot)
    requires Good(s) && h !in s.t && h != NULL
    requires Linked(s.t[h := index], h) && Checked(s.t[h := index], h)
    requires index.pprev in s.t ==> Undoable(Blocks(s.t, Path(s.t, index.pprev)) + [index.block])
    ensures Good(s') && s' == s.(t := s.t[h := index], candidates := s.candidates + {h})
  {
    s' := s.(t := s.t[h := index], candidates := s.candidates + {h});
    TreeGrow(s.t, h, index);
    UndoableGrow(s.t, h, index);
    forall x | x in s.Failed() ensures Invalid(s'.t, x) {
      assert Invalid(s.t, x);
      InvalidGrow(s.t, s'.t, x);
    }
    assert h in s.Failed() ==> Invalid(s.t, h);
    IsPathGrow(s.t, s'.t, s.active);
    IsPathGrow(s.t, s'.t, s.mostWork);
    UndoGrow(s.t, s'.t, s.undo, s.active);
  }

  /** A failed tip of the most-work chain. */
  lemma {:induction false} FailedTip(s: Snapshot)
    requires Good(s) && s.mostWork != [] && Tip(s.mostWork) in s.Failed()
    ensures var tip := Tip(s.mostWork);
      && tip in s.t && s.candidates - {tip} == s.candidates
      && if s.t[tip].pprev == NULL then |s.mostWork| == 1
         else s.t[tip].pprev in s.t && Path(s.t, s.t[tip].pprev) == s.mostWork[..|s.mostWork| - 1]
  {
    assert Linked(s.t, Tip(s.mostWork));
  }

  /** Keeping a tip that is not worse than the best candidate. */
  lemma {:induction false} KeepTip(t: Tree, candidates: set<Hash>, tip: Hash, best: Hash)
    requires tip in t && best in t && !Worse(t, tip, best)
    requires AtLeastAsGood(t, candidates, best)
    ensures AtLeastAsGood(t, candidates, tip)
    ensures tip in candidates ==> tip == best
  {}

  lemma {:induction false} GoodActive(s: Snapshot)
    requires Good(s)
    ensures NoneIn(s.active, s.Failed())
  {
    ActiveUnflagged(s.t, s.active, s.utxo, s.Failed(), s.candidates);
  }

  /** No block is better than the tip of the most-work chain, once all of it is connected. */
  lemma {:induction false} GoodMaximal(s: Snapshot)
    requires Good(s) && (s.candidates == {} || s.active == s.mostWork)
    requires s.candidates == {} || AtLeastAsGood(s.t, s.candidates, Tip(s.mostWork))
    ensures Maximal(s.t, Tip(s.active))
  {
    forall h | h in s.t && ValidPath(s.t, h) ensures Tip(s.active) in s.t && (h == Tip(s.active) || Worse(s.t, h, Tip(s.active))) {
      assert !Invalid(s.t, h) && h in s.candidates;
    }
  }

  /** The tree with one more block: on its parent, one higher, with the chain work of the parent and its
      own, and under the next number. */
  ghost predicate IsEntry(t: Tree, t': Tree, block: Block, hashPrev: Hash, nSequenceId: nat) {
    && block.hash in t' && t' == t[block.hash := t'[block.hash]]
    && var index := t'[block.hash];
    && index.block == block && index.nSequenceId == nSequenceId
    && if hashPrev in t then
         && index.pprev == hashPrev && index.nHeight == t[hashPrev].nHeight + 1
         && index.nChainWork == t[hashPrev].nChainWork + GetBlockWork(block)
       else index.pprev == NULL && index.nHeight == 0 && index.nChainWork == GetBlockWork(block)
  }

  /** A new block is the tip only if it has more work than every block that was there and is valid. */
  lemma {:induction false} NewestLast(t: Tree, t': Tree, block: Block, hashPrev: Hash, nSequenceId: nat, tip: Hash)
    requires Numbered(t, nSequenceId) && block.hash !in t && IsEntry(t, t', block, hashPrev, nSequenceId)
    requires TreeOk(t') && MostWork(t', tip)
    ensures tip == block.hash ==>
              forall h :: h in t && ValidPath(t', h) ==> t'[h].nChainWork < t'[block.hash].nChainWork
  {}

  /** Blocks are numbered as they come. */
  predicate Numbered(t: Tree, nBlockSequenceId: nat) {
    forall h :: h in t ==> t[h].nSequenceId < nBlockSequenceId
  }

  /** The tip has a valid path, and no block with a valid path has more work, or as much and was there
      before it. */
  ghost predicate MostWork(t: Tree, tip: Hash)
    requires TreeOk(t)
  {
    && (tip in t ==> ValidPath(t, tip))
    && forall h {:trigger ValidPath(t, h)} :: h in t && ValidPath(t, h) ==>
         && tip in t && t[h].nChainWork <= t[tip].nChainWork
         && (t[h].nChainWork == t[tip].nChainWork ==> t[tip].nSequenceId <= t[h].nSequenceId)
  }

  lemma {:induction false} MaximalMostWork(s: Snapshot)
    requires Good(s) && Maximal(s.t, Tip(s.active))
    ensures MostWork(s.t, Tip(s.active))
  {
    var t, tip := s.t, Tip(s.active);
    forall h | h in t && ValidPath(t, h) ensures tip in t && NoBetter(t, h, tip) {
      WorseNoBetter(t, h, tip);
    }
  }

  /** Two chains that are not empty share the genesis block. */
  lemma {:induction false} SharedStart(s: Snapshot)
    requires Good(s) && s.mostWork != [] && s.active != []
    requires Tip(s.active) in s.t && !Contains(s.t, s.mostWork, Tip(s.active))
    ensures |s.active| > 1
  {
    PathStart(s.t, Tip(s.active));
    PathStart(s.t, Tip(s.mostWork));
  }

  lemma {:induction false} SharedPrefix(s: Snapshot)
    requires Good(s)
    requires s.active == [] || (Tip(s.active) in s.t && Contains(s.t, s.mostWork, Tip(s.active)))
    ensures s.active <= s.mostWork
  {
    if s.active != [] {
      ContainsPrefix(s.t, s.mostWork, Tip(s.active));
    }
  }

  /** The block to connect next. */
  lemma {:induction false} NextOnPath(t: Tree, p: seq<Hash>, q: seq<Hash>)
    requires TreeOk(t) && IsPath(t, q) && p <= q && q != []
    requires Tip(q) in t && !Contains(t, p, Tip(q))
    ensures |p| < |q| && q[|p|] in t && t[q[|p|]].pprev == Tip(p)
    ensures p + [q[|p|]] <= q
  {
    TipContained(t, q);
    PathParent(t, Tip(q), |p|);
  }

  lemma {:induction false} CandidateOrFailed(s: Snapshot, h: Hash)
    requires Good(s) && h in s.t
    ensures h in s.candidates <==> h !in s.Failed()
  {}

  lemma {:induction false} GoodConnected(s: Snapshot, h: Hash, c: Connected) returns (s': Snapshot)
    requires Good(s)
    requires h in s.t && s.t[h].pprev == Tip(s.active) && ConnectBlock(s.utxo, s.t[h].block, |s.active|) == Some(c)
    ensures Good(s')
    ensures s' == s.(active := s.active + [h], utxo := c.utxo, best := h, undo := StoredUndo(s.undo, h, c.undo))
    ensures Path(s.t, h) == s'.active
  {
    ConnectedStep(s.t, s.active, s.utxo, h, s.undo, c);
    s' := s.(active := s.active + [h], utxo := c.utxo, best := h, undo := StoredUndo(s.undo, h, c.undo));
  }

  lemma {:induction false} GoodDisconnected(s: Snapshot) returns (s': Snapshot)
    requires Good(s) && |s.active| > 1
    ensures Good(s')
    ensures s' == s.(active := s.active[..|s.active| - 1], utxo := s'.utxo, best := s.active[|s.active| - 2])
    ensures var tip := Tip(s.active);
      && tip in s.t && tip in s.undo
      && s.t[tip].pprev == s.active[|s.active| - 2] && s.t[tip].pprev in s.t
      && s.t[tip].nHeight == |s.active| - 1
      && s.t[tip].block.hash == tip
      && Path(s.t, s.t[tip].pprev) == s'.active
      && DisconnectBlock(s.utxo, s.t[tip].block, s.undo[tip], |s.active| - 1) == Some(s'.utxo)
  {
    assert UndoableAt(s.t, Tip(s.active));
    var before := DisconnectedStep(s.t, s.active, s.utxo, s.undo);
    s' := s.(active := s.active[..|s.active| - 1], utxo := before, best := s.active[|s.active| - 2]);
    TipContained(s.t, s.active);
    assert Checked(s.t, Tip(s.active));
    assert Linked(s.t, Tip(s.active));
  }

  /** Storing records keeps the invariant. */
  lemma {:induction false} GoodStored(s: Snapshot, u: UtxoSet)
    requires Good(s) && StoredFrom(u, s.utxo)
    ensures Good(s.(utxo := u))
  {
    StoredTwice(u, s.utxo, Replayed(Blocks(s.t, s.active)).value);
  }

  /** What ConnectTip relies on when it reads a block whose parent is the tip. */
  lemma {:induction false} NextBlock(s: Snapshot, h: Hash)
    requires Good(s) && h in s.t && s.t[h].pprev == Tip(s.active)
    ensures Wf(s.utxo)
    ensures h != NULL && s.t[h].nHeight == |s.active| && s.t[h].block.hash == h
    ensures |s.active| > 0 || h == GENESIS_HASH
    ensures ConnectBlock(s.utxo, s.t[h].block, |s.active|) == None ==> Invalid(s.t, h) && s.active != []
    ensures ConnectBlock(s.utxo, s.t[h].block, |s.active|).Some? ==> ValidPath(s.t, h)
  {
    IsPathFromGenesis(s.t, s.active);
    var w := Replayed(Blocks(s.t, s.active)).value;
    ReplayedSupply(Blocks(s.t, s.active));
    StoredWf(s.utxo, w);
    PathSnoc(s.t, s.active, h);
    ConnectBlockStored(s.utxo, w, s.t[h].block, |s.active|);
    ValidStep(s.t, s.active, h, w);
    assert Linked(s.t, h) && Checked(s.t, h);
    if ConnectBlock(s.utxo, s.t[h].block, |s.active|) == None {
      RefusedStep(s.t, s.active, s.utxo, h);
    }
  }

  lemma {:induction false} Shrunk(before: set<Hash>, between: set<Hash>, after: set<Hash>)
    requires after <= between <= before && (after < between || between < before)
    ensures after < before
  {}

  class ChainState {
    var mapBlockIndex: Tree
    var failedValid: set<Hash>
    var failedChild: set<Hash>
    var setBlockIndexValid: set<Hash>
    var pindexBestInvalid: Hash
    var nBlockSequenceId: nat
    var undoFiles: map<Hash, seq<TxUndo>>
    const chainActive: Chain
    const chainMostWork: Chain
    const pcoinsTip: CoinsViewCache

    ghost function Repr(): set<object> {
      {this, chainActive, chainMostWork} + pcoinsTip.Repr
    }

    ghost predicate Shape() {
      && chainActive != chainMostWork
      && {this, chainActive, chainMostWork} !! pcoinsTip.Repr
      && pcoinsTip.Valid() && pcoinsTip.base == null
    }

    ghost function Now(): Snapshot
      requires Shape()
      reads Repr()
    {
      Snapshot(mapBlockIndex, failedValid, failedChild, setBlockIndexValid, pindexBestInvalid, undoFiles,
               chainActive.vChain, chainMostWork.vChain, pcoinsTip.Utxos(), pcoinsTip.Best())
    }

    ghost predicate Valid()
      reads Repr()
    {
      Shape() && Good(Now()) && Numbered(mapBlockIndex, nBlockSequenceId)
    }

    constructor ()
      ensures Valid() && fresh(Repr())
      ensures Now() == Snapshot(map[], {}, {}, {}, NULL, map[], [], [], map[], NULL)
    {
      mapBlockIndex := map[];
      failedValid, failedChild, setBlockIndexValid := {}, {}, {};
      pindexBestInvalid, nBlockSequenceId := NULL, 1;
      undoFiles := map[];
      var active := new Chain();
      var mostWork := new Chain();
      var db := new CoinsViewDB();
      var cache := new CoinsViewCache(db, null);
      chainActive, chainMostWork, pcoinsTip := active, mostWork, cache;
      new;
      assert fresh(chainActive) && fresh(chainMostWork) && fresh(pcoinsTip.Repr);
      assert pcoinsTip.View() == map[] && Live(map[]) == map[];
      assert Now() == Snapshot(map[], {}, {}, {}, NULL, map[], [], [], map[], NULL);
      GoodEmpty(Now());
    }

    /** Writes the coin cache to the database, now or later. */
    method WriteChainState()
      requires Shape()
      modifies pcoinsTip.Repr
      ensures StoredFrom(pcoinsTip.Utxos(), old(pcoinsTip.Utxos())) && pcoinsTip.Best() == old(pcoinsTip.Best())
    {
      if * {
        pcoinsTip.Flush();
      }
    }

    /** Flags a block as failed and drops it from the candidates. */
    method InvalidBlockFound(pindex: Hash)
      requires Valid() && Invalid(mapBlockIndex, pindex) && chainActive.vChain != []
      modifies this`failedValid, this`setBlockIndexValid, this`pindexBestInvalid
      ensures Valid()
      ensures failedValid == old(failedValid) + {pindex} && setBlockIndexValid == old(setBlockIndexValid) - {pindex}
      ensures pindexBestInvalid in mapBlockIndex && mapBlockIndex[pindexBestInvalid].nChainWork >= mapBlockIndex[pindex].nChainWork
    {
      ghost var s := GoodFlagged(Now(), pindex);
      failedValid := failedValid + {pindex};
      setBlockIndexValid := setBlockIndexValid - {pindex};
      assert pcoinsTip.Layers() == old(pcoinsTip.Layers());
      assert Now() == s;
      InvalidChainFound(pindex);
    }

    /** Remembers the invalid block with the most work. */
    method NoteInvalid(pindexNew: Hash)
      requires Valid() && pindexNew in mapBlockIndex
      modifies this`pindexBestInvalid
      ensures Valid()
      ensures pindexBestInvalid in mapBlockIndex
      ensures pindexBestInvalid == pindexNew || pindexBestInvalid == old(pindexBestInvalid)
      ensures mapBlockIndex[pindexBestInvalid].nChainWork >= mapBlockIndex[pindexNew].nChainWork
      ensures var before := old(pindexBestInvalid);
        before in mapBlockIndex ==> mapBlockIndex[pindexBestInvalid].nChainWork >= mapBlockIndex[before].nChainWork
    {
      if pindexBestInvalid == NULL || mapBlockIndex[pindexNew].nChainWork > mapBlockIndex[pindexBestInvalid].nChainWork {
        ghost var s := GoodBestInvalid(Now(), pindexNew);
        pindexBestInvalid := pindexNew;
        assert Now() == s;
      }
    }

    /** Reports an invalid chain, with the work of the active tip for comparison. */
    method InvalidChainFound(pindexNew: Hash)
      requires Valid() && pindexNew in mapBlockIndex && chainActive.vChain != []
      modifies this`pindexBestInvalid
      ensures Valid() && pindexBestInvalid in mapBlockIndex
      ensures pindexBestInvalid == pindexNew || pindexBestInvalid == old(pindexBestInvalid)
      ensures mapBlockIndex[pindexBestInvalid].nChainWork >= mapBlockIndex[pindexNew].nChainWork
    {
      NoteInvalid(pindexNew);
    }

    /** Connects a block on a new cache over the coin cache. */
    method TryConnect(index: BlockIndex) returns (ok: bool, view: CoinsViewCache, blockundo: seq<TxUndo>)
      requires Shape() && Wf(pcoinsTip.Utxos()) && pcoinsTip.Best() == index.pprev
      requires (index.nHeight > 0 || index.block.hash == GENESIS_HASH) && index.block.hash != NULL
      modifies pcoinsTip.Repr
      ensures pcoinsTip.Layers() == old(pcoinsTip.Layers())
      ensures fresh(view) && view.Valid() && view.base == pcoinsTip
      ensures ok == ConnectBlock(pcoinsTip.Utxos(), index.block, index.nHeight).Some?
      ensures ok ==> ConnectBlock(pcoinsTip.Utxos(), index.block, index.nHeight) == Some(Connected(view.Utxos(), blockundo))
      ensures ok ==> view.hashBlock == index.block.hash
    {
      view := new CoinsViewCache(pcoinsTip.db, pcoinsTip);
      ok, blockundo := Connector.Connect(index.block, index.nHeight, index.pprev, view);
    }

    /** Disconnects a block on a new cache over the coin cache. */
    method TryDisconnect(index: BlockIndex, blockundo: seq<TxUndo>) returns (fClean: bool, view: CoinsViewCache)
      requires Shape() && pcoinsTip.Best() == index.block.hash
      modifies pcoinsTip.Repr
      ensures pcoinsTip.Layers() == old(pcoinsTip.Layers())
      ensures fresh(view) && view.Valid() && view.base == pcoinsTip
      ensures fClean == DisconnectBlock(pcoinsTip.Utxos(), index.block, blockundo, index.nHeight).Some?
      ensures fClean ==> DisconnectBlock(pcoinsTip.Utxos(), index.block, blockundo, index.nHeight) == Some(view.Utxos())
      ensures fClean ==> view.hashBlock == index.pprev
    {
      view := new CoinsViewCache(pcoinsTip.db, pcoinsTip);
      fClean := Connector.Disconnect(index.block, blockundo, index.nHeight, index.pprev, view);
    }

    /** Writes a finished cache through and moves the tip of the active chain. */
    method Adopt(view: CoinsViewCache, hash: Hash, ghost s: Snapshot)
      requires Shape() && TreeOk(mapBlockIndex) && IsPath(mapBlockIndex, chainActive.vChain) && hash in mapBlockIndex
      requires view.Valid() && view.base == pcoinsTip && view !in Repr() && view.hashBlock == hash != NULL
      requires s == Now().(active := Path(mapBlockIndex, hash), utxo := view.Utxos(), best := hash)
      modifies chainActive, pcoinsTip.Repr, view
      ensures StoredFrom(pcoinsTip.Utxos(), s.utxo) && Now() == s.(utxo := pcoinsTip.Utxos())
    {
      assert view.Below() == pcoinsTip.Layers();
      view.Flush();
      assert view.Below() == pcoinsTip.Layers();
      WriteChainState();
      var fork := chainActive.SetTip(mapBlockIndex, hash);
    }

    /** Stores the undo data of an accepted block, writes its cache through and makes it the tip. */
    method AcceptBlock(view: CoinsViewCache, pindexNew: Hash, blockundo: seq<TxUndo>)
      requires Valid()
      requires pindexNew in mapBlockIndex && mapBlockIndex[pindexNew].pprev == Tip(chainActive.vChain) && pindexNew != NULL
      requires view.Valid() && view.base == pcoinsTip && view !in Repr() && view.hashBlock == pindexNew
      requires ConnectBlock(pcoinsTip.Utxos(), mapBlockIndex[pindexNew].block, |chainActive.vChain|)
               == Some(Connected(view.Utxos(), blockundo))
      modifies this`undoFiles, chainActive, pcoinsTip.Repr, view
      ensures Valid()
      ensures chainActive.vChain == old(chainActive.vChain) + [pindexNew]
    {
      ghost var s := Now();
      ghost var s' := GoodConnected(s, pindexNew, Connected(view.Utxos(), blockundo));
      WriteUndo(pindexNew, blockundo);
      assert Now() == s.(undo := s'.undo) && Path(s.t, pindexNew) == s'.active;
      AdoptGood(view, pindexNew, s');
    }

    /** The same, when the new chain state keeps the invariant. */
    method AdoptGood(view: CoinsViewCache, hash: Hash, ghost s: Snapshot)
      requires Shape() && TreeOk(mapBlockIndex) && IsPath(mapBlockIndex, chainActive.vChain) && hash in mapBlockIndex
      requires view.Valid() && view.base == pcoinsTip && view !in Repr() && view.hashBlock == hash != NULL
      requires Good(s) && Numbered(mapBlockIndex, nBlockSequenceId)
      requires s == Now().(active := Path(mapBlockIndex, hash), utxo := view.Utxos(), best := hash)
      modifies chainActive, pcoinsTip.Repr, view
      ensures Valid() && chainActive.vChain == s.active
    {
      Adopt(view, hash, s);
      GoodStored(s, pcoinsTip.Utxos());
    }

    /** Writes the undo file of a block, unless there is one. */
    method WriteUndo(hash: Hash, blockundo: seq<TxUndo>)
      requires Shape()
      modifies this`undoFiles
      ensures Now() == old(Now()).(undo := StoredUndo(old(undoFiles), hash, blockundo))
      ensures undoFiles == if hash == GENESIS_HASH || hash in old(undoFiles) then old(undoFiles)
                           else old(undoFiles)[hash := KeptUndos(blockundo)]
    {
      if hash != GENESIS_HASH && hash !in undoFiles {
        undoFiles := undoFiles[hash := KeptUndos(blockundo)];
      }
      assert pcoinsTip.Layers() == old(pcoinsTip.Layers());
    }

    /** Connects a block whose parent is the tip, on a cache of its own that is written through only
        when the block is accepted. */
    method ConnectTip(pindexNew: Hash) returns (ok: bool)
      requires Valid()
      requires pindexNew in mapBlockIndex && mapBlockIndex[pindexNew].pprev == Tip(chainActive.vChain)
      modifies this`failedValid, this`setBlockIndexValid, this`pindexBestInvalid, this`undoFiles, chainActive, pcoinsTip.Repr
      ensures Valid()
      ensures ok ==> chainActive.vChain == old(chainActive.vChain) + [pindexNew]
      ensures ok ==> failedValid == old(failedValid) && setBlockIndexValid == old(setBlockIndexValid)
      ensures !ok ==> chainActive.vChain == old(chainActive.vChain) != []
      ensures !ok ==> failedValid == old(failedValid) + {pindexNew} && setBlockIndexValid == old(setBlockIndexValid) - {pindexNew}
      ensures if ok then ValidPath(mapBlockIndex, pindexNew) else Invalid(mapBlockIndex, pindexNew)
    {
      NextBlock(Now(), pindexNew);
      var index := mapBlockIndex[pindexNew];
      var view, blockundo;
      ok, view, blockundo := TryConnect(index);
      assert Now() == old(Now());
      if ok {
        AcceptBlock(view, pindexNew, blockundo);
      } else {
        InvalidBlockFound(pindexNew);
      }
    }

    /** Disconnects the tip, which is not the genesis block. It always succeeds. */
    method DisconnectTip()
      requires Valid() && |chainActive.vChain| > 1
      modifies chainActive, pcoinsTip.Repr
      ensures Valid()
      ensures chainActive.vChain == old(chainActive.vChain)[..|old(chainActive.vChain)| - 1]
    {
      ghost var s := Now();
      ghost var s' := GoodDisconnected(s);
      var pindexDelete := Tip(chainActive.vChain);
      var index := mapBlockIndex[pindexDelete];
      var fClean, view := TryDisconnect(index, undoFiles[pindexDelete]);
      assert fClean;
      Adopt(view, index.pprev, s');
      GoodStored(s', pcoinsTip.Utxos());
    }

    // ---- FindMostWorkChain ----

    /** Makes a block, or nothing, the tip of the most-work chain. */
    method SetMostWork(pindex: Hash)
      requires Valid() && (pindex == NULL || pindex in mapBlockIndex)
      modifies chainMostWork
      ensures Valid() && chainMostWork.vChain == if pindex == NULL then [] else Path(mapBlockIndex, pindex)
    {
      ghost var s := GoodMostWork(Now(), pindex);
      var fork := chainMostWork.SetTip(mapBlockIndex, pindex);
      assert pcoinsTip.Layers() == old(pcoinsTip.Layers());
      assert Now() == s;
    }

    /** Drops failed blocks from the end of the most-work chain. They are no candidates already, so
        that erasing them from the set changes nothing. */
    method PeelFailed()
      requires Valid()
      modifies this`setBlockIndexValid, chainMostWork
      ensures Valid() && setBlockIndexValid == old(setBlockIndexValid)
      ensures chainMostWork.vChain != [] ==> Tip(chainMostWork.vChain) !in failedValid + failedChild
      ensures Peeled(old(chainMostWork.vChain), chainMostWork.vChain, failedValid + failedChild)
    {
      while chainMostWork.vChain != [] && Tip(chainMostWork.vChain) in failedValid + failedChild
        invariant Valid() && setBlockIndexValid == old(setBlockIndexValid)
        invariant Peeled(old(chainMostWork.vChain), chainMostWork.vChain, failedValid + failedChild)
        decreases |chainMostWork.vChain|
      {
        PeeledNext(old(chainMostWork.vChain), chainMostWork.vChain, failedValid + failedChild);
        PeelTip();
      }
    }

    method PeelTip()
      requires Valid() && chainMostWork.vChain != [] && Tip(chainMostWork.vChain) in failedValid + failedChild
      modifies this`setBlockIndexValid, chainMostWork
      ensures Valid() && setBlockIndexValid == old(setBlockIndexValid)
      ensures chainMostWork.vChain == old(chainMostWork.vChain)[..|old(chainMostWork.vChain)| - 1]
    {
      var tip := Tip(chainMostWork.vChain);
      FailedTip(Now());
      setBlockIndexValid := setBlockIndexValid - {tip};
      SetMostWork(mapBlockIndex[tip].pprev);
    }

    /** Flags the blocks after a failed one, up to a candidate, and drops them from the candidates. */
    method MarkFailedChild(pindexNew: Hash, pindexTest: Hash)
      requires Valid() && pindexNew in setBlockIndexValid && pindexNew in mapBlockIndex
      requires pindexTest in Path(mapBlockIndex, pindexNew) && pindexTest in failedValid + failedChild
      modifies this`failedChild, this`setBlockIndexValid
      ensures Valid() && setBlockIndexValid < old(setBlockIndexValid) && pindexTest in mapBlockIndex
      ensures FlaggedAbove(old(Now()), Now(), pindexNew, mapBlockIndex[pindexTest].nHeight + 1)
    {
      ghost var s := Now();
      FlagBack(pindexNew, pindexTest);
      assert pcoinsTip.Layers() == old(pcoinsTip.Layers());
      GoodFlaggedAbove(s, Now(), pindexNew, pindexTest);
    }

    /** The loop that does this. */
    method FlagBack(pindexNew: Hash, pindexTest: Hash)
      requires TreeOk(mapBlockIndex) && pindexNew in mapBlockIndex && pindexTest in Path(mapBlockIndex, pindexNew)
      modifies this`failedChild, this`setBlockIndexValid
      ensures pindexTest in mapBlockIndex
      ensures var above := Above(mapBlockIndex, pindexNew, mapBlockIndex[pindexTest].nHeight + 1);
        failedChild == old(failedChild) + above && setBlockIndexValid == old(setBlockIndexValid) - above
    {
      ghost var k, p := mapBlockIndex[pindexNew].nHeight, Path(mapBlockIndex, pindexNew);
      ghost var i :| 0 <= i < |p| && p[i] == pindexTest;
      PathPrefix(mapBlockIndex, pindexNew, i);
      var pindexFailed := pindexNew;
      while pindexTest != pindexFailed
        invariant i <= k < |p| && pindexFailed == p[k] && pindexFailed in mapBlockIndex
        invariant failedChild == old(failedChild) + Above(mapBlockIndex, pindexNew, k + 1)
        invariant setBlockIndexValid == old(setBlockIndexValid) - Above(mapBlockIndex, pindexNew, k + 1)
        decreases k
      {
        AboveParent(mapBlockIndex, pindexNew, pindexFailed, k);
        MoreFlagged(old(failedChild), old(setBlockIndexValid), Above(mapBlockIndex, pindexNew, k + 1), pindexFailed);
        failedChild := failedChild + {pindexFailed};
        setBlockIndexValid := setBlockIndexValid - {pindexFailed};
        pindexFailed := mapBlockIndex[pindexFailed].pprev;
        k := k - 1;
      }
      PathPrefix(mapBlockIndex, pindexNew, k);
    }

    /** The candidate that no other is better than. */
    method BestCandidate() returns (best: Hash)
      requires Valid() && setBlockIndexValid != {}
      ensures best in setBlockIndexValid && best in mapBlockIndex
      ensures forall x :: x in setBlockIndexValid ==> x == best || Worse(mapBlockIndex, x, best)
    {
      BestExists(mapBlockIndex, setBlockIndexValid);
      best :| best in setBlockIndexValid && forall x :: x in setBlockIndexValid ==> x == best || Worse(mapBlockIndex, x, best);
    }

    /** Accepts a candidate if no failed block is known on its path, and otherwise flags it. */
    method TryCandidate(pindexNew: Hash) returns (ok: bool)
      requires Valid() && pindexNew in setBlockIndexValid && pindexNew in mapBlockIndex
      modifies this`failedChild, this`setBlockIndexValid, this`pindexBestInvalid
      ensures Valid()
      ensures if ok then setBlockIndexValid == old(setBlockIndexValid) else setBlockIndexValid < old(setBlockIndexValid)
      ensures ok ==> NoneIn(Path(mapBlockIndex, pindexNew), failedValid + failedChild) && failedChild == old(failedChild)
      ensures !ok ==>
                exists a :: a in Path(mapBlockIndex, pindexNew) && a in mapBlockIndex && a in old(failedValid + failedChild)
                            && failedChild == old(failedChild) + Above(mapBlockIndex, pindexNew, mapBlockIndex[a].nHeight + 1)
    {
      GoodActive(Now());
      var fInvalidAncestor, pindexTest :=
        FindFailed(mapBlockIndex, chainActive.vChain, failedValid + failedChild, pindexNew);
      if fInvalidAncestor {
        NoteInvalid(pindexNew);
        MarkFailedChild(pindexNew, pindexTest);
      }
      ok := !fInvalidAncestor;
    }

    /** The best candidate without a failed block on its path. Every candidate given up gets a new
        flag. */
    method FindCandidate() returns (found: bool, pindexNew: Hash)
      requires Valid()
      modifies this`failedChild, this`setBlockIndexValid, this`pindexBestInvalid
      ensures Valid() && setBlockIndexValid <= old(setBlockIndexValid)
      ensures !found ==> setBlockIndexValid == {}
      ensures found ==>
                && pindexNew in mapBlockIndex && AtLeastAsGood(mapBlockIndex, setBlockIndexValid, pindexNew)
                && NoneIn(Path(mapBlockIndex, pindexNew), failedValid + failedChild)
    {
      while setBlockIndexValid != {}
        invariant Valid() && setBlockIndexValid <= old(setBlockIndexValid)
        decreases setBlockIndexValid
      {
        pindexNew := BestCandidate();
        var ok := TryCandidate(pindexNew);
        if ok {
          return true, pindexNew;
        }
      }
      return false, NULL;
    }

    /** Makes the most-work chain the one to the best candidate, as far as failures are known. */
    method FindMostWorkChain()
      requires Valid()
      modifies this`failedChild, this`setBlockIndexValid, this`pindexBestInvalid, chainMostWork
      ensures Valid() && setBlockIndexValid <= old(setBlockIndexValid)
      ensures if chainMostWork.vChain == [] then setBlockIndexValid == {}
              else setBlockIndexValid == {} || AtLeastAsGood(mapBlockIndex, setBlockIndexValid, Tip(chainMostWork.vChain))
      ensures || setBlockIndexValid < old(setBlockIndexValid)
              || NoneIn(chainMostWork.vChain, failedValid + failedChild)
    {
      PeelFailed();
      ghost var tip := Tip(chainMostWork.vChain);
      if chainMostWork.vChain != [] {
        CandidateOrFailed(Now(), tip);
      }
      var found, pindexNew := FindCandidate();
      if found {
        TakeBetter(pindexNew);
      }
    }

    /** The end of FindMostWorkChain: takes the candidate unless the tip there is is no worse. */
    method TakeBetter(pindexNew: Hash)
      requires Valid() && pindexNew in mapBlockIndex && AtLeastAsGood(mapBlockIndex, setBlockIndexValid, pindexNew)
      modifies chainMostWork
      ensures Valid() && chainMostWork.vChain != []
      ensures AtLeastAsGood(mapBlockIndex, setBlockIndexValid, Tip(chainMostWork.vChain))
      ensures chainMostWork.vChain == Path(mapBlockIndex, pindexNew)
              || (chainMostWork.vChain == old(chainMostWork.vChain) && (Tip(chainMostWork.vChain) in setBlockIndexValid ==> Tip(chainMostWork.vChain) == pindexNew))
    {
      if chainMostWork.vChain == [] || Worse(mapBlockIndex, Tip(chainMostWork.vChain), pindexNew) {
        SetMostWork(pindexNew);
      } else {
        KeepTip(mapBlockIndex, setBlockIndexValid, Tip(chainMostWork.vChain), pindexNew);
      }
    }

    // ---- ActivateBestChain ----

    /** Disconnects the blocks of the active chain that the most-work chain does not hold. */
    method DisconnectToMostWork()
      requires Valid() && chainMostWork.vChain != []
      modifies chainActive, pcoinsTip.Repr
      ensures Valid() && chainActive.vChain <= chainMostWork.vChain
    {
      while chainActive.vChain != [] && !Contains(mapBlockIndex, chainMostWork.vChain, Tip(chainActive.vChain))
        invariant Valid()
        decreases |chainActive.vChain|
      {
        SharedStart(Now());
        DisconnectTip();
      }
      SharedPrefix(Now());
    }

    /** Connects the blocks of the most-work chain, until one is refused. */
    method ConnectToMostWork() returns (ok: bool)
      requires Valid() && chainMostWork.vChain != [] && chainActive.vChain <= chainMostWork.vChain
      modifies this`failedValid, this`setBlockIndexValid, this`pindexBestInvalid, this`undoFiles, chainActive, pcoinsTip.Repr
      ensures Valid() && setBlockIndexValid <= old(setBlockIndexValid)
      ensures ok ==> chainActive.vChain == chainMostWork.vChain && setBlockIndexValid == old(setBlockIndexValid)
      ensures !ok ==> chainActive.vChain != []
      ensures !ok ==> setBlockIndexValid < old(setBlockIndexValid)
                      || !NoneIn(chainMostWork.vChain, old(failedValid + failedChild))
    {
      while !Contains(mapBlockIndex, chainActive.vChain, Tip(chainMostWork.vChain))
        invariant Valid() && setBlockIndexValid == old(setBlockIndexValid) && failedValid == old(failedValid)
        invariant chainActive.vChain <= chainMostWork.vChain
        decreases |chainMostWork.vChain| - |chainActive.vChain|
      {
        NextOnPath(mapBlockIndex, chainActive.vChain, chainMostWork.vChain);
        var pindexConnect := chainMostWork.vChain[|chainActive.vChain|];
        CandidateOrFailed(Now(), pindexConnect);
        ok := ConnectTip(pindexConnect);
        if !ok {
          return;
        }
      }
      ok := true;
    }

    /** Moves the active chain to the most-work chain, as far as its blocks are accepted. */
    method MoveToMostWork() returns (ok: bool)
      requires Valid() && chainMostWork.vChain != []
      modifies this`failedValid, this`setBlockIndexValid, this`pindexBestInvalid, this`undoFiles, chainActive, pcoinsTip.Repr
      ensures Valid() && setBlockIndexValid <= old(setBlockIndexValid)
      ensures ok ==> chainActive.vChain == chainMostWork.vChain && setBlockIndexValid == old(setBlockIndexValid)
      ensures !ok ==> chainActive.vChain != []
      ensures !ok ==> setBlockIndexValid < old(setBlockIndexValid)
                      || !NoneIn(chainMostWork.vChain, old(failedValid + failedChild))
    {
      DisconnectToMostWork();
      ok := ConnectToMostWork();
    }

    /** One round of ActivateBestChain. It ends it unless a block was refused, and then some block
        is flagged that was not before. */
    method ActivateStep() returns (fComplete: bool)
      requires Valid()
      modifies this`failedValid, this`failedChild, this`setBlockIndexValid, this`pindexBestInvalid, this`undoFiles
      modifies chainActive, chainMostWork, pcoinsTip.Repr
      ensures Valid()
      ensures if fComplete then Maximal(mapBlockIndex, Tip(chainActive.vChain))
              else setBlockIndexValid < old(setBlockIndexValid)
    {
      ghost var before := setBlockIndexValid;
      FindMostWorkChain();
      if chainMostWork.vChain == [] {
        GoodMaximal(Now());
        return true;
      }
      ghost var between := setBlockIndexValid;
      fComplete := TryMostWork();
      if !fComplete {
        Shrunk(before, between, setBlockIndexValid);
      }
    }

    /** Connects the most-work chain, or reports that it is not valid. */
    method TryMostWork() returns (fComplete: bool)
      requires Valid() && chainMostWork.vChain != []
      requires setBlockIndexValid == {} || AtLeastAsGood(mapBlockIndex, setBlockIndexValid, Tip(chainMostWork.vChain))
      modifies this`failedValid, this`setBlockIndexValid, this`pindexBestInvalid, this`undoFiles, chainActive, pcoinsTip.Repr
      ensures Valid() && setBlockIndexValid <= old(setBlockIndexValid)
      ensures fComplete ==> Maximal(mapBlockIndex, Tip(chainActive.vChain))
      ensures !fComplete ==> setBlockIndexValid < old(setBlockIndexValid)
                             || !NoneIn(chainMostWork.vChain, old(failedValid + failedChild))
    {
      fComplete := MoveToMostWork();
      if fComplete {
        GoodMaximal(Now());
      } else {
        InvalidChainFound(Tip(chainMostWork.vChain));
      }
    }

    /** Makes the best chain active whose blocks are all accepted. */
    method ActivateBestChain()
      requires Valid()
      modifies this`failedValid, this`failedChild, this`setBlockIndexValid, this`pindexBestInvalid, this`undoFiles
      modifies chainActive, chainMostWork, pcoinsTip.Repr
      ensures Valid() && Maximal(mapBlockIndex, Tip(chainActive.vChain)) && MostWork(mapBlockIndex, Tip(chainActive.vChain))
    {
      var fComplete := false;
      while !fComplete
        invariant Valid()
        invariant fComplete ==> Maximal(mapBlockIndex, Tip(chainActive.vChain))
        decreases !fComplete, setBlockIndexValid
      {
        fComplete := ActivateStep();
      }
      MaximalMostWork(Now());
    }

    /** Adds a checked block to the tree and activates the best chain again. A block that is known
        already is refused. */
    method AddToBlockIndex(block: Block, hashPrev: Hash) returns (ok: bool)
      requires Valid() && BlockOk(block) && block.hash != NULL
      requires hashPrev in mapBlockIndex <==> block.hash != GENESIS_HASH
      requires hashPrev in mapBlockIndex ==>
                 Undoable(Blocks(mapBlockIndex, Path(mapBlockIndex, hashPrev)) + [block])
      modifies Repr()
      ensures Valid()
      ensures ok == (block.hash !in old(mapBlockIndex))
      ensures !ok ==> mapBlockIndex == old(mapBlockIndex) && Now() == old(Now())
      ensures ok ==>
                && IsEntry(old(mapBlockIndex), mapBlockIndex, block, hashPrev, old(nBlockSequenceId))
                && nBlockSequenceId == old(nBlockSequenceId) + 1
      ensures ok ==> Maximal(mapBlockIndex, Tip(chainActive.vChain)) && MostWork(mapBlockIndex, Tip(chainActive.vChain))
      ensures ok && Tip(chainActive.vChain) == block.hash ==>
                forall h :: h in old(mapBlockIndex) && ValidPath(mapBlockIndex, h) ==>
                  mapBlockIndex[h].nChainWork < mapBlockIndex[block.hash].nChainWork
    {
      var hash := block.hash;
      if hash in mapBlockIndex {
        return false;
      }
      ghost var t := mapBlockIndex;
      InsertBlock(block, hashPrev);
      ActivateBestChain();
      NewestLast(t, mapBlockIndex, block, hashPrev, nBlockSequenceId - 1, Tip(chainActive.vChain));
      ok := true;
    }

    /** Puts a block that is not known in the tree and among the candidates. */
    method InsertBlock(block: Block, hashPrev: Hash)
      requires Valid() && BlockOk(block) && block.hash != NULL && block.hash !in mapBlockIndex
      requires hashPrev in mapBlockIndex <==> block.hash != GENESIS_HASH
      requires hashPrev in mapBlockIndex ==>
                 Undoable(Blocks(mapBlockIndex, Path(mapBlockIndex, hashPrev)) + [block])
      modifies this`mapBlockIndex, this`setBlockIndexValid, this`nBlockSequenceId
      ensures Valid() && setBlockIndexValid == old(setBlockIndexValid) + {block.hash}
      ensures IsEntry(old(mapBlockIndex), mapBlockIndex, block, hashPrev, old(nBlockSequenceId))
      ensures nBlockSequenceId == old(nBlockSequenceId) + 1
    {
      var index := BlockIndex(block, NULL, 0, 0, nBlockSequenceId);
      if hashPrev in mapBlockIndex {
        index := index.(pprev := hashPrev);
        index := index.(nHeight := mapBlockIndex[index.pprev].nHeight + 1);
      }
      index := index.(nChainWork := (if index.pprev != NULL then mapBlockIndex[index.pprev].nChainWork else 0) + GetBlockWork(block));
      ghost var s := GoodGrown(Now(), block.hash, index);
      nBlockSequenceId := nBlockSequenceId + 1;
      mapBlockIndex := mapBlockIndex[block.hash := index];
      setBlockIndexValid := setBlockIndexValid + {block.hash};
      assert pcoinsTip.Layers() == old(pcoinsTip.Layers());
      assert Now() == s;
    }
  }

  // ---- consequences for every state that keeps the invariant ----

  /** The coins depend on the tip and the blocks up to it, and not on the reorganisations that led
      there or on what else is in the tree, except that a record whose version is negative may have
      been stored and read back on one way and not on another. The undo files are the same. */
  lemma {:induction false} CoinsDependOnTipOnly(s: Snapshot, s': Snapshot)
    requires Good(s) && Good(s') && Tip(s.active) == Tip(s'.active)
    requires forall x :: x in s.t && x in s'.t ==> s.t[x].block == s'.t[x].block && s.t[x].pprev == s'.t[x].pprev
    ensures s.active == s'.active && s.best == s'.best
    ensures (forall x :: x in s.active ==> x in s.t) && Replayed(Blocks(s.t, s.active)).Some?
    ensures var w := Replayed(Blocks(s.t, s.active)).value;
      && StoredFrom(s.utxo, w) && StoredFrom(s'.utxo, w)
      && forall id :: id in w && w[id].nVersion >= 0 ==> s.utxo[id] == s'.utxo[id] == w[id]
    ensures forall x :: x in s.active && x != GENESIS_HASH ==> x in s.undo && x in s'.undo && s.undo[x] == s'.undo[x]
  {
    SameActive(s, s');
    var w := Replayed(Blocks(s.t, s.active)).value;
    SameUnlessNegative(s.utxo, w);
    SameUnlessNegative(s'.utxo, w);
    SameUndos(s, s');
  }

  lemma {:induction false} SameUnlessNegative(u: UtxoSet, w: UtxoSet)
    requires StoredFrom(u, w)
    ensures forall id :: id in w && w[id].nVersion >= 0 ==> u[id] == w[id]
  {
    forall id | id in w && w[id].nVersion >= 0 ensures u[id] == w[id] {
      assert KeptCoins(w[id]) == w[id];
    }
  }

  lemma {:induction false} SameUndos(s: Snapshot, s': Snapshot)
    requires Good(s) && Good(s') && s.active == s'.active
    requires (forall x :: x in s.active ==> x in s.t && x in s'.t) && Blocks(s.t, s.active) == Blocks(s'.t, s'.active)
    ensures forall x :: x in s.active && x != GENESIS_HASH ==> x in s.undo && x in s'.undo && s.undo[x] == s'.undo[x]
  {
    forall x | x in s.active && x != GENESIS_HASH
      ensures x in s.undo && x in s'.undo && s.undo[x] == s'.undo[x]
    {
      var i :| 0 <= i < |s.active| && s.active[i] == x;
      SameUndo(s, s', i);
    }
  }

  lemma {:induction false} SameActive(s: Snapshot, s': Snapshot)
    requires Good(s) && Good(s') && Tip(s.active) == Tip(s'.active)
    requires forall x :: x in s.t && x in s'.t ==> s.t[x].block == s'.t[x].block && s.t[x].pprev == s'.t[x].pprev
    ensures s.active == s'.active && s.best == s'.best
    ensures (forall x :: x in s.active ==> x in s.t && x in s'.t) && Blocks(s.t, s.active) == Blocks(s'.t, s'.active)
  {
    if Tip(s.active) != NULL {
      AgreeOnPaths(s.t, s'.t, Tip(s.active));
    }
    assert s.active == s'.active;
  }

  /** The path to a block of a path is the front of that path. */
  lemma {:induction false} FrontOfPath(t: Tree, p: seq<Hash>, i: nat)
    requires TreeOk(t) && IsPath(t, p) && i < |p|
    ensures (forall x :: x in p ==> x in t) && Path(t, p[i]) == p[..i + 1]
    ensures Blocks(t, Path(t, p[i])) == Blocks(t, p)[..i + 1]
  {
    PrefixIsPath(t, p, i + 1);
    BlocksPrefix(t, p, i + 1);
  }

  /** The undo data of an active block are those of the replay of the chain up to it. */
  lemma {:induction false} UndoOfActive(t: Tree, p: seq<Hash>, undo: map<Hash, seq<TxUndo>>, i: nat)
    requires TreeOk(t) && IsPath(t, p) && UndoOk(t, undo, p) && 1 <= i < |p|
    ensures forall x :: x in p ==> x in t
    ensures p[i] in undo && Replayed(Blocks(t, p)[..i + 1]).Some?
    ensures undo[p[i]] == KeptUndos(UndoFor(Blocks(t, p)[..i + 1]))
  {
    FrontOfPath(t, p, i);
    assert UndoAt(t, undo, p[i]);
  }

  lemma {:induction false} SameUndo(s: Snapshot, s': Snapshot, i: nat)
    requires Good(s) && Good(s') && s.active == s'.active && i < |s.active| && s.active[i] != GENESIS_HASH
    requires Blocks(s.t, s.active) == Blocks(s'.t, s'.active)
    ensures s.active[i] in s.undo && s.active[i] in s'.undo && s.undo[s.active[i]] == s'.undo[s.active[i]]
  {
    PathStart(s.t, Tip(s.active));
    UndoOfActive(s.t, s.active, s.undo, i);
    UndoOfActive(s'.t, s.active, s'.undo, i);
  }

  lemma {:induction false} TotalStored(u': UtxoSet, u: UtxoSet)
    requires StoredFrom(u', u)
    ensures Total(u') == Total(u)
    decreases |u|
  {
    if u != map[] {
      var id :| id in u;
      TotalRemove(u, id);
      TotalRemove(u', id);
      TotalStored(u' - {id}, u - {id});
    } else {
      assert u' == map[];
    }
  }

  /** No active block is flagged, nor does it hang on a refused block; and whatever is unspent is
      worth at most the subsidies so far, below 17,280,000 coins. */
  lemma {:induction false} ActiveChainSound(s: Snapshot)
    requires Good(s)
    ensures forall x :: x in s.active ==> x in s.t && ValidPath(s.t, x) && x !in s.Failed()
    ensures Wf(s.utxo) && Total(s.utxo) < 17_280_000 * COIN < MAX_MONEY
    ensures Total(s.utxo) <= if s.active == [] then 0 else SubsidiesTo(|s.active| - 1)
  {
    ActiveUnflagged(s.t, s.active, s.utxo, s.Failed(), s.candidates);
    IsPathFromGenesis(s.t, s.active);
    ReplayedSupply(Blocks(s.t, s.active));
    var w := Replayed(Blocks(s.t, s.active)).value;
    StoredWf(s.utxo, w);
    TotalStored(s.utxo, w);
    SubsidiesBelowMaxMoney(if s.active == [] then 0 else |s.active| - 1);
  }
}
