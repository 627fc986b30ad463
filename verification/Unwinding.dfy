/**
 Disconnecting any number of blocks from the end of a chain, each with its undo file (DisconnectTip
 in src/main.cpp, called by ActivateBestChain until the chains meet).
 */
module Unwinding {
  import opened Core
  import opened Utxo
  import opened Reversal
  import opened Storage
  import opened StorageExact
  import opened Replay

  /** The set after disconnecting all blocks of a path from height k on, or nothing if one fails. */
  ghost function Unwound(path: seq<Block>, k: nat, u: UtxoSet): Option<UtxoSet>
    requires Replayed(path).Some?
  {
    if |path| <= k then Some(u)
    else
      match DisconnectBlock(u, path[|path| - 1], KeptUndos(UndoFor(path)), |path| - 1)
      case None => None
      case Some(v) =>
        ReplayedPrefix(path, |path| - 1);
        Unwound(path[..|path| - 1], k, v)
  }

  /** The ids of which blocks from height k on spent the last output. */
  function LastSpentFrom(path: seq<Block>, k: nat): set<Hash>
    requires Replayed(path).Some?
  {
    if |path| <= k then {}
    else
      var vtx, undo := path[|path| - 1].vtx, UndoFor(path);
      ReplayedPrefix(path, |path| - 1);
      LastSpentFrom(path[..|path| - 1], k) + if |vtx| <= |undo| + 1 then LastSpent(vtx, undo) else {}
  }

  ghost predicate UndoableTo(path: seq<Block>, i: nat)
    requires i < |path|
  {
    Undoable(path[..i + 1])
  }

  /** All exempt blocks from height k on overwrite only what they have spent before. */
  ghost predicate UndoableFrom(path: seq<Block>, k: nat) {
    forall i {:trigger UndoableTo(path, i)} :: k <= i < |path| ==> UndoableTo(path, i)
  }

  /** What the last block of a path did to the set before it. */
  lemma {:induction false} LastAccepted(path: seq<Block>) returns (u: UtxoSet, q: Progress)
    requires FromGenesis(path) && |path| > 1 && Replayed(path).Some? && Undoable(path)
    ensures Replayed(path[..|path| - 1]) == Some(u) && Wf(u)
    ensures var block, nHeight := path[|path| - 1], |path| - 1;
      && Shaped(block.vtx) && DistinctIds(block.vtx) && ConnectTxs(u, block.vtx, nHeight) == Some(q)
      && Replayed(path) == Some(q.utxo) && UndoFor(path) == q.undo && |q.undo| + 1 == |block.vtx|
      && OverwritesOnlySpent(u, block.vtx) && NoLiveOverwrite(u, block.vtx, nHeight)
      && DisconnectBlock(q.utxo, block, q.undo, nHeight) == Some(u)
  {
    UndoableIff(path);
    DisconnectLast(path);
    FrontFromGenesis(path);
    ReplayedSupply(path[..|path| - 1]);
    u := Replayed(path[..|path| - 1]).value;
    q := Accepted(u, path[|path| - 1], |path| - 1);
    NoLiveOverwriteIff(u, path[|path| - 1].vtx, |path| - 1);
  }

  lemma {:induction false} UnwoundMarked(path: seq<Block>, k: nat, u': UtxoSet, kept: set<Hash>)
    requires FromGenesis(path) && 1 <= k <= |path| && Replayed(path).Some? && UndoableFrom(path, k)
    requires Marked(u', Replayed(path).value, kept)
    ensures Replayed(path[..k]).Some? && Unwound(path, k, u').Some?
    ensures Marked(Unwound(path, k, u').value, Replayed(path[..k]).value, kept + LastSpentFrom(path, k))
    decreases |path|
  {
    if |path| == k {
      assert path[..k] == path && kept + {} == kept;
    } else {
      var front, block := path[..|path| - 1], path[|path| - 1];
      UndoableFront(path, k);
      var u, q := LastAccepted(path);
      DisconnectTxsMarked(u', q.utxo, kept, block.vtx, q.undo, |path| - 1);
      var more := LastSpent(block.vtx, q.undo);
      var v' := DisconnectBlock(u', block, KeptUndos(q.undo), |path| - 1).value;
      FrontFromGenesis(path);
      UnwoundMarked(front, k, v', kept + more);
      assert front[..k] == path[..k];
      assert kept + more + LastSpentFrom(front, k) == kept + LastSpentFrom(path, k);
    }
  }

  lemma {:induction false} UndoableFront(path: seq<Block>, k: nat)
    requires UndoableFrom(path, k) && |path| > k
    ensures UndoableFrom(path[..|path| - 1], k) && Undoable(path)
  {
    var front := path[..|path| - 1];
    forall i | k <= i < |front| ensures UndoableTo(front, i) {
      assert UndoableTo(path, i);
      assert front[..i + 1] == path[..i + 1];
    }
    assert UndoableTo(path, |path| - 1);
    assert path[..|path| - 1 + 1] == path;
  }

  /** The block at height i spends everything that is left under an id. */
  ghost predicate SpentAt(path: seq<Block>, i: nat, id: Hash)
    requires i < |path|
  {
    && Replayed(path[..i]).Some? && id in Replayed(path[..i]).value
    && FullySpent(Replayed(path[..i]).value, path[i].vtx, id)
  }

  ghost predicate SpentFrom(path: seq<Block>, k: nat, id: Hash) {
    exists i :: k <= i < |path| && SpentAt(path, i, id)
  }

  lemma {:induction false} SpentFromSnoc(path: seq<Block>, k: nat, id: Hash)
    requires k < |path|
    ensures SpentFrom(path, k, id) <==> SpentFrom(path[..|path| - 1], k, id) || SpentAt(path, |path| - 1, id)
  {
    var front := path[..|path| - 1];
    forall i | 0 <= i < |front| ensures SpentAt(front, i, id) <==> SpentAt(path, i, id) {
      assert front[..i] == path[..i];
    }
    if i :| k <= i < |path| && SpentAt(path, i, id) {
      assert i == |front| || SpentAt(front, i, id);
    }
    if i :| k <= i < |front| && SpentAt(front, i, id) {
      assert SpentAt(path, i, id);
    }
  }

  /** A record that is there at height k has its last output spent later exactly if some block spends
      all that is left of it; and until then it stays. */
  lemma {:induction false} LastSpentFromIff(path: seq<Block>, k: nat, id: Hash)
    requires FromGenesis(path) && 1 <= k <= |path| && Replayed(path).Some? && UndoableFrom(path, k)
    requires Replayed(path[..k]).Some? && id in Replayed(path[..k]).value
    ensures id in LastSpentFrom(path, k) <==> SpentFrom(path, k, id)
    ensures !SpentFrom(path, k, id) ==> id in Replayed(path).value
    decreases |path|
  {
    if |path| == k {
      assert path[..k] == path;
    } else {
      var front := path[..|path| - 1];
      assert front[..k] == path[..k];
      UndoableFront(path, k);
      FrontFromGenesis(path);
      ReplayedPrefix(path, |path| - 1);
      LastSpentFromIff(front, k, id);
      SpentFromSnoc(path, k, id);
      LastBlockSpends(path, id);
    }
  }

  lemma {:induction false} LastBlockSpends(path: seq<Block>, id: Hash)
    requires FromGenesis(path) && |path| > 1 && Replayed(path).Some? && Undoable(path)
    ensures |path[|path| - 1].vtx| <= |UndoFor(path)| + 1 && Replayed(path[..|path| - 1]).Some?
    ensures id in Replayed(path[..|path| - 1]).value ==>
              && (id in LastSpent(path[|path| - 1].vtx, UndoFor(path)) <==> SpentAt(path, |path| - 1, id))
              && (!SpentAt(path, |path| - 1, id) ==> id in Replayed(path).value)
  {
    var u, q := LastAccepted(path);
    if id in u {
      LastSpentIff(u, path[|path| - 1].vtx, |path| - 1, q, id);
      FullySpentIff(u, path[|path| - 1].vtx, |path| - 1, q, id);
    }
  }

  /** Disconnecting the blocks of a chain from height k on leads to what the chain up to there leads
      to, up to versions that were negative; and it leads to exactly that if and only if none of the
      disconnected blocks had spent everything that was left of a record with such a version that is
      there again. */
  lemma {:induction false} UnwindingExactIff(path: seq<Block>, k: nat)
    requires FromGenesis(path) && 1 <= k <= |path| && Replayed(path).Some? && UndoableFrom(path, k)
    ensures Replayed(path[..k]).Some?
    ensures var d, w := Unwound(path, k, Replayed(path).value), Replayed(path[..k]).value;
      && d.Some? && StoredFrom(d.value, w)
      && (d == Some(w) <==> forall id :: id in w && SpentFrom(path, k, id) ==> w[id].nVersion >= 0)
  {
    var u := Replayed(path).value;
    assert Marked(u, u, {});
    UnwoundMarked(path, k, u, {});
    var d, w, kept := Unwound(path, k, u).value, Replayed(path[..k]).value, LastSpentFrom(path, k);
    forall id | id in w ensures id in kept <==> SpentFrom(path, k, id) {
      LastSpentFromIff(path, k, id);
    }
    ExactIff(w, d, kept);
  }
}
