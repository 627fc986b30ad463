/**
 Disconnecting a block undoes connecting it, exactly when no record with an output left was
 overwritten (ConnectBlock and DisconnectBlock in src/main.cpp).
 */
module Reversal {
  import opened Core
  import opened CoinRecord
  import opened Utxo

  /** The shape CheckBlock guarantees: the coinbase first and nowhere else. */
  predicate Shaped(vtx: seq<Tx>) {
    && (forall tx :: tx in vtx ==> TxOk(tx))
    && (vtx != [] ==> vtx[0].IsCoinBase())
    && forall i :: 1 <= i < |vtx| ==> !vtx[i].IsCoinBase()
  }

  /** The set just before the transaction's own outputs are stored. */
  function BeforeStore(p: Progress, tx: Tx): UtxoSet {
    if tx.IsCoinBase() then p.utxo
    else
      match SpendInputs(p.utxo, tx.vin)
      case None => p.utxo
      case Some(s) => s.utxo
  }

  /** No transaction stores its outputs over a record that still has one. */
  predicate NoLiveOverwrite(u: UtxoSet, vtx: seq<Tx>, nHeight: nat) {
    vtx == []
    || (&& NoLiveOverwrite(u, vtx[..|vtx| - 1], nHeight)
        && match ConnectTxs(u, vtx[..|vtx| - 1], nHeight)
           case None => true
           case Some(p) => vtx[|vtx| - 1].id !in BeforeStore(p, vtx[|vtx| - 1]))
  }

  // ---- connecting keeps the stored form ----

  lemma {:induction false} StoreFromTxWf(u: UtxoSet, tx: Tx, nHeight: nat)
    requires Wf(u) && TxOk(tx) && nHeight > 0
    ensures Wf(Store(u, tx.id, FromTx(tx, nHeight)))
  {
    FromTxWf(tx, nHeight);
  }

  lemma {:induction false} ConnectTxWf(p: Progress, tx: Tx, nHeight: nat)
    requires Wf(p.utxo) && TxOk(tx) && nHeight > 0
    ensures Wf(BeforeStore(p, tx))
    ensures ConnectTx(p, tx, nHeight).Some? ==> Wf(ConnectTx(p, tx, nHeight).value.utxo)
  {
    if !tx.IsCoinBase() && SpendInputs(p.utxo, tx.vin).Some? {
      SpendRestore(p.utxo, tx.vin);
    }
    StoreFromTxWf(BeforeStore(p, tx), tx, nHeight);
  }

  lemma {:induction false} ConnectTxsWf(u: UtxoSet, vtx: seq<Tx>, nHeight: nat)
    requires Wf(u) && Shaped(vtx) && nHeight > 0
    ensures ConnectTxs(u, vtx, nHeight).Some? ==>
              && Wf(ConnectTxs(u, vtx, nHeight).value.utxo)
              && (vtx != [] ==> |ConnectTxs(u, vtx, nHeight).value.undo| + 1 == |vtx|)
  {
    if vtx != [] && ConnectTxs(u, vtx, nHeight).Some? {
      var front, tx := vtx[..|vtx| - 1], vtx[|vtx| - 1];
      ConnectTxsWf(u, front, nHeight);
      ConnectTxWf(ConnectTxs(u, front, nHeight).value, tx, nHeight);
    }
  }

  // ---- one transaction ----

  lemma {:induction false} CreatedOutputsMatch(u: UtxoSet, tx: Tx, nHeight: nat)
    requires Lookup(u, tx.id) == FromTx(tx, nHeight) || (tx.id !in u && FromTx(tx, nHeight).IsPruned())
    ensures OutputsMatch(u, tx, nHeight)
  {
    var made := FromTx(tx, nHeight);
    var all := Spendable(tx.vout);
    if Lookup(u, tx.id) == made {
      assert Spendable(made.vout) == made.vout by {
        forall i | 0 <= i < |made.vout|
          ensures Spendable(made.vout)[i] == made.vout[i]
        {
          assert made.vout[i] == all[i];
        }
      }
      CleanedUnique(made.vout, made.vout);
    }
  }

  /** The undo data ConnectTx records for a transaction. */
  function Recorded(p: Progress, tx: Tx): Option<TxUndo> {
    if tx.IsCoinBase() then None
    else
      match SpendInputs(p.utxo, tx.vin)
      case None => None
      case Some(s) => Some(s.undo)
  }

  lemma {:induction false} ConnectTxParts(p: Progress, tx: Tx, nHeight: nat, q: Progress)
    requires ConnectTx(p, tx, nHeight) == Some(q)
    ensures q.utxo == Store(BeforeStore(p, tx), tx.id, FromTx(tx, nHeight))
    ensures q.undo == p.undo + if tx.IsCoinBase() then [] else [Recorded(p, tx).value]
  {}

  /** Undoing the last transaction, for a transaction that overwrote nothing. */
  lemma {:induction false} RevertTx(p: Progress, tx: Tx, nHeight: nat, q: Progress)
    requires Wf(p.utxo) && TxOk(tx) && nHeight > 0
    requires ConnectTx(p, tx, nHeight) == Some(q)
    requires tx.id !in BeforeStore(p, tx)
    ensures DisconnectTx(q.utxo, tx, Recorded(p, tx), nHeight) == Some(p.utxo)
  {
    var s := BeforeStore(p, tx);
    ConnectTxParts(p, tx, nHeight, q);
    assert q.utxo - {tx.id} == s;
    CreatedOutputsMatch(q.utxo, tx, nHeight);
    if !tx.IsCoinBase() {
      SpendRestore(p.utxo, tx.vin);
    }
  }

  /** The undo data of the last transaction of a block, and of the others. */
  lemma {:induction false} LastUndo(u: UtxoSet, vtx: seq<Tx>, nHeight: nat, p: Progress, q: Progress)
    requires Wf(u) && Shaped(vtx) && vtx != [] && nHeight > 0
    requires ConnectTxs(u, vtx[..|vtx| - 1], nHeight) == Some(p) && ConnectTx(p, vtx[|vtx| - 1], nHeight) == Some(q)
    ensures ConnectTxs(u, vtx, nHeight) == Some(q)
    ensures Wf(p.utxo) && Shaped(vtx[..|vtx| - 1])
    ensures |q.undo| + 1 == |vtx| && (|vtx| > 1 ==> |p.undo| + 1 == |vtx| - 1)
    ensures UndoOf(q.undo, |vtx| - 1) == Recorded(p, vtx[|vtx| - 1])
    ensures p.undo <= q.undo
  {
    ConnectTxsWf(u, vtx[..|vtx| - 1], nHeight);
    ConnectTxParts(p, vtx[|vtx| - 1], nHeight, q);
  }

  /** Only the undo data of the transactions concerned matters. */
  lemma {:induction false} UndoPrefix(u: UtxoSet, vtx: seq<Tx>, undo: seq<TxUndo>, more: seq<TxUndo>, nHeight: nat)
    requires |vtx| <= |undo| + 1 && undo <= more
    ensures DisconnectTxs(u, vtx, undo, nHeight) == DisconnectTxs(u, vtx, more, nHeight)
    decreases vtx
  {
    if vtx != [] {
      var k := |vtx| - 1;
      assert UndoOf(undo, k) == UndoOf(more, k);
      var before := DisconnectTx(u, vtx[k], UndoOf(undo, k), nHeight);
      if before.Some? {
        UndoPrefix(before.value, vtx[..k], undo, more, nHeight);
      }
    }
  }

  /** Undoing all transactions of a block that overwrote nothing restores the set. */
  lemma {:induction false} RevertTxs(u: UtxoSet, vtx: seq<Tx>, nHeight: nat, q: Progress)
    requires Wf(u) && Shaped(vtx) && nHeight > 0
    requires ConnectTxs(u, vtx, nHeight) == Some(q)
    requires NoLiveOverwrite(u, vtx, nHeight)
    ensures |vtx| <= |q.undo| + 1 && DisconnectTxs(q.utxo, vtx, q.undo, nHeight) == Some(u)
  {
    if vtx != [] {
      var front, tx := vtx[..|vtx| - 1], vtx[|vtx| - 1];
      var p := ConnectTxs(u, front, nHeight).value;
      LastUndo(u, vtx, nHeight, p, q);
      RevertTx(p, tx, nHeight, q);
      RevertTxs(u, front, nHeight, p);
      UndoPrefix(p.utxo, front, p.undo, q.undo, nHeight);
    }
  }

  // ---- BIP 30 is enough ----

  lemma {:induction false} SpendInputsKeys(u: UtxoSet, vin: seq<OutPoint>)
    requires SpendInputs(u, vin).Some?
    ensures SpendInputs(u, vin).value.utxo.Keys <= u.Keys
  {
    if vin != [] {
      SpendInputsKeys(u, vin[..|vin| - 1]);
      var before := SpendInputs(u, vin[..|vin| - 1]).value.utxo;
      assert vin[|vin| - 1].hash in before;
    }
  }

  lemma {:induction false} BeforeStoreKeys(p: Progress, tx: Tx)
    ensures BeforeStore(p, tx).Keys <= p.utxo.Keys
  {
    if SpendInputs(p.utxo, tx.vin).Some? {
      SpendInputsKeys(p.utxo, tx.vin);
    }
  }

  lemma {:induction false} ConnectTxKeys(p: Progress, tx: Tx, nHeight: nat, q: Progress)
    requires ConnectTx(p, tx, nHeight) == Some(q)
    ensures q.utxo.Keys <= p.utxo.Keys + {tx.id}
  {
    BeforeStoreKeys(p, tx);
    assert q.utxo == Store(BeforeStore(p, tx), tx.id, FromTx(tx, nHeight));
  }

  lemma {:induction false} Bip30PreventsOverwrite(u: UtxoSet, vtx: seq<Tx>, nHeight: nat)
    requires DistinctIds(vtx) && NothingOverwritten(u, vtx)
    ensures NoLiveOverwrite(u, vtx, nHeight)
    ensures ConnectTxs(u, vtx, nHeight).Some? ==>
              ConnectTxs(u, vtx, nHeight).value.utxo.Keys <= u.Keys + IdSet(vtx)
  {
    if vtx != [] {
      var front, tx := vtx[..|vtx| - 1], vtx[|vtx| - 1];
      FrontLast(vtx);
      DistinctIdsSnoc(front, tx);
      IdSetSnoc(front, tx);
      assert forall t :: t in front ==> t in vtx;
      assert tx in vtx;
      Bip30PreventsOverwrite(u, front, nHeight);
      if ConnectTxs(u, front, nHeight).Some? {
        var p := ConnectTxs(u, front, nHeight).value;
        BeforeStoreKeys(p, tx);
        var q := ConnectTx(p, tx, nHeight);
        if q.Some? {
          ConnectTxKeys(p, tx, nHeight, q.value);
        }
      }
    }
  }

  // ---- an overwritten record does not come back ----

  /** Every piece of undo data for `id` says that other outputs of it were left. */
  predicate LeftSome(vin: seq<OutPoint>, undo: TxUndo, id: Hash)
    requires |undo| == |vin|
  {
    forall j :: 0 <= j < |vin| && vin[j].hash == id ==> undo[j].nHeight == 0
  }

  /** While `id` stays, its spends all left something. */
  lemma {:induction false} SpendsLeftSome(u: UtxoSet, vin: seq<OutPoint>, id: Hash)
    requires Wf(u) && SpendInputs(u, vin).Some? && id in SpendInputs(u, vin).value.utxo
    ensures id in u
    ensures |SpendInputs(u, vin).value.undo| == |vin| && LeftSome(vin, SpendInputs(u, vin).value.undo, id)
  {
    SpendRestore(u, vin);
    if vin != [] {
      var front, p := vin[..|vin| - 1], vin[|vin| - 1];
      var before := SpendInputs(u, front).value;
      SpendRestore(u, front);
      LastSpendLeftSome(before.utxo, p, id);
      SpendsLeftSome(u, front, id);
      LeftSomeSnoc(front, before.undo, p, Spend(Lookup(before.utxo, p.hash), p.n).value.undo, id);
      FrontLast(vin);
    }
  }

  lemma {:induction false} LeftSomeSnoc(front: seq<OutPoint>, undo: TxUndo, p: OutPoint, last: TxInUndo, id: Hash)
    requires |undo| == |front| && LeftSome(front, undo, id) && (p.hash == id ==> last.nHeight == 0)
    ensures LeftSome(front + [p], undo + [last], id)
  {}

  lemma {:induction false} LastSpendLeftSome(u: UtxoSet, p: OutPoint, id: Hash)
    requires Wf(u) && Spend(Lookup(u, p.hash), p.n).Some?
    requires id in Store(u, p.hash, Spend(Lookup(u, p.hash), p.n).value.coins)
    ensures id in u && (p.hash == id ==> Spend(Lookup(u, p.hash), p.n).value.undo.nHeight == 0)
  {
    assert p.hash in u;
    SpendUnspend(u[p.hash], p.n);
  }

  lemma {:induction false} RestoreStaysLost(w: UtxoSet, vin: seq<OutPoint>, undo: TxUndo, id: Hash)
    requires |undo| == |vin| && LeftSome(vin, undo, id) && id !in w
    ensures RestoreInputs(w, vin, undo).Some? ==> id !in RestoreInputs(w, vin, undo).value
    decreases vin
  {
    if vin != [] && RestoreInputs(w, vin, undo).Some? {
      var p := vin[|vin| - 1];
      var c := Unspend(Lookup(w, p.hash), p.n, undo[|vin| - 1]).value;
      assert p.hash != id by {
        if p.hash == id {
          assert undo[|vin| - 1].nHeight == 0;
          assert Lookup(w, id).IsPruned();
        }
      }
      RestoreStaysLost(Store(w, p.hash, c), vin[..|vin| - 1], undo[..|vin| - 1], id);
    }
  }

  /** Undoing one transaction does not bring back a record it did not make. */
  lemma {:induction false} RevertTxStaysLost(p: Progress, tx: Tx, nHeight: nat, q: Progress, w: UtxoSet, id: Hash)
    requires Wf(p.utxo) && ConnectTx(p, tx, nHeight) == Some(q)
    requires id in BeforeStore(p, tx) && id !in w - {tx.id}
    ensures id in p.utxo
    ensures var before := DisconnectTx(w, tx, Recorded(p, tx), nHeight);
      before.Some? ==> id !in before.value
  {
    BeforeStoreKeys(p, tx);
    if !tx.IsCoinBase() {
      SpendsLeftSome(p.utxo, tx.vin, id);
      RestoreStaysLost(w - {tx.id}, tx.vin, SpendInputs(p.utxo, tx.vin).value.undo, id);
    }
  }

  /** A record that was there at the end of some transactions, none of which made it, and that is
      missing when they are undone, is still missing afterwards. */
  lemma {:induction false} DisconnectStaysLost(u: UtxoSet, vtx: seq<Tx>, nHeight: nat, q: Progress, w: UtxoSet, id: Hash)
    requires Wf(u) && Shaped(vtx) && nHeight > 0 && id !in IdSet(vtx)
    requires ConnectTxs(u, vtx, nHeight) == Some(q) && id in q.utxo && |vtx| <= |q.undo| + 1
    requires id !in w
    ensures DisconnectTxs(w, vtx, q.undo, nHeight).Some? ==> id !in DisconnectTxs(w, vtx, q.undo, nHeight).value
  {
    if vtx != [] && DisconnectTxs(w, vtx, q.undo, nHeight).Some? {
      var front, tx := vtx[..|vtx| - 1], vtx[|vtx| - 1];
      FrontLast(vtx);
      IdSetSnoc(front, tx);
      var p := ConnectTxs(u, front, nHeight).value;
      LastUndo(u, vtx, nHeight, p, q);
      ConnectTxParts(p, tx, nHeight, q);
      RevertTxStaysLost(p, tx, nHeight, q, w, id);
      var before := DisconnectTx(w, tx, Recorded(p, tx), nHeight).value;
      DisconnectStaysLost(u, front, nHeight, p, before, id);
      UndoPrefix(before, front, p.undo, q.undo, nHeight);
    }
  }

  /** What is lost when the last transaction overwrote a record stays lost. */
  lemma {:induction false} LastOverwriteIsNotUndone(u: UtxoSet, vtx: seq<Tx>, nHeight: nat, p: Progress, q: Progress)
    requires Wf(u) && Shaped(vtx) && DistinctIds(vtx) && nHeight > 0 && vtx != []
    requires ConnectTxs(u, vtx[..|vtx| - 1], nHeight) == Some(p) && ConnectTx(p, vtx[|vtx| - 1], nHeight) == Some(q)
    requires vtx[|vtx| - 1].id in BeforeStore(p, vtx[|vtx| - 1])
    ensures |vtx| <= |q.undo| + 1 && DisconnectTxs(q.utxo, vtx, q.undo, nHeight) != Some(u)
  {
    var front, tx := vtx[..|vtx| - 1], vtx[|vtx| - 1];
    FrontLast(vtx);
    DistinctIdsSnoc(front, tx);
    LastUndo(u, vtx, nHeight, p, q);
    RevertTxStaysLost(p, tx, nHeight, q, q.utxo, tx.id);
    LiveBefore(u, front, nHeight, p, tx.id);
    var before := DisconnectTx(q.utxo, tx, Recorded(p, tx), nHeight);
    if before.Some? {
      DisconnectStaysLost(u, front, nHeight, p, before.value, tx.id);
      UndoPrefix(before.value, front, p.undo, q.undo, nHeight);
    }
  }

  lemma {:induction false} OverwriteIsNotUndone(u: UtxoSet, vtx: seq<Tx>, nHeight: nat, q: Progress)
    requires Wf(u) && Shaped(vtx) && DistinctIds(vtx) && nHeight > 0
    requires ConnectTxs(u, vtx, nHeight) == Some(q) && |q.undo| + 1 == |vtx|
    requires !NoLiveOverwrite(u, vtx, nHeight)
    ensures DisconnectTxs(q.utxo, vtx, q.undo, nHeight) != Some(u)
  {
    var front, tx := vtx[..|vtx| - 1], vtx[|vtx| - 1];
    FrontLast(vtx);
    DistinctIdsSnoc(front, tx);
    var p := ConnectTxs(u, front, nHeight).value;
    LastUndo(u, vtx, nHeight, p, q);
    if tx.id in BeforeStore(p, tx) {
      LastOverwriteIsNotUndone(u, vtx, nHeight, p, q);
    } else {
      RevertTx(p, tx, nHeight, q);
      OverwriteIsNotUndone(u, front, nHeight, p);
      UndoPrefix(p.utxo, front, p.undo, q.undo, nHeight);
    }
  }

  /** A record no transaction made was there before them. */
  lemma {:induction false} LiveBefore(u: UtxoSet, vtx: seq<Tx>, nHeight: nat, q: Progress, id: Hash)
    requires ConnectTxs(u, vtx, nHeight) == Some(q) && id in q.utxo && id !in IdSet(vtx)
    ensures id in u
  {
    if vtx != [] {
      var front, tx := vtx[..|vtx| - 1], vtx[|vtx| - 1];
      FrontLast(vtx);
      IdSetSnoc(front, tx);
      var p := ConnectTxs(u, front, nHeight).value;
      ConnectTxKeys(p, tx, nHeight, q);
      LiveBefore(u, front, nHeight, p, id);
    }
  }

  // ---- the condition, read off the set and the block ----

  predicate SpentBy(vtx: seq<Tx>, p: OutPoint) {
    exists tx :: tx in vtx && !tx.IsCoinBase() && p in tx.vin
  }

  /** Every output that is there under the id of a transaction of the block is spent by that
      transaction or an earlier one of the block. */
  ghost predicate OverwritesOnlySpent(u: UtxoSet, vtx: seq<Tx>) {
    forall k, n :: 0 <= k < |vtx| && Available(u, OutPoint(vtx[k].id, n)) ==>
                     SpentBy(vtx[..k + 1], OutPoint(vtx[k].id, n))
  }

  /** A stored record is one with an output available. */
  lemma {:induction false} LiveIffAvailable(u: UtxoSet, id: Hash)
    requires Wf(u)
    ensures id in u <==> exists n :: Available(u, OutPoint(id, n))
  {
    if id in u {
      assert Available(u, OutPoint(id, |u[id].vout| - 1));
    }
  }

  lemma {:induction false} SpentBySnoc(front: seq<Tx>, tx: Tx, p: OutPoint)
    ensures SpentBy(front + [tx], p) <==> SpentBy(front, p) || (!tx.IsCoinBase() && p in tx.vin)
  {
    if SpentBy(front, p) {
      var t :| t in front && !t.IsCoinBase() && p in t.vin;
      assert t in front + [tx];
    }
    if !tx.IsCoinBase() && p in tx.vin {
      assert tx in front + [tx];
    }
  }

  lemma {:induction false} BeforeStoreAvailable(p: Progress, tx: Tx, nHeight: nat, q: Progress, o: OutPoint)
    requires Wf(p.utxo) && TxOk(tx) && ConnectTx(p, tx, nHeight) == Some(q)
    ensures Available(BeforeStore(p, tx), o) <==> Available(p.utxo, o) && (tx.IsCoinBase() || o !in tx.vin)
    ensures o.hash != tx.id ==> (Available(q.utxo, o) <==> Available(BeforeStore(p, tx), o))
  {
    if !tx.IsCoinBase() {
      SpendInputsSucceeds(p.utxo, tx.vin);
    }
    ConnectTxParts(p, tx, nHeight, q);
  }

  /** Which outputs of an id that no transaction made are left after some transactions. */
  lemma {:induction false} AvailableAfter(u: UtxoSet, vtx: seq<Tx>, nHeight: nat, q: Progress, o: OutPoint)
    requires Wf(u) && Shaped(vtx) && nHeight > 0 && o.hash !in IdSet(vtx)
    requires ConnectTxs(u, vtx, nHeight) == Some(q)
    ensures Available(q.utxo, o) <==> Available(u, o) && !SpentBy(vtx, o)
  {
    if vtx != [] {
      var front, tx := vtx[..|vtx| - 1], vtx[|vtx| - 1];
      var p := ConnectTxs(u, front, nHeight).value;
      LastUndo(u, vtx, nHeight, p, q);
      FrontLast(vtx);
      IdSetSnoc(front, tx);
      AvailableAfter(u, front, nHeight, p, o);
      assert tx in vtx;
      BeforeStoreAvailable(p, tx, nHeight, q, o);
      SpentBySnoc(front, tx, o);
    }
  }

  /** The last transaction stores its outputs over nothing exactly when the transactions spend
      everything that was there under its id. */
  lemma {:induction false} LastOverwrites(u: UtxoSet, vtx: seq<Tx>, nHeight: nat, p: Progress, q: Progress)
    requires Wf(u) && Shaped(vtx) && DistinctIds(vtx) && nHeight > 0 && vtx != []
    requires ConnectTxs(u, vtx[..|vtx| - 1], nHeight) == Some(p) && ConnectTx(p, vtx[|vtx| - 1], nHeight) == Some(q)
    ensures var tx := vtx[|vtx| - 1];
      tx.id !in BeforeStore(p, tx)
      <==> forall n :: Available(u, OutPoint(tx.id, n)) ==> SpentBy(vtx, OutPoint(tx.id, n))
  {
    var front, tx := vtx[..|vtx| - 1], vtx[|vtx| - 1];
    LastUndo(u, vtx, nHeight, p, q);
    FrontLast(vtx);
    DistinctIdsSnoc(front, tx);
    assert tx in vtx;
    ConnectTxWf(p, tx, nHeight);
    LiveIffAvailable(BeforeStore(p, tx), tx.id);
    forall n
      ensures Available(BeforeStore(p, tx), OutPoint(tx.id, n))
              <==> Available(u, OutPoint(tx.id, n)) && !SpentBy(vtx, OutPoint(tx.id, n))
    {
      var o := OutPoint(tx.id, n);
      AvailableAfter(u, front, nHeight, p, o);
      BeforeStoreAvailable(p, tx, nHeight, q, o);
      SpentBySnoc(front, tx, o);
    }
  }

  lemma {:induction false} NoLiveOverwriteIff(u: UtxoSet, vtx: seq<Tx>, nHeight: nat)
    requires Wf(u) && Shaped(vtx) && DistinctIds(vtx) && nHeight > 0
    requires ConnectTxs(u, vtx, nHeight).Some?
    ensures NoLiveOverwrite(u, vtx, nHeight) <==> OverwritesOnlySpent(u, vtx)
  {
    if vtx != [] {
      var front, tx := vtx[..|vtx| - 1], vtx[|vtx| - 1];
      FrontLast(vtx);
      DistinctIdsSnoc(front, tx);
      NoLiveOverwriteIff(u, front, nHeight);
      var p := ConnectTxs(u, front, nHeight).value;
      LastOverwrites(u, vtx, nHeight, p, ConnectTx(p, tx, nHeight).value);
      OverwritesOnlySpentSnoc(u, front, tx);
    }
  }

  lemma {:induction false} OverwritesOnlySpentSnoc(u: UtxoSet, front: seq<Tx>, tx: Tx)
    ensures OverwritesOnlySpent(u, front + [tx])
            <==> && OverwritesOnlySpent(u, front)
                 && forall n :: Available(u, OutPoint(tx.id, n)) ==> SpentBy(front + [tx], OutPoint(tx.id, n))
  {
    var vtx := front + [tx];
    assert forall k :: 0 <= k < |front| ==> vtx[k] == front[k] && vtx[..k + 1] == front[..k + 1];
    assert vtx[..|front| + 1] == vtx && vtx[|front|] == tx;
    if OverwritesOnlySpent(u, vtx) {
      forall n | Available(u, OutPoint(tx.id, n)) ensures SpentBy(vtx, OutPoint(tx.id, n)) {
        assert Available(u, OutPoint(vtx[|front|].id, n));
      }
      forall k, n | 0 <= k < |front| && Available(u, OutPoint(front[k].id, n))
        ensures SpentBy(front[..k + 1], OutPoint(front[k].id, n))
      {
        assert Available(u, OutPoint(vtx[k].id, n));
      }
    }
  }

  // ---- the main results ----

  lemma {:induction false} BlockShaped(block: Block)
    requires BlockOk(block)
    ensures Shaped(block.vtx) && DistinctIds(block.vtx)
  {}

  /** What acceptance of a block says about its transactions. */
  lemma {:induction false} Accepted(u: UtxoSet, block: Block, nHeight: nat) returns (q: Progress)
    requires Wf(u) && nHeight > 0 && block.hash != GENESIS_HASH
    requires ConnectBlock(u, block, nHeight).Some?
    ensures Shaped(block.vtx) && DistinctIds(block.vtx)
    ensures ConnectTxs(u, block.vtx, nHeight) == Some(q) && Wf(q.utxo) && |q.undo| + 1 == |block.vtx|
    ensures ConnectBlock(u, block, nHeight) == Some(Connected(q.utxo, q.undo))
    ensures ValueOut(block.vtx[0].vout) <= Subsidy(nHeight) + q.nFees
    ensures Bip30Exempt(nHeight, block.hash) || NothingOverwritten(u, block.vtx)
  {
    BlockShaped(block);
    ConnectTxsWf(u, block.vtx, nHeight);
    q := ConnectTxs(u, block.vtx, nHeight).value;
  }

  /** For every accepted block, even one exempt from BIP 30: disconnecting it reports no problem
      and restores every record if and only if whatever was left under the ids of its transactions
      is spent in the block in time. The undo data are those that connecting made; StorageExact has
      the same for undo data that were stored and read back. */
  lemma {:induction false} DisconnectRestoresIff(u: UtxoSet, block: Block, nHeight: nat)
    requires Wf(u) && nHeight > 0 && block.hash != GENESIS_HASH
    requires ConnectBlock(u, block, nHeight).Some?
    ensures var c := ConnectBlock(u, block, nHeight).value;
      DisconnectBlock(c.utxo, block, c.undo, nHeight) == Some(u) <==> OverwritesOnlySpent(u, block.vtx)
  {
    var q := Accepted(u, block, nHeight);
    NoLiveOverwriteIff(u, block.vtx, nHeight);
    if NoLiveOverwrite(u, block.vtx, nHeight) {
      RevertTxs(u, block.vtx, nHeight, q);
    } else {
      OverwriteIsNotUndone(u, block.vtx, nHeight, q);
    }
  }

  /** For every accepted block to which BIP 30 applies, disconnecting with the undo data that
      connecting made restores every record. */
  lemma {:induction false} DisconnectRestores(u: UtxoSet, block: Block, nHeight: nat)
    requires Wf(u) && nHeight > 0 && block.hash != GENESIS_HASH
    requires !Bip30Exempt(nHeight, block.hash)
    requires ConnectBlock(u, block, nHeight).Some?
    ensures var c := ConnectBlock(u, block, nHeight).value;
      Wf(c.utxo) && DisconnectBlock(c.utxo, block, c.undo, nHeight) == Some(u)
  {
    var q := Accepted(u, block, nHeight);
    Bip30PreventsOverwrite(u, block.vtx, nHeight);
    RevertTxs(u, block.vtx, nHeight, q);
  }

  /** A block that is exempt from BIP 30, with a coinbase under an id that is stored already. */
  function OverwritingBlock(id: Hash): Block {
    Block(0x00000000000a4d0a398161ffc163c503763b1f4360639393e0e4c8e300e0caec,
          [Tx(id, 1, [OutPoint(0, UINT_MAX)], [TxOut(1, [])], 100, 2)], 200, true, 1)
  }

  /** The condition can fail: this block is accepted, and disconnecting it reports no problem, but
      the record it overwrote is lost. */
  lemma {:induction false} ExemptBlockNotRestored(id: Hash)
    ensures var u, b := map[id := Coins(true, [TxOut(5, [])], 7, 1)], OverwritingBlock(id);
      && Wf(u) && !OverwritesOnlySpent(u, b.vtx)
      && ConnectBlock(u, b, 91842).Some?
      && var c := ConnectBlock(u, b, 91842).value;
      && DisconnectBlock(c.utxo, b, c.undo, 91842) == Some(map[])
  {
    var u, b := map[id := Coins(true, [TxOut(5, [])], 7, 1)], OverwritingBlock(id);
    var tx := b.vtx[0];
    assert TxOk(tx);
    assert b.vtx[..0] == [] && b.vtx[..1] == b.vtx;
    assert Available(u, OutPoint(b.vtx[0].id, 0));
    assert ConnectTxs(u, [], 91842) == Some(Progress(u, [], 0));
    assert FromTx(tx, 91842) == Coins(true, tx.vout, 91842, 1);
    assert ConnectTxs(u, b.vtx, 91842) == Some(Progress(u[id := FromTx(tx, 91842)], [], 0));
    assert Halved(30 * COIN, 0) == 30 * COIN && Subsidy(91842) == 30 * COIN;
    assert DisconnectTxs(map[], [], [], 91842) == Some(map[]);
  }
}
