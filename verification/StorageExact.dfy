/**
 When disconnecting a block from its undo file restores every record exactly.
 */
module StorageExact {
  import opened Core
  import opened VarInt
  import opened CoinRecord
  import opened Utxo
  import opened Reversal
  import opened Storage

  /** All outputs that are left under an id are spent by some transactions. */
  ghost predicate FullySpent(u: UtxoSet, vtx: seq<Tx>, id: Hash) {
    forall n :: Available(u, OutPoint(id, n)) ==> SpentBy(vtx, OutPoint(id, n))
  }

  lemma {:induction false} LastSpentByIff(u: UtxoSet, vin: seq<OutPoint>, id: Hash)
    requires Wf(u) && SpendInputs(u, vin).Some? && id in u
    ensures |SpendInputs(u, vin).value.undo| == |vin|
    ensures id in LastSpentBy(vin, SpendInputs(u, vin).value.undo) <==> id !in SpendInputs(u, vin).value.utxo
  {
    SpendRestore(u, vin);
    if vin != [] {
      var front, p := vin[..|vin| - 1], vin[|vin| - 1];
      var before := SpendInputs(u, front).value;
      SpendRestore(u, front);
      LastSpentByIff(u, front, id);
      assert p.hash in before.utxo;
      var s := Spend(before.utxo[p.hash], p.n).value;
      SpendUnspend(before.utxo[p.hash], p.n);
      assert SpendInputs(u, vin).value.undo == before.undo + [s.undo];
      assert (before.undo + [s.undo])[..|front|] == before.undo;
    }
  }

  lemma {:induction false} LastSpentPrefix(vtx: seq<Tx>, undo: seq<TxUndo>, more: seq<TxUndo>)
    requires |vtx| <= |undo| + 1 && undo <= more
    ensures LastSpent(vtx, undo) == LastSpent(vtx, more)
  {
    if vtx != [] {
      assert UndoOf(undo, |vtx| - 1) == UndoOf(more, |vtx| - 1);
      LastSpentPrefix(vtx[..|vtx| - 1], undo, more);
    }
  }

  /** What one transaction spends the last output of. */
  lemma {:induction false} LastSpentStep(p: Progress, tx: Tx, nHeight: nat, q: Progress, id: Hash)
    requires Wf(p.utxo) && ConnectTx(p, tx, nHeight) == Some(q) && !tx.IsCoinBase()
    ensures Recorded(p, tx).Some? && |Recorded(p, tx).value| == |tx.vin|
    ensures id in LastSpentBy(tx.vin, Recorded(p, tx).value) <==> id in p.utxo && id !in BeforeStore(p, tx)
  {
    SpendRestore(p.utxo, tx.vin);
    if id in p.utxo {
      LastSpentByIff(p.utxo, tx.vin, id);
    } else {
      NotLastSpent(p.utxo, tx.vin, id);
    }
  }

  lemma {:induction false} LastSpentSnoc(u: UtxoSet, vtx: seq<Tx>, nHeight: nat, p: Progress, q: Progress, id: Hash)
    requires Wf(u) && Shaped(vtx) && vtx != [] && nHeight > 0
    requires ConnectTxs(u, vtx[..|vtx| - 1], nHeight) == Some(p) && ConnectTx(p, vtx[|vtx| - 1], nHeight) == Some(q)
    ensures |vtx| <= |q.undo| + 1 && |vtx| - 1 <= |p.undo| + 1
    ensures id in LastSpent(vtx, q.undo)
            <==> id in LastSpent(vtx[..|vtx| - 1], p.undo) || (id in p.utxo && id !in BeforeStore(p, vtx[|vtx| - 1]))
  {
    var front, tx := vtx[..|vtx| - 1], vtx[|vtx| - 1];
    LastUndo(u, vtx, nHeight, p, q);
    LastSpentPrefix(front, p.undo, q.undo);
    if !tx.IsCoinBase() {
      LastSpentStep(p, tx, nHeight, q, id);
    }
  }

  /** A record has its last output spent in a block exactly if it is gone after it, or a transaction
      of the block has its id. */
  lemma {:induction false} LastSpentIff(u: UtxoSet, vtx: seq<Tx>, nHeight: nat, q: Progress, id: Hash)
    requires Wf(u) && Shaped(vtx) && nHeight > 0 && id in u
    requires ConnectTxs(u, vtx, nHeight) == Some(q) && NoLiveOverwrite(u, vtx, nHeight)
    ensures |vtx| <= |q.undo| + 1
    ensures id in LastSpent(vtx, q.undo) <==> id !in q.utxo || id in IdSet(vtx)
  {
    if vtx != [] {
      var front, tx := vtx[..|vtx| - 1], vtx[|vtx| - 1];
      var p := ConnectTxs(u, front, nHeight).value;
      LastSpentSnoc(u, vtx, nHeight, p, q, id);
      LastUndo(u, vtx, nHeight, p, q);
      LastSpentIff(u, front, nHeight, p, id);
      FrontLast(vtx);
      IdSetSnoc(front, tx);
      ConnectTxParts(p, tx, nHeight, q);
      BeforeStoreKeys(p, tx);
    }
  }

  /** Of a record that is not there nothing is spent. */
  lemma {:induction false} NotLastSpent(u: UtxoSet, vin: seq<OutPoint>, id: Hash)
    requires Wf(u) && SpendInputs(u, vin).Some? && id !in u
    ensures |SpendInputs(u, vin).value.undo| == |vin|
    ensures id !in LastSpentBy(vin, SpendInputs(u, vin).value.undo)
  {
    SpendRestore(u, vin);
    if vin != [] {
      var front, p := vin[..|vin| - 1], vin[|vin| - 1];
      var before := SpendInputs(u, front).value;
      SpendRestore(u, front);
      SpendInputsKeys(u, front);
      NotLastSpent(u, front, id);
      assert p.hash in before.utxo;
      assert SpendInputs(u, vin).value.undo[..|front|] == before.undo;
    }
  }

  lemma {:induction false} FullySpentIff(u: UtxoSet, vtx: seq<Tx>, nHeight: nat, q: Progress, id: Hash)
    requires Wf(u) && Shaped(vtx) && nHeight > 0 && id in u
    requires ConnectTxs(u, vtx, nHeight) == Some(q) && OverwritesOnlySpent(u, vtx)
    ensures FullySpent(u, vtx, id) <==> id !in q.utxo || id in IdSet(vtx)
  {
    if id in IdSet(vtx) {
      var k :| 0 <= k < |vtx| && vtx[k].id == id;
      forall n | Available(u, OutPoint(id, n)) ensures SpentBy(vtx, OutPoint(id, n)) {
        assert Available(u, OutPoint(vtx[k].id, n));
        var tx :| tx in vtx[..k + 1] && !tx.IsCoinBase() && OutPoint(id, n) in tx.vin;
        assert tx in vtx;
      }
    } else {
      ConnectTxsWf(u, vtx, nHeight);
      LiveIffAvailable(q.utxo, id);
      forall n ensures Available(q.utxo, OutPoint(id, n)) <==> Available(u, OutPoint(id, n)) && !SpentBy(vtx, OutPoint(id, n)) {
        AvailableAfter(u, vtx, nHeight, q, OutPoint(id, n));
      }
    }
  }

  /** For every accepted block that overwrote only what it had spent before: disconnecting it with its
      undo file works and restores every record up to a version that was negative; and it restores
      all exactly if and only if the block spent the last output of no record with such a version. */
  lemma {:induction false} StoredDisconnectIff(u: UtxoSet, block: Block, nHeight: nat)
    requires Wf(u) && nHeight > 0 && block.hash != GENESIS_HASH
    requires ConnectBlock(u, block, nHeight).Some? && OverwritesOnlySpent(u, block.vtx)
    ensures var c := ConnectBlock(u, block, nHeight).value;
      var d := DisconnectBlock(c.utxo, block, KeptUndos(c.undo), nHeight);
      && d.Some?
      && (forall id :: id in u <==> id in d.value)
      && (forall id :: id in u ==> d.value[id] == if FullySpent(u, block.vtx, id) then KeptCoins(u[id]) else u[id])
      && (d == Some(u) <==> forall id :: id in u && FullySpent(u, block.vtx, id) ==> u[id].nVersion >= 0)
  {
    var q := Accepted(u, block, nHeight);
    var c := ConnectBlock(u, block, nHeight).value;
    DisconnectRestoresIff(u, block, nHeight);
    NoLiveOverwriteIff(u, block.vtx, nHeight);
    assert Marked(c.utxo, c.utxo, {});
    DisconnectTxsMarked(c.utxo, c.utxo, {}, block.vtx, c.undo, nHeight);
    var d := DisconnectBlock(c.utxo, block, KeptUndos(c.undo), nHeight).value;
    assert Marked(d, u, {} + LastSpent(block.vtx, c.undo));
    forall id | id in u ensures id in LastSpent(block.vtx, c.undo) <==> FullySpent(u, block.vtx, id) {
      LastSpentIff(u, block.vtx, nHeight, q, id);
      FullySpentIff(u, block.vtx, nHeight, q, id);
    }
    ExactIff(u, d, LastSpent(block.vtx, c.undo));
  }

  lemma {:induction false} ExactIff(u: UtxoSet, d: UtxoSet, kept: set<Hash>)
    requires Marked(d, u, {} + kept)
    ensures d == u <==> forall id :: id in u && id in kept ==> u[id].nVersion >= 0
  {
    forall id | id in u ensures KeptCoins(u[id]) == u[id] <==> u[id].nVersion >= 0 {
      assert Kept(u[id].nVersion) == u[id].nVersion <==> u[id].nVersion >= 0;
    }
  }

  // ---- a block after which a version is lost ----

  /** A block at height 8 that spends the one output under an id. */
  function SpendingBlock(id: Hash, a: Hash, b: Hash): Block {
    Block(1, [Tx(a, 1, [OutPoint(0, UINT_MAX)], [TxOut(1, [])], 100, 2), Tx(b, 1, [OutPoint(id, 0)], [TxOut(5, [])], 100, 0)], 300, true, 1)
  }

  function NegativeVersion(id: Hash): UtxoSet {
    map[id := Coins(false, [TxOut(5, [])], 7, -1)]
  }

  /** A record with version -1 comes back with version 127. */
  lemma {:induction false} NegativeVersionNotRestored(id: Hash, a: Hash, b: Hash)
    requires id != a && id != b && a != b && id != 0
    ensures var u, block := NegativeVersion(id), SpendingBlock(id, a, b);
      && ConnectBlock(u, block, 8).Some?
      && var c := ConnectBlock(u, block, 8).value;
      && DisconnectBlock(c.utxo, block, KeptUndos(c.undo), 8) == Some(u[id := u[id].(nVersion := 127)])
  {
    var u, block := NegativeVersion(id), SpendingBlock(id, a, b);
    SpendingBlockAccepted(id, a, b);
    OverwritesNothing(u, block.vtx);
    assert Wf(u);
    StoredDisconnectIff(u, block, 8);
    SpendsAll(id, a, b);
    KeptOfMinusOne(u[id]);
    var c := ConnectBlock(u, block, 8).value;
    var d := DisconnectBlock(c.utxo, block, KeptUndos(c.undo), 8).value;
    OneRecord(u, d, id);
  }

  lemma {:induction false} OneRecord(u: UtxoSet, d: UtxoSet, id: Hash)
    requires u.Keys == {id} && forall x :: x in u <==> x in d
    ensures d == u[id := d[id]]
  {}

  lemma {:induction false} KeptOfMinusOne(c: Coins)
    requires c.nVersion == -1
    ensures KeptCoins(c) == c.(nVersion := 127)
  {
    var kept := Kept(c.nVersion);
    assert kept == 127;
  }

  lemma {:induction false} OverwritesNothing(u: UtxoSet, vtx: seq<Tx>)
    requires NothingOverwritten(u, vtx)
    ensures OverwritesOnlySpent(u, vtx)
  {
    forall k, n | 0 <= k < |vtx| ensures !Available(u, OutPoint(vtx[k].id, n)) {
      assert vtx[k] in vtx;
    }
  }

  lemma {:induction false} SpendsAll(id: Hash, a: Hash, b: Hash)
    requires id != 0
    ensures FullySpent(NegativeVersion(id), SpendingBlock(id, a, b).vtx, id)
  {
    var vtx := SpendingBlock(id, a, b).vtx;
    assert vtx[1] in vtx && OutPoint(id, 0) in vtx[1].vin;
  }

  lemma {:induction false} CoinbaseFirst(id: Hash, a: Hash, b: Hash)
    requires id != a
    ensures var vtx := SpendingBlock(id, a, b).vtx;
      ConnectTxs(NegativeVersion(id), vtx[..1], 8) == Some(Progress(NegativeVersion(id)[a := FromTx(vtx[0], 8)], [], 0))
  {
    var vtx, u := SpendingBlock(id, a, b).vtx, NegativeVersion(id);
    assert vtx[..1][..0] == [] && vtx[..1][0] == vtx[0];
    assert ConnectTxs(u, [], 8) == Some(Progress(u, [], 0));
    assert FromTx(vtx[0], 8) == Coins(true, vtx[0].vout, 8, 1);
  }

  lemma {:induction false} SpendFollows(u: UtxoSet, tx: Tx, p: OutPoint)
    requires Wf(u) && Available(u, p) && u[p.hash] == Coins(false, [TxOut(5, [])], 7, -1)
    requires !p.IsNull() && tx.vin == [p] && tx.vout == [TxOut(5, [])]
    ensures ConnectTx(Progress(u, [], 0), tx, 8).Some? && ConnectTx(Progress(u, [], 0), tx, 8).value.nFees == 0
  {
    OneInput(u, p);
    assert ValueOut(tx.vout[..0]) == 0 && ValueOut(tx.vout) == 5;
    SpendInputsSucceeds(u, tx.vin);
  }

  lemma {:induction false} SpendingBlockAccepted(id: Hash, a: Hash, b: Hash)
    requires id != a && id != b && a != b && id != 0
    ensures ConnectBlock(NegativeVersion(id), SpendingBlock(id, a, b), 8).Some?
    ensures NothingOverwritten(NegativeVersion(id), SpendingBlock(id, a, b).vtx)
  {
    var u, block := NegativeVersion(id), SpendingBlock(id, a, b);
    SpendingBlockOk(id, a, b);
    CoinbaseFirst(id, a, b);
    assert block.vtx[..2 - 1] == block.vtx[..1];
    SpendFollows(u[a := FromTx(block.vtx[0], 8)], block.vtx[1], OutPoint(id, 0));
    ConnectTxsStep(u, block.vtx);
    assert Halved(30 * COIN, 0) == 30 * COIN && Subsidy(8) == 30 * COIN;
  }

  lemma {:induction false} ConnectTxsStep(u: UtxoSet, vtx: seq<Tx>)
    requires |vtx| == 2 && ConnectTxs(u, vtx[..1], 8).Some?
    ensures ConnectTxs(u, vtx, 8) == ConnectTx(ConnectTxs(u, vtx[..1], 8).value, vtx[1], 8)
  {}

  lemma {:induction false} OneInput(u: UtxoSet, p: OutPoint)
    requires Available(u, p)
    ensures HaveInputs(u, [p]) && ValueIn(u, [p]) == OutputFor(u, p).nValue
  {
    assert [p][..0] == [] && HaveInputs(u, []) && ValueIn(u, []) == 0;
  }

  lemma {:induction false} SpendingBlockOk(id: Hash, a: Hash, b: Hash)
    requires a != b && id != 0
    ensures BlockOk(SpendingBlock(id, a, b))
  {
    var block := SpendingBlock(id, a, b);
    assert ValueOut(block.vtx[0].vout[..0]) == 0 && ValueOut(block.vtx[1].vout[..0]) == 0;
    assert TxOk(block.vtx[0]) && TxOk(block.vtx[1]);
    assert forall tx :: tx in block.vtx ==> tx == block.vtx[0] || tx == block.vtx[1];
  }
}
