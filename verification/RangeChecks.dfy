/**
 Why the range checks on the inputs of a transaction never reject in a block on a chain
 (CheckInputs, called from ConnectBlock in src/main.cpp). The coinbase of the block is stored before
 its amount is checked, so that the whole set may be worth more than there can be; but no
 transaction of the same block may spend it yet.
 */
module RangeChecks {
  import opened Core
  import opened CoinRecord
  import opened Utxo
  import opened Reversal
  import opened Supply
  import opened Replay

  /** In the middle of a block the whole set may be worth more than MAX_MONEY. */
  lemma {:induction false} CoinbaseExceedsMaxMoney(u: UtxoSet, tx: Tx, nHeight: nat)
    requires Wf(u) && Total(u) > 0 && tx.id !in u && nHeight > 0
    requires TxOk(tx) && tx.IsCoinBase() && tx.vout == [TxOut(MAX_MONEY, [])]
    ensures ConnectTxs(u, [tx], nHeight).Some? && Total(ConnectTxs(u, [tx], nHeight).value.utxo) > MAX_MONEY
  {
    var made := FromTx(tx, nHeight);
    assert [tx][..0] == [] && ConnectTxs(u, [], nHeight) == Some(Progress(u, [], 0));
    assert Spendable(tx.vout) == tx.vout && Cleaned(tx.vout) == tx.vout;
    TotalStore(u, tx.id, made);
    assert made.vout[..0] == [] && Left(made.vout) == Left(made.vout[..0]) + MAX_MONEY;
  }

  // ---- the set without the coinbase of the block ----

  lemma {:induction false} SpendInputsOthers(u: UtxoSet, vin: seq<OutPoint>, id: Hash)
    requires SpendInputs(u, vin).Some? && forall p :: p in vin ==> p.hash != id
    ensures var after := SpendInputs(u, vin).value.utxo;
      (id in after <==> id in u) && (id in u ==> after[id] == u[id])
  {
    if vin != [] {
      var front, last := vin[..|vin| - 1], vin[|vin| - 1];
      assert last in vin && forall p :: p in front ==> p in vin;
      SpendInputsOthers(u, front, id);
    }
  }

  /** A coinbase stored at this height, if anything of it is, and nothing of it spent. */
  predicate CoinbaseUnspent(u: UtxoSet, tx: Tx, nHeight: nat) {
    tx.id in u ==> u[tx.id] == FromTx(tx, nHeight)
  }

  /** No input that is mature names it. */
  lemma {:induction false} MatureElsewhere(u: UtxoSet, coinbase: Tx, nHeight: nat, p: OutPoint)
    requires coinbase.IsCoinBase() && CoinbaseUnspent(u, coinbase, nHeight)
    requires Available(u, p) && Mature(u, p, nHeight)
    ensures p.hash != coinbase.id
  {}

  lemma {:induction false} CoinbaseStays(p: Progress, coinbase: Tx, tx: Tx, nHeight: nat, q: Progress)
    requires coinbase.IsCoinBase() && !tx.IsCoinBase() && tx.id != coinbase.id
    requires CoinbaseUnspent(p.utxo, coinbase, nHeight) && ConnectTx(p, tx, nHeight) == Some(q)
    ensures CoinbaseUnspent(q.utxo, coinbase, nHeight)
    ensures coinbase.id in q.utxo <==> coinbase.id in p.utxo
  {
    forall o | o in tx.vin ensures o.hash != coinbase.id {
      MatureElsewhere(p.utxo, coinbase, nHeight, o);
    }
    SpendInputsOthers(p.utxo, tx.vin, coinbase.id);
    ConnectTxParts(p, tx, nHeight, q);
  }

  /** The value of all records but one. */
  ghost function TotalBut(u: UtxoSet, id: Hash): int {
    Total(u - {id})
  }

  lemma {:induction false} TotalButIs(u: UtxoSet, id: Hash)
    ensures TotalBut(u, id) == Total(u) - if id in u then Left(u[id].vout) else 0
  {
    if id in u {
      TotalRemove(u, id);
    } else {
      assert u - {id} == u;
    }
  }

  /** Within a block, what is there besides its coinbase and the fees so far are worth no more than
      what there was. */
  lemma {:induction false} ValueWithinBlock(u: UtxoSet, vtx: seq<Tx>, nHeight: nat, p: Progress)
    requires Wf(u) && Shaped(vtx) && DistinctIds(vtx) && vtx != [] && nHeight > 0
    requires ConnectTxs(u, vtx, nHeight) == Some(p)
    ensures CoinbaseUnspent(p.utxo, vtx[0], nHeight)
    ensures TotalBut(p.utxo, vtx[0].id) + p.nFees <= Total(u) && p.nFees >= 0
  {
    var front, tx, coinbase := vtx[..|vtx| - 1], vtx[|vtx| - 1], vtx[0];
    if front == [] {
      OnlyCoinbase(u, coinbase, nHeight, p);
    } else {
      ConnectTxsWf(u, front, nHeight);
      var before := ConnectTxs(u, front, nHeight).value;
      ValueWithinBlock(u, front, nHeight, before);
      CoinbaseStays(before, coinbase, tx, nHeight, p);
      TotalConnectTx(before, tx, nHeight, p);
      TotalButIs(before.utxo, coinbase.id);
      TotalButIs(p.utxo, coinbase.id);
    }
  }

  lemma {:induction false} OnlyCoinbase(u: UtxoSet, coinbase: Tx, nHeight: nat, p: Progress)
    requires Wf(u) && coinbase.IsCoinBase() && ConnectTx(Progress(u, [], 0), coinbase, nHeight) == Some(p)
    ensures CoinbaseUnspent(p.utxo, coinbase, nHeight)
    ensures TotalBut(p.utxo, coinbase.id) <= Total(u) && p.nFees == 0
  {
    assert p.utxo - {coinbase.id} == u - {coinbase.id};
    TotalButIs(u, coinbase.id);
    if coinbase.id in u {
      LeftBounds(u[coinbase.id].vout, 0);
    }
  }

  // ---- the checks on the next transaction ----

  lemma {:induction false} ValueInWithout(u: UtxoSet, vin: seq<OutPoint>, id: Hash)
    requires HaveInputs(u, vin) && forall p :: p in vin ==> p.hash != id
    ensures HaveInputs(u - {id}, vin) && ValueIn(u - {id}, vin) == ValueIn(u, vin)
  {
    if vin != [] {
      var front, last := vin[..|vin| - 1], vin[|vin| - 1];
      assert last in vin && forall p :: p in front ==> p in vin;
      ValueInWithout(u, front, id);
    }
  }

  /** In the middle of a block on a set worth at most MAX_MONEY, inputs that are there and mature are
      in range, each of them and together. */
  lemma {:induction false} RangesWithinBlock(u: UtxoSet, vtx: seq<Tx>, nHeight: nat, p: Progress, vin: seq<OutPoint>)
    requires Wf(u) && Total(u) <= MAX_MONEY
    requires Shaped(vtx) && DistinctIds(vtx) && vtx != [] && nHeight > 0
    requires ConnectTxs(u, vtx, nHeight) == Some(p)
    requires HaveInputs(p.utxo, vin) && DistinctInputs(vin) && forall o :: o in vin ==> Mature(p.utxo, o, nHeight)
    ensures MoneyRange(ValueIn(p.utxo, vin))
    ensures forall o :: o in vin ==> MoneyRange(OutputFor(p.utxo, o).nValue)
  {
    var id := vtx[0].id;
    ValueWithinBlock(u, vtx, nHeight, p);
    ConnectTxsWf(u, vtx, nHeight);
    forall o | o in vin ensures o.hash != id {
      MatureElsewhere(p.utxo, vtx[0], nHeight, o);
    }
    ValueInWithout(p.utxo, vin, id);
    assert vin[..|vin|] == vin;
    InputRangeChecksPass(p.utxo - {id}, vin, |vin|);
    forall o | o in vin ensures MoneyRange(OutputFor(p.utxo, o).nValue) {
      assert p.utxo[o.hash].vout[o.n] in p.utxo[o.hash].vout;
    }
  }

  /** On every chain, for every transaction of a block after its coinbase: as far as the inputs are
      there and mature, no range check rejects, at whatever input the loop of CheckInputs is. */
  lemma {:induction false} RangeChecksInBlock(path: seq<Block>, vtx: seq<Tx>, k: nat, p: Progress, j: nat)
    requires FromGenesis(path) && path != [] && Replayed(path).Some?
    requires Shaped(vtx) && DistinctIds(vtx) && 1 <= k < |vtx|
    requires ConnectTxs(Replayed(path).value, vtx[..k], |path|) == Some(p)
    requires j <= |vtx[k].vin| && HaveInputs(p.utxo, vtx[k].vin)
    requires forall i :: 0 <= i < j ==> Mature(p.utxo, vtx[k].vin[i], |path|)
    ensures MoneyRange(ValueIn(p.utxo, vtx[k].vin[..j]))
    ensures forall i :: 0 <= i < j ==> MoneyRange(OutputFor(p.utxo, vtx[k].vin[i]).nValue)
  {
    var u, vin := Replayed(path).value, vtx[k].vin[..j];
    ReplayedSupply(path);
    SubsidiesBelowMaxMoney(|path| - 1);
    assert TxOk(vtx[k]) by { assert vtx[k] in vtx; }
    assert Shaped(vtx[..k]) by { assert forall tx :: tx in vtx[..k] ==> tx in vtx; }
    RangesWithinBlock(u, vtx[..k], |path|, p, vin);
    forall i | 0 <= i < j ensures MoneyRange(OutputFor(p.utxo, vtx[k].vin[i]).nValue) {
      assert vin[i] in vin;
    }
  }

  /** So CheckInputs comes down to this: the inputs are there, mature, and cover the outputs. */
  lemma {:induction false} InputsOkInBlock(path: seq<Block>, vtx: seq<Tx>, k: nat, p: Progress)
    requires FromGenesis(path) && path != [] && Replayed(path).Some?
    requires Shaped(vtx) && DistinctIds(vtx) && 1 <= k < |vtx|
    requires ConnectTxs(Replayed(path).value, vtx[..k], |path|) == Some(p)
    ensures InputsOk(p.utxo, vtx[k], |path|)
            <==> && HaveInputs(p.utxo, vtx[k].vin)
                 && (forall o :: o in vtx[k].vin && p.utxo[o.hash].fCoinBase ==> |path| - p.utxo[o.hash].nHeight >= 100)
                 && ValueIn(p.utxo, vtx[k].vin) >= ValueOut(vtx[k].vout)
  {
    var vin := vtx[k].vin;
    if HaveInputs(p.utxo, vin) && forall o :: o in vin ==> Mature(p.utxo, o, |path|) {
      RangeChecksInBlock(path, vtx, k, p, |vin|);
      assert vin[..|vin|] == vin;
    }
  }
}
