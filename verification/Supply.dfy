/**
 How much value a set of unspent outputs holds, and what connecting a block does to it
 (GetBlockValue, CheckInputs and ConnectBlock in src/main.cpp).
 */
module Supply {
  import opened Core
  import opened CoinRecord
  import opened Utxo
  import opened Reversal

  // ---- the value of a record ----

  /** The sum of the outputs that are left. */
  function Left(vout: seq<TxOut>): int {
    if vout == [] then 0
    else Left(vout[..|vout| - 1]) + if vout[|vout| - 1].IsNull() then 0 else vout[|vout| - 1].nValue
  }

  lemma {:induction false} LeftUpdate(vout: seq<TxOut>, n: nat)
    requires n < |vout| && !vout[n].IsNull()
    ensures Left(vout[n := NULL_OUT]) == Left(vout) - vout[n].nValue
  {
    var front := vout[..|vout| - 1];
    var after := vout[n := NULL_OUT];
    if n == |vout| - 1 {
      assert after[..|vout| - 1] == front;
    } else {
      assert after[..|vout| - 1] == front[n := NULL_OUT];
      LeftUpdate(front, n);
    }
  }

  lemma {:induction false} LeftCleaned(vout: seq<TxOut>)
    ensures Left(Cleaned(vout)) == Left(vout)
  {
    if vout != [] && vout[|vout| - 1].IsNull() {
      LeftCleaned(vout[..|vout| - 1]);
    }
  }

  lemma {:induction false} LeftSpendable(vout: seq<TxOut>)
    requires forall o :: o in vout ==> MoneyRange(o.nValue)
    ensures Left(Spendable(vout)) <= ValueOut(vout)
  {
    if vout != [] {
      var front := vout[..|vout| - 1];
      assert forall o :: o in front ==> o in vout;
      LeftSpendable(front);
      assert Spendable(vout)[..|vout| - 1] == Spendable(front);
      assert vout[|vout| - 1] in vout;
    }
  }

  lemma {:induction false} LeftBounds(vout: seq<TxOut>, n: nat)
    requires forall o :: o in vout ==> o == NULL_OUT || MoneyRange(o.nValue)
    ensures Left(vout) >= 0
    ensures n < |vout| && !vout[n].IsNull() ==> vout[n].nValue <= Left(vout)
  {
    if vout != [] {
      var front := vout[..|vout| - 1];
      assert forall o :: o in front ==> o in vout;
      assert vout[|vout| - 1] in vout;
      LeftBounds(front, n);
    }
  }

  lemma {:induction false} LeftPruned(vout: seq<TxOut>)
    requires forall o :: o in vout ==> o.IsNull()
    ensures Left(vout) == 0
  {
    if vout != [] {
      assert vout[|vout| - 1] in vout;
      assert forall o :: o in vout[..|vout| - 1] ==> o in vout;
      LeftPruned(vout[..|vout| - 1]);
    }
  }

  // ---- the value of a set ----

  ghost function Total(u: UtxoSet): int {
    if u == map[] then 0
    else
      var id :| id in u;
      Left(u[id].vout) + Total(u - {id})
  }

  /** The sum does not depend on the order in which the records are taken. */
  lemma {:induction false} TotalRemove(u: UtxoSet, id: Hash)
    requires id in u
    ensures Total(u) == Left(u[id].vout) + Total(u - {id})
    decreases |u|
  {
    var first :| first in u && Total(u) == Left(u[first].vout) + Total(u - {first});
    if first != id {
      TotalRemove(u - {first}, id);
      TotalRemove(u - {id}, first);
      assert u - {first} - {id} == u - {id} - {first};
    }
  }

  lemma {:induction false} TotalStore(u: UtxoSet, id: Hash, c: Coins)
    ensures Total(Store(u, id, c)) == Total(u) - (if id in u then Left(u[id].vout) else 0) + Left(c.vout)
  {
    if id in u {
      TotalRemove(u, id);
    } else {
      assert u - {id} == u;
    }
    if c.IsPruned() {
      LeftPruned(c.vout);
    } else {
      TotalRemove(Store(u, id, c), id);
      assert Store(u, id, c) - {id} == u - {id};
    }
  }

  lemma {:induction false} TotalNonNegative(u: UtxoSet)
    requires Wf(u)
    ensures Total(u) >= 0
    decreases |u|
  {
    if u != map[] {
      var id :| id in u;
      TotalRemove(u, id);
      TotalNonNegative(u - {id});
      LeftBounds(u[id].vout, 0);
    }
  }

  // ---- spending ----

  /** An output that is still there is the one that was there. */
  lemma {:induction false} OutputsUntouched(u: UtxoSet, vin: seq<OutPoint>, p: OutPoint)
    requires Wf(u) && SpendInputs(u, vin).Some? && Available(SpendInputs(u, vin).value.utxo, p)
    ensures Available(u, p)
    ensures OutputFor(SpendInputs(u, vin).value.utxo, p) == OutputFor(u, p)
    ensures u[p.hash].nHeight == SpendInputs(u, vin).value.utxo[p.hash].nHeight
  {
    if vin != [] {
      var front, last := vin[..|vin| - 1], vin[|vin| - 1];
      var before := SpendInputs(u, front).value;
      SpendRestore(u, front);
      assert last.hash in before.utxo;
      SpendUnspend(before.utxo[last.hash], last.n);
      assert Available(before.utxo, p);
      OutputsUntouched(u, front, p);
    }
  }

  /** Spending takes out of the set exactly the value of the inputs. */
  lemma {:induction false} TotalSpendInputs(u: UtxoSet, vin: seq<OutPoint>)
    requires Wf(u) && HaveInputs(u, vin) && DistinctInputs(vin)
    ensures SpendInputs(u, vin).Some?
    ensures Total(SpendInputs(u, vin).value.utxo) == Total(u) - ValueIn(u, vin)
  {
    SpendInputsSucceeds(u, vin);
    if vin != [] {
      var front, p := vin[..|vin| - 1], vin[|vin| - 1];
      FrontLast(vin);
      TotalSpendInputs(u, front);
      SpendInputsSucceeds(u, front);
      var before := SpendInputs(u, front).value.utxo;
      assert p !in front && p in vin;
      OutputsUntouched(u, front, p);
      var c := before[p.hash];
      TotalStore(before, p.hash, Spend(c, p.n).value.coins);
      LeftUpdate(c.vout, p.n);
      LeftCleaned(c.vout[p.n := NULL_OUT]);
    }
  }

  /** While the whole set holds at most MAX_MONEY, the range checks of CheckInputs accept every
      prefix of any distinct inputs that are there. */
  lemma {:induction false} InputRangeChecksPass(u: UtxoSet, vin: seq<OutPoint>, k: nat)
    requires Wf(u) && Total(u) <= MAX_MONEY
    requires HaveInputs(u, vin) && DistinctInputs(vin) && k <= |vin|
    ensures HaveInputs(u, vin[..k]) && MoneyRange(ValueIn(u, vin[..k]))
    ensures k < |vin| ==> MoneyRange(OutputFor(u, vin[k]).nValue)
  {
    var some := vin[..k];
    assert forall p :: p in some ==> p in vin;
    TotalSpendInputs(u, some);
    SpendInputsSucceeds(u, some);
    TotalNonNegative(SpendInputs(u, some).value.utxo);
    ValueInNonNegative(u, some);
    if k < |vin| {
      var p := vin[k];
      assert p in vin;
      assert u[p.hash].vout[p.n] in u[p.hash].vout;
    }
  }

  lemma {:induction false} ValueInNonNegative(u: UtxoSet, vin: seq<OutPoint>)
    requires Wf(u) && HaveInputs(u, vin)
    ensures ValueIn(u, vin) >= 0
  {
    if vin != [] {
      var front, p := vin[..|vin| - 1], vin[|vin| - 1];
      assert forall q :: q in front ==> q in vin;
      ValueInNonNegative(u, front);
      assert p in vin;
      assert u[p.hash].vout[p.n] in u[p.hash].vout;
    }
  }

  // ---- connecting ----

  /** A coinbase adds at most its outputs; any other transaction adds nothing and its fee leaves. */
  lemma {:induction false} TotalConnectTx(p: Progress, tx: Tx, nHeight: nat, q: Progress)
    requires Wf(p.utxo) && TxOk(tx) && nHeight > 0
    requires ConnectTx(p, tx, nHeight) == Some(q)
    ensures tx.IsCoinBase() ==> Total(q.utxo) <= Total(p.utxo) + ValueOut(tx.vout) && q.nFees == p.nFees
    ensures !tx.IsCoinBase() ==> Total(q.utxo) + q.nFees <= Total(p.utxo) + p.nFees && q.nFees >= p.nFees
  {
    var s := BeforeStore(p, tx);
    ConnectTxWf(p, tx, nHeight);
    var made := FromTx(tx, nHeight);
    TotalStore(s, tx.id, made);
    LeftCleaned(Spendable(tx.vout));
    LeftSpendable(tx.vout);
    if tx.id in s {
      LeftBounds(s[tx.id].vout, 0);
    }
    if !tx.IsCoinBase() {
      TotalSpendInputs(p.utxo, tx.vin);
    }
  }

  lemma {:induction false} TotalConnectTxs(u: UtxoSet, vtx: seq<Tx>, nHeight: nat, q: Progress)
    requires Wf(u) && Shaped(vtx) && vtx != [] && nHeight > 0
    requires ConnectTxs(u, vtx, nHeight) == Some(q)
    ensures Total(q.utxo) + q.nFees <= Total(u) + ValueOut(vtx[0].vout)
    ensures q.nFees >= 0
  {
    var front, tx := vtx[..|vtx| - 1], vtx[|vtx| - 1];
    ConnectTxsWf(u, front, nHeight);
    var p := ConnectTxs(u, front, nHeight).value;
    TotalConnectTx(p, tx, nHeight, q);
    if front != [] {
      TotalConnectTxs(u, front, nHeight, p);
    }
  }

  /** No block creates more than its subsidy. */
  lemma {:induction false} TotalConnectBlock(u: UtxoSet, block: Block, nHeight: nat)
    requires Wf(u) && nHeight > 0 && block.hash != GENESIS_HASH
    requires ConnectBlock(u, block, nHeight).Some?
    ensures Total(ConnectBlock(u, block, nHeight).value.utxo) <= Total(u) + Subsidy(nHeight)
  {
    var q := Accepted(u, block, nHeight);
    TotalConnectTxs(u, block.vtx, nHeight, q);
  }

  // ---- all subsidies together ----

  /** The subsidies of heights 1 to nHeight; the outputs of the genesis block are never stored. */
  function SubsidiesTo(nHeight: nat): nat {
    if nHeight == 0 then 0 else SubsidiesTo(nHeight - 1) + Subsidy(nHeight)
  }

  /** In each halving interval, what is still to come is at most what it would be at twice the
      current subsidy. */
  lemma {:induction false} SubsidiesBound(q: nat, r: nat)
    requires r < HALVING_INTERVAL
    ensures SubsidiesTo(q * HALVING_INTERVAL + r) + 30 * COIN
            <= 60 * HALVING_INTERVAL * COIN - (2 * HALVING_INTERVAL - r - 1) * Halved(30 * COIN, q)
    decreases q, r
  {
    var nHeight := q * HALVING_INTERVAL + r;
    SubsidyIn(q, r);
    if r > 0 {
      SubsidiesBound(q, r - 1);
      Distribute(2 * HALVING_INTERVAL - r - 1, Halved(30 * COIN, q));
    } else if q > 0 {
      SubsidiesBound(q - 1, HALVING_INTERVAL - 1);
      assert (q - 1) * HALVING_INTERVAL + (HALVING_INTERVAL - 1) == nHeight - 1;
      assert 2 * Halved(30 * COIN, q) <= Halved(30 * COIN, q - 1);
    }
  }

  /** The subsidy in a halving interval. */
  lemma {:induction false} SubsidyIn(q: nat, r: nat)
    requires r < HALVING_INTERVAL
    ensures Subsidy(q * HALVING_INTERVAL + r) <= Halved(30 * COIN, q)
  {
    assert (q * HALVING_INTERVAL + r) / HALVING_INTERVAL == q;
  }

  lemma {:induction false} Distribute(a: int, b: int)
    ensures (a + 1) * b == a * b + b
  {}

  /** At every height the subsidies so far come to less than 17,280,000 coins, which is less than
      MAX_MONEY. */
  lemma {:induction false} SubsidiesBelowMaxMoney(nHeight: nat)
    ensures SubsidiesTo(nHeight) < 17_280_000 * COIN < MAX_MONEY
  {
    var q, r := nHeight / HALVING_INTERVAL, nHeight % HALVING_INTERVAL;
    SubsidiesBound(q, r);
    MulNonNegative(2 * HALVING_INTERVAL - r - 1, Halved(30 * COIN, q));
  }

  lemma {:induction false} MulNonNegative(a: int, b: int)
    requires a >= 0 && b >= 0
    ensures a * b >= 0
  {}
}
