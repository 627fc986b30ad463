/**
 The unspent outputs of one transaction (CCoins in src/coins.h and src/coins.cpp): spending an
 output with lossy undo data, and putting it back.
 */
module CoinRecord {
  import opened Core

  /** Undo data for one input. The metadata is kept only when the last output was spent; a height
      of 0 says it was not. */
  datatype TxInUndo = TxInUndo(txout: TxOut, fCoinBase: bool, nHeight: nat, nVersion: int)

  datatype Coins = Coins(fCoinBase: bool, vout: seq<TxOut>, nHeight: nat, nVersion: int) {

    predicate IsAvailable(n: nat) {
      n < |vout| && !vout[n].IsNull()
    }

    predicate IsPruned() {
      forall o :: o in vout ==> o.IsNull()
    }

    /** What every stored record that still has an output satisfies. */
    predicate Wf() {
      && nHeight > 0
      && vout != []
      && !vout[|vout| - 1].IsNull()
      && (forall o :: o in vout ==> o == NULL_OUT || MoneyRange(o.nValue))
    }
  }

  const NO_COINS := Coins(false, [], 0, 0)

  /** CCoins equality: two records with nothing left are the same, whatever their metadata. */
  predicate SameCoins(a: Coins, b: Coins) {
    (a.IsPruned() && b.IsPruned()) || a == b
  }

  /** Outputs without the spent ones at the end. */
  function Cleaned(vout: seq<TxOut>): (r: seq<TxOut>)
    ensures r <= vout
    ensures r != [] ==> !r[|r| - 1].IsNull()
    ensures forall i :: |r| <= i < |vout| ==> vout[i].IsNull()
  {
    if vout != [] && vout[|vout| - 1].IsNull() then Cleaned(vout[..|vout| - 1]) else vout
  }

  /** There is only one such prefix. */
  lemma {:induction false} CleanedUnique(vout: seq<TxOut>, r: seq<TxOut>)
    requires r <= vout
    requires r != [] ==> !r[|r| - 1].IsNull()
    requires forall i :: |r| <= i < |vout| ==> vout[i].IsNull()
    ensures Cleaned(vout) == r
  {
    var c := Cleaned(vout);
    assert r != [] ==> r[|r| - 1] == vout[|r| - 1];
    assert c != [] ==> c[|c| - 1] == vout[|c| - 1];
  }

  method Cleanup(vout: seq<TxOut>) returns (r: seq<TxOut>)
    ensures r == Cleaned(vout)
  {
    r := vout;
    while |r| > 0 && r[|r| - 1].IsNull()
      invariant r <= vout
      invariant forall i :: |r| <= i < |vout| ==> vout[i].IsNull()
    {
      r := r[..|r| - 1];
    }
    CleanedUnique(vout, r);
  }

  /** Outputs with the provably unspendable ones made null. */
  function Spendable(vout: seq<TxOut>): (r: seq<TxOut>)
    ensures |r| == |vout|
    ensures forall i :: 0 <= i < |vout| ==> r[i] == if IsUnspendable(vout[i].scriptPubKey) then NULL_OUT else vout[i]
  {
    seq(|vout|, i requires 0 <= i < |vout| => if IsUnspendable(vout[i].scriptPubKey) then NULL_OUT else vout[i])
  }

  method ClearUnspendable(c: Coins) returns (r: Coins)
    ensures r == c.(vout := Cleaned(Spendable(c.vout)))
  {
    var vout := c.vout;
    for i := 0 to |vout|
      invariant |vout| == |c.vout|
      invariant forall j :: 0 <= j < i ==> vout[j] == Spendable(c.vout)[j]
      invariant forall j :: i <= j < |vout| ==> vout[j] == c.vout[j]
    {
      if IsUnspendable(vout[i].scriptPubKey) {
        vout := vout[i := NULL_OUT];
      }
    }
    assert vout == Spendable(c.vout);
    vout := Cleanup(vout);
    r := c.(vout := vout);
  }

  /** The record a transaction leaves at a given height. */
  function FromTx(tx: Tx, nHeight: nat): Coins {
    Coins(tx.IsCoinBase(), Cleaned(Spendable(tx.vout)), nHeight, tx.nVersion)
  }

  datatype Spent = Spent(coins: Coins, undo: TxInUndo)

  /** Spending output n: the new record and the undo data, or nothing if the output is not there. */
  function Spend(c: Coins, n: nat): Option<Spent> {
    if !c.IsAvailable(n) then None
    else
      var left := c.(vout := Cleaned(c.vout[n := NULL_OUT]));
      var undo := if left.vout == [] then TxInUndo(c.vout[n], c.fCoinBase, c.nHeight, c.nVersion)
                  else TxInUndo(c.vout[n], false, 0, 0);
      Some(Spent(left, undo))
  }

  method SpendOutput(c: Coins, n: nat) returns (ok: bool, r: Coins, undo: TxInUndo)
    ensures ok == Spend(c, n).Some?
    ensures ok ==> Spend(c, n) == Some(Spent(r, undo))
    ensures !ok ==> r == c
  {
    r, undo := c, TxInUndo(NULL_OUT, false, 0, 0);
    if n >= |c.vout| {
      return false, r, undo;
    }
    if c.vout[n].IsNull() {
      return false, r, undo;
    }
    undo := undo.(txout := c.vout[n]);
    var vout := Cleanup(c.vout[n := NULL_OUT]);
    r := c.(vout := vout);
    if |r.vout| == 0 {
      undo := undo.(nHeight := c.nHeight, fCoinBase := c.fCoinBase, nVersion := c.nVersion);
    }
    return true, r, undo;
  }

  /** Outputs with `o` at position n, lengthened with null outputs when they are too short. */
  function PutOut(vout: seq<TxOut>, n: nat, o: TxOut): (r: seq<TxOut>)
    ensures |r| == if n < |vout| then |vout| else n + 1
    ensures forall i :: 0 <= i < |r| ==> r[i] == if i == n then o else if i < |vout| then vout[i] else NULL_OUT
  {
    (if n < |vout| then vout else vout + seq(n + 1 - |vout|, _ => NULL_OUT))[n := o]
  }

  /** Putting a spent output back, or nothing if DisconnectBlock would report a problem.
      `c` is NO_COINS or any record with no output left when the transaction is not stored. */
  function Unspend(c: Coins, n: nat, undo: TxInUndo): Option<Coins> {
    if undo.nHeight != 0 then
      if !c.IsPruned() then None
      else Some(Coins(undo.fCoinBase, PutOut([], n, undo.txout), undo.nHeight, undo.nVersion))
    else
      if c.IsPruned() || c.IsAvailable(n) then None
      else Some(c.(vout := PutOut(c.vout, n, undo.txout)))
  }

  lemma {:induction false} PrunedIffEmpty(c: Coins)
    requires c.vout == [] || !c.vout[|c.vout| - 1].IsNull()
    ensures c.IsPruned() <==> c.vout == []
  {
    if c.vout != [] {
      assert c.vout[|c.vout| - 1] in c.vout;
    }
  }

  /** Dropping the trailing null outputs loses nothing that putting the output back does not restore. */
  lemma {:induction false} PutOutRestores(vout: seq<TxOut>, n: nat)
    requires n < |vout| && !vout[|vout| - 1].IsNull()
    requires forall i :: 0 <= i < |vout| && vout[i].IsNull() ==> vout[i] == NULL_OUT
    ensures PutOut(Cleaned(vout[n := NULL_OUT]), n, vout[n]) == vout
  {
    var spent := vout[n := NULL_OUT];
    var left := Cleaned(spent);
    forall i | |left| <= i < |spent| ensures spent[i] == NULL_OUT {
      assert spent[i].IsNull();
    }
    if n < |vout| - 1 {
      assert !spent[|spent| - 1].IsNull();
    }
    assert |PutOut(left, n, vout[n])| == |vout|;
  }

  /** After a spend, exactly that output is not available any more, and what is left is in the
      stored form. */
  lemma {:induction false} SpendAvailable(c: Coins, n: nat)
    requires c.Wf() && c.IsAvailable(n)
    ensures var left := Spend(c, n).value.coins;
      && (left.IsPruned() <==> left.vout == [])
      && (!left.IsPruned() ==> left.Wf())
      && (forall m :: left.IsAvailable(m) <==> m != n && c.IsAvailable(m))
  {
    var vout := c.vout[n := NULL_OUT];
    var left := Cleaned(vout);
    PrunedIffEmpty(Spend(c, n).value.coins);
    assert forall i :: 0 <= i < |c.vout| ==> c.vout[i] in c.vout;
    forall o | o in left ensures o == NULL_OUT || MoneyRange(o.nValue) {
      var i :| 0 <= i < |left| && left[i] == o;
      assert vout[i] == o;
    }
  }

  /** The undo data is enough: although trailing outputs and, except for the last output, all
      metadata are dropped, spending and putting back restores the very same record. */
  lemma {:induction false} SpendUnspend(c: Coins, n: nat)
    requires c.Wf() && c.IsAvailable(n)
    ensures var s := Spend(c, n).value;
      && Unspend(s.coins, n, s.undo) == Some(c)
      && (s.coins.IsPruned() <==> s.undo.nHeight != 0)
      && (!s.coins.IsPruned() ==> s.coins.Wf())
      && (forall m :: s.coins.IsAvailable(m) <==> m != n && c.IsAvailable(m))
  {
    SpendAvailable(c, n);
    assert forall i :: 0 <= i < |c.vout| ==> c.vout[i] in c.vout;
    PutOutRestores(c.vout, n);
  }

  /** A stored transaction leaves a record in the stored form, unless nothing in it is spendable. */
  lemma {:induction false} FromTxWf(tx: Tx, nHeight: nat)
    requires TxOk(tx) && nHeight > 0
    ensures !FromTx(tx, nHeight).IsPruned() ==> FromTx(tx, nHeight).Wf()
  {
    var c := FromTx(tx, nHeight);
    PrunedIffEmpty(c);
    var all := Spendable(tx.vout);
    forall o | o in c.vout ensures o == NULL_OUT || MoneyRange(o.nValue) {
      var i :| 0 <= i < |c.vout| && c.vout[i] == o;
      assert all[i] == o;
      assert tx.vout[i] in tx.vout;
    }
  }
}
