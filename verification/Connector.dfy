/**
 The loops of HaveInputs, GetValueIn, UpdateCoins, CheckInputs, ConnectBlock and DisconnectBlock
 (src/coins.cpp, src/main.cpp), working in place on a cache of records, proved against the flat
 map operations of module Utxo.
 */
module Connector {
  import opened Core
  import opened CoinRecord
  import opened Utxo
  import opened CoinsView
  import Reversal
  import opened Rules

  lemma {:induction false} AvailableLive(coins: map<Hash, Coins>, p: OutPoint)
    ensures Available(Live(coins), p) <==> p.hash in coins && coins[p.hash].IsAvailable(p.n)
    ensures Available(Live(coins), p) ==> Live(coins)[p.hash] == coins[p.hash]
  {
    if p.hash in coins {
      PrunedUnavailable(coins[p.hash], p.n);
    }
  }

  method ViewHaveInputs(view: CoinsViewCache, tx: Tx) returns (have: bool)
    requires view.Valid()
    modifies view.Repr
    ensures view.Layers() == old(view.Layers())
    ensures have <==> tx.IsCoinBase() || HaveInputs(view.Utxos(), tx.vin)
  {
    if !tx.IsCoinBase() {
      for i := 0 to |tx.vin|
        invariant view.Layers() == old(view.Layers())
        invariant forall j :: 0 <= j < i ==> tx.vin[j].hash in view.View()
      {
        var found := view.HaveCoins(tx.vin[i].hash);
        if !found {
          AvailableLive(view.View(), tx.vin[i]);
          return false;
        }
      }
      for i := 0 to |tx.vin|
        invariant view.Layers() == old(view.Layers())
        invariant forall j :: 0 <= j < i ==> Available(view.Utxos(), tx.vin[j])
      {
        var coins := view.GetCoins(tx.vin[i].hash);
        assert coins.Some?;
        AvailableLive(view.View(), tx.vin[i]);
        if !coins.value.IsAvailable(tx.vin[i].n) {
          return false;
        }
      }
    }
    return true;
  }

  /** The value of a sum over the first inputs. */
  lemma {:induction false} ValueInSnoc(u: UtxoSet, vin: seq<OutPoint>, i: nat)
    requires HaveInputs(u, vin) && i < |vin|
    ensures HaveInputs(u, vin[..i]) && HaveInputs(u, vin[..i + 1]) && Available(u, vin[i])
    ensures ValueIn(u, vin[..i + 1]) == ValueIn(u, vin[..i]) + OutputFor(u, vin[i]).nValue
  {
    assert vin[..i + 1][..i] == vin[..i];
  }

  method GetValueIn(view: CoinsViewCache, tx: Tx) returns (nResult: int)
    requires view.Valid() && (tx.IsCoinBase() || HaveInputs(view.Utxos(), tx.vin))
    modifies view.Repr
    ensures view.Layers() == old(view.Layers())
    ensures nResult == if tx.IsCoinBase() then 0 else ValueIn(view.Utxos(), tx.vin)
  {
    if tx.IsCoinBase() {
      return 0;
    }
    nResult := 0;
    for i := 0 to |tx.vin|
      invariant view.Layers() == old(view.Layers())
      invariant HaveInputs(view.Utxos(), tx.vin[..i])
      invariant nResult == ValueIn(view.Utxos(), tx.vin[..i])
    {
      ValueInSnoc(view.Utxos(), tx.vin, i);
      AvailableLive(view.View(), tx.vin[i]);
      var coins := view.GetCoins(tx.vin[i].hash);
      nResult := nResult + coins.value.vout[tx.vin[i].n].nValue;
    }
    assert tx.vin[..|tx.vin|] == tx.vin;
  }

  lemma {:induction false} ValueInPrefix(u: UtxoSet, vin: seq<OutPoint>, k: nat)
    requires HaveInputs(u, vin) && k <= |vin|
    requires forall p :: p in vin ==> OutputFor(u, p).nValue >= 0
    ensures HaveInputs(u, vin[..k]) && ValueIn(u, vin[..k]) <= ValueIn(u, vin)
  {
    if k == |vin| {
      assert vin[..k] == vin;
    } else {
      var front := vin[..|vin| - 1];
      assert vin[|vin| - 1] in vin;
      assert forall p :: p in front ==> p in vin;
      ValueInPrefix(u, front, k);
      assert front[..k] == vin[..k];
    }
  }

  /** The loop of CheckInputs over inputs that are there: maturity and ranges, with a running
      total that may stop it early. */
  method SumInputs(view: CoinsViewCache, vin: seq<OutPoint>, nSpendHeight: nat) returns (ok: bool, nValueIn: int)
    requires view.Valid() && HaveInputs(view.Utxos(), vin)
    modifies view.Repr
    ensures view.Layers() == old(view.Layers())
    ensures nValueIn == ValueIn(view.Utxos(), vin) || !ok
    ensures ok <==>
            && (forall p :: p in vin ==> Mature(view.Utxos(), p, nSpendHeight))
            && (forall p :: p in vin ==> MoneyRange(OutputFor(view.Utxos(), p).nValue))
            && MoneyRange(ValueIn(view.Utxos(), vin))
  {
    ghost var u := view.Utxos();
    nValueIn := 0;
    for i := 0 to |vin|
      invariant view.Layers() == old(view.Layers())
      invariant HaveInputs(u, vin[..i])
      invariant nValueIn == ValueIn(u, vin[..i]) && MoneyRange(nValueIn)
      invariant forall j :: 0 <= j < i ==> Mature(u, vin[j], nSpendHeight) && MoneyRange(OutputFor(u, vin[j]).nValue)
    {
      var prevout := vin[i];
      assert prevout in vin;
      ValueInSnoc(u, vin, i);
      AvailableLive(view.View(), prevout);
      var coins := view.GetCoins(prevout.hash);
      if coins.value.fCoinBase {
        if nSpendHeight - coins.value.nHeight < COINBASE_MATURITY {
          assert !Mature(u, prevout, nSpendHeight);
          return false, nValueIn;
        }
      }
      nValueIn := nValueIn + coins.value.vout[prevout.n].nValue;
      if !MoneyRange(coins.value.vout[prevout.n].nValue) || !MoneyRange(nValueIn) {
        if forall p :: p in vin ==> MoneyRange(OutputFor(u, p).nValue) {
          ValueInPrefix(u, vin, i + 1);
        }
        return false, nValueIn;
      }
    }
    assert vin[..|vin|] == vin;
    ok := true;
  }

  /** CheckInputs, for a transaction that is not a coinbase. */
  method CheckInputs(view: CoinsViewCache, tx: Tx, nSpendHeight: nat) returns (ok: bool)
    requires view.Valid() && TxOk(tx) && !tx.IsCoinBase()
    modifies view.Repr
    ensures view.Layers() == old(view.Layers())
    ensures ok <==> InputsOk(view.Utxos(), tx, nSpendHeight)
  {
    ok := ViewHaveInputs(view, tx);
    if !ok {
      return;
    }
    var nValueIn;
    ok, nValueIn := SumInputs(view, tx.vin, nSpendHeight);
    if !ok {
      return;
    }
    if nValueIn < ValueOut(tx.vout) {
      return false;
    }
    var nTxFee := nValueIn - ValueOut(tx.vout);
    return 0 <= nTxFee && MoneyRange(nTxFee);
  }

  /** Spends one output in place. */
  method SpendInput(view: CoinsViewCache, prevout: OutPoint) returns (undo: TxInUndo)
    requires view.Valid() && Available(view.Utxos(), prevout)
    modifies view.Repr
    ensures view.Below() == old(view.Below()) && view.Best() == old(view.Best())
    ensures var s := Spend(Lookup(old(view.Utxos()), prevout.hash), prevout.n);
      s.Some? && undo == s.value.undo && view.Utxos() == Store(old(view.Utxos()), prevout.hash, s.value.coins)
  {
    AvailableLive(view.View(), prevout);
    var coins := view.GetCoins(prevout.hash);
    var ret, left, spent := SpendOutput(coins.value, prevout.n);
    assert ret;
    LiveStore(view.View(), prevout.hash, left);
    view.SetCoins(prevout.hash, left);
    undo := spent;
  }

  lemma {:induction false} SpendInputsSnoc(u: UtxoSet, vin: seq<OutPoint>, i: nat, s: SpentInputs)
    requires i < |vin| && SpendInputs(u, vin[..i]) == Some(s)
    ensures SpendInputs(u, vin[..i + 1]) ==
      match Spend(Lookup(s.utxo, vin[i].hash), vin[i].n)
      case None => None
      case Some(t) => Some(SpentInputs(Store(s.utxo, vin[i].hash, t.coins), s.undo + [t.undo]))
  {
    assert vin[..i + 1][..i] == vin[..i];
  }

  /** UpdateCoins: spends the inputs in place, one after the other, and stores the new record.
      The spends cannot fail. */
  method UpdateCoins(view: CoinsViewCache, tx: Tx, nHeight: nat) returns (txundo: TxUndo)
    requires view.Valid() && Wf(view.Utxos())
    requires tx.IsCoinBase() || (HaveInputs(view.Utxos(), tx.vin) && DistinctInputs(tx.vin))
    modifies view.Repr
    ensures view.Below() == old(view.Below()) && view.Best() == old(view.Best())
    ensures tx.IsCoinBase() ==> view.Utxos() == Store(old(view.Utxos()), tx.id, FromTx(tx, nHeight)) && txundo == []
    ensures !tx.IsCoinBase() ==>
              && SpendInputs(old(view.Utxos()), tx.vin).Some?
              && txundo == SpendInputs(old(view.Utxos()), tx.vin).value.undo
              && view.Utxos() == Store(SpendInputs(old(view.Utxos()), tx.vin).value.utxo, tx.id, FromTx(tx, nHeight))
    ensures (forall o :: o in tx.vout ==> o.nValue >= 0) ==> Creates(view.Utxos(), tx, nHeight)
  {
    txundo := [];
    ghost var u := view.Utxos();
    if !tx.IsCoinBase() {
      for i := 0 to |tx.vin|
        invariant view.Below() == old(view.Below()) && view.Best() == old(view.Best())
        invariant SpendInputs(u, tx.vin[..i]) == Some(SpentInputs(view.Utxos(), txundo))
      {
        AllowedSpend(u, tx.vin, i);
        SpendInputsSnoc(u, tx.vin, i, SpentInputs(view.Utxos(), txundo));
        var undo := SpendInput(view, tx.vin[i]);
        txundo := txundo + [undo];
      }
      assert tx.vin[..|tx.vin|] == tx.vin;
    }
    LiveStore(view.View(), tx.id, FromTx(tx, nHeight));
    ghost var before := view.Utxos();
    view.SetCoins(tx.id, FromTx(tx, nHeight));
    if forall o :: o in tx.vout ==> o.nValue >= 0 {
      StoredCreates(before, tx, nHeight);
    }
  }

  /** After the earlier inputs are spent, the next one is still there. */
  lemma {:induction false} AllowedSpend(u: UtxoSet, vin: seq<OutPoint>, i: nat)
    requires Wf(u) && HaveInputs(u, vin) && DistinctInputs(vin) && i < |vin|
    ensures SpendInputs(u, vin[..i]).Some? && Available(SpendInputs(u, vin[..i]).value.utxo, vin[i])
  {
    var front := vin[..i];
    assert forall p :: p in front ==> p in vin;
    SpendInputsSucceeds(u, front);
    assert vin[i] !in front;
    assert vin[i] in vin;
  }

  // ---- connecting a block ----

  lemma {:induction false} ConnectTxsSnoc(u: UtxoSet, vtx: seq<Tx>, nHeight: nat, i: nat, p: Progress)
    requires i < |vtx| && ConnectTxs(u, vtx[..i], nHeight) == Some(p)
    ensures ConnectTxs(u, vtx[..i + 1], nHeight) == ConnectTx(p, vtx[i], nHeight)
  {
    assert vtx[..i + 1][..i] == vtx[..i];
  }

  /** Once a transaction is refused, so is the block. */
  lemma {:induction false} RefusedStaysRefused(u: UtxoSet, vtx: seq<Tx>, nHeight: nat, k: nat)
    requires k <= |vtx| && ConnectTxs(u, vtx[..k], nHeight) == None
    ensures ConnectTxs(u, vtx, nHeight) == None
  {
    if k == |vtx| {
      assert vtx[..k] == vtx;
    } else {
      assert vtx[..|vtx| - 1][..k] == vtx[..k];
      RefusedStaysRefused(u, vtx[..|vtx| - 1], nHeight, k);
    }
  }

  lemma {:induction false} ShapedPrefix(vtx: seq<Tx>, k: nat)
    requires Reversal.Shaped(vtx) && k <= |vtx|
    ensures Reversal.Shaped(vtx[..k])
  {
    assert forall tx :: tx in vtx[..k] ==> tx in vtx;
  }

  /** The checks on the inputs of a transaction of a block, and its fee. */
  method CheckSpend(view: CoinsViewCache, tx: Tx, nHeight: nat) returns (ok: bool, nFee: int)
    requires view.Valid() && TxOk(tx) && !tx.IsCoinBase()
    modifies view.Repr
    ensures view.Layers() == old(view.Layers())
    ensures ok <==> InputsOk(view.Utxos(), tx, nHeight)
    ensures ok ==> nFee == ValueIn(view.Utxos(), tx.vin) - ValueOut(tx.vout)
  {
    nFee := 0;
    ok := ViewHaveInputs(view, tx);
    if ok {
      var nValueIn := GetValueIn(view, tx);
      nFee := nValueIn - ValueOut(tx.vout);
      ok := CheckInputs(view, tx, nHeight);
    }
  }

  /** The progress after a transaction, from the set after its inputs were spent. */
  function Advance(p: Progress, tx: Tx, utxo: UtxoSet, txundo: TxUndo, nFees: int): Progress {
    Progress(utxo, if tx.IsCoinBase() then p.undo else p.undo + [txundo], nFees)
  }

  lemma {:induction false} ConnectCoinBase(p: Progress, tx: Tx, nHeight: nat, utxo: UtxoSet)
    requires tx.IsCoinBase() && utxo == Store(p.utxo, tx.id, FromTx(tx, nHeight))
    ensures ConnectTx(p, tx, nHeight) == Some(Advance(p, tx, utxo, [], p.nFees))
  {}

  lemma {:induction false} ConnectSpend(p: Progress, tx: Tx, nHeight: nat, utxo: UtxoSet, txundo: TxUndo, nFees: int)
    requires !tx.IsCoinBase() && InputsOk(p.utxo, tx, nHeight) && SpendInputs(p.utxo, tx.vin).Some?
    requires txundo == SpendInputs(p.utxo, tx.vin).value.undo
    requires utxo == Store(SpendInputs(p.utxo, tx.vin).value.utxo, tx.id, FromTx(tx, nHeight))
    requires nFees == p.nFees + (ValueIn(p.utxo, tx.vin) - ValueOut(tx.vout))
    ensures ConnectTx(p, tx, nHeight) == Some(Advance(p, tx, utxo, txundo, nFees))
  {}

  /** One transaction of a block: checked, its fee counted, its inputs spent, its outputs stored. */
  method ConnectOne(view: CoinsViewCache, tx: Tx, nHeight: nat, nFees: int, ghost p: Progress)
    returns (ok: bool, nFees': int, txundo: TxUndo)
    requires view.Valid() && Wf(view.Utxos()) && TxOk(tx)
    requires p.utxo == view.Utxos() && p.nFees == nFees
    modifies view.Repr
    ensures view.Below() == old(view.Below())
    ensures !ok ==> ConnectTx(p, tx, nHeight) == None
    ensures ok ==> ConnectTx(p, tx, nHeight) == Some(Advance(p, tx, view.Utxos(), txundo, nFees'))
  {
    nFees', txundo := nFees, [];
    if tx.IsCoinBase() {
      txundo := UpdateCoins(view, tx, nHeight);
      ConnectCoinBase(p, tx, nHeight, view.Utxos());
      return true, nFees', txundo;
    }
    var nFee;
    ok, nFee := CheckSpend(view, tx, nHeight);
    if ok {
      nFees' := nFees + nFee;
      txundo := UpdateCoins(view, tx, nHeight);
      ConnectSpend(p, tx, nHeight, view.Utxos(), txundo, nFees');
    }
  }

  /** BIP 30: no transaction of the block may have the id of a stored one with an output left. */
  method CheckBip30(view: CoinsViewCache, vtx: seq<Tx>) returns (ok: bool)
    requires view.Valid()
    modifies view.Repr
    ensures view.Layers() == old(view.Layers())
    ensures ok == NothingOverwritten(view.Utxos(), vtx)
  {
    for i := 0 to |vtx|
      invariant view.Layers() == old(view.Layers())
      invariant forall j :: 0 <= j < i ==> vtx[j].id !in view.Utxos()
    {
      var coins := view.GetCoins(vtx[i].id);
      if coins.Some? && !coins.value.IsPruned() {
        assert vtx[i] in vtx;
        return false;
      }
    }
    return true;
  }

  /** ConnectBlock on a cache whose best block is the block's parent. */
  method Connect(block: Block, nHeight: nat, hashPrev: Hash, view: CoinsViewCache)
    returns (ok: bool, blockundo: seq<TxUndo>)
    requires view.Valid() && Wf(view.Utxos()) && view.Best() == hashPrev
    requires nHeight > 0 || block.hash == GENESIS_HASH
    modifies view.Repr
    ensures view.Below() == old(view.Below())
    ensures ok == ConnectBlock(old(view.Utxos()), block, nHeight).Some?
    ensures ok <==> Acceptable(old(view.Utxos()), block, nHeight)
    ensures ok ==> ConnectBlock(old(view.Utxos()), block, nHeight) == Some(Connected(view.Utxos(), blockundo))
    ensures ok ==> view.hashBlock == block.hash
  {
    blockundo := [];
    ghost var u := view.Utxos();
    AcceptedIff(u, block, nHeight);
    ok := CheckBlock(block);
    if !ok {
      return;
    }
    var hash := view.GetBestBlock();
    assert hash == hashPrev;
    if block.hash == GENESIS_HASH {
      view.SetBestBlock(block.hash);
      return true, blockundo;
    }
    if !Bip30Exempt(nHeight, block.hash) {
      ok := CheckBip30(view, block.vtx);
      if !ok {
        return;
      }
    }
    Reversal.BlockShaped(block);
    var nFees := 0;
    for i := 0 to |block.vtx|
      invariant view.Below() == old(view.Below())
      invariant ConnectTxs(u, block.vtx[..i], nHeight) == Some(Progress(view.Utxos(), blockundo, nFees))
    {
      ShapedPrefix(block.vtx, i);
      Reversal.ConnectTxsWf(u, block.vtx[..i], nHeight);
      ConnectTxsSnoc(u, block.vtx, nHeight, i, Progress(view.Utxos(), blockundo, nFees));
      assert block.vtx[i] in block.vtx;
      var txundo;
      ok, nFees, txundo := ConnectOne(view, block.vtx[i], nHeight, nFees, Progress(view.Utxos(), blockundo, nFees));
      if !ok {
        RefusedStaysRefused(u, block.vtx, nHeight, i + 1);
        return;
      }
      if !block.vtx[i].IsCoinBase() {
        blockundo := blockundo + [txundo];
      }
    }
    assert block.vtx[..|block.vtx|] == block.vtx;
    if ValueOut(block.vtx[0].vout) > Subsidy(nHeight) + nFees || !block.restOk {
      return false, blockundo;
    }
    view.SetBestBlock(block.hash);
    ok := true;
  }

  // ---- disconnecting a block ----

  lemma {:induction false} RestoreInputsStep(u: UtxoSet, vin: seq<OutPoint>, undo: TxUndo, j: nat)
    requires |undo| == |vin| && j < |vin|
    ensures RestoreInputs(u, vin[..j + 1], undo[..j + 1]) ==
      match Unspend(Lookup(u, vin[j].hash), vin[j].n, undo[j])
      case None => None
      case Some(c) => RestoreInputs(Store(u, vin[j].hash, c), vin[..j], undo[..j])
  {
    assert vin[..j + 1][..j] == vin[..j] && undo[..j + 1][..j] == undo[..j];
  }

  /** Puts a spent output back into a record, and reports whether nothing was wrong. */
  method PutBack(found: Coins, n: nat, undo: TxInUndo) returns (fClean: bool, coins: Coins)
    ensures fClean == Unspend(found, n, undo).Some?
    ensures fClean ==> Unspend(found, n, undo) == Some(coins)
  {
    fClean, coins := true, found;
    if undo.nHeight != 0 {
      if !coins.IsPruned() {
        fClean := false;
      }
      coins := NO_COINS.(fCoinBase := undo.fCoinBase, nHeight := undo.nHeight, nVersion := undo.nVersion);
    } else {
      if coins.IsPruned() {
        fClean := false;
      }
    }
    if coins.IsAvailable(n) {
      fClean := false;
    }
    var vout := coins.vout;
    if |vout| < n + 1 {
      vout := vout + seq(n + 1 - |vout|, _ => NULL_OUT);
    }
    coins := coins.(vout := vout[n := undo.txout]);
    assert coins.vout == PutOut(if undo.nHeight != 0 then [] else found.vout, n, undo.txout);
  }

  /** Puts one spent output back in place. */
  method RestoreInput(view: CoinsViewCache, out: OutPoint, undo: TxInUndo) returns (fClean: bool)
    requires view.Valid()
    modifies view.Repr
    ensures view.Below() == old(view.Below())
    ensures fClean == Unspend(Lookup(old(view.Utxos()), out.hash), out.n, undo).Some?
    ensures fClean ==> view.Utxos()
                       == Store(old(view.Utxos()), out.hash, Unspend(Lookup(old(view.Utxos()), out.hash), out.n, undo).value)
  {
    var found := view.GetCoins(out.hash);
    var coins;
    fClean, coins := PutBack(if found.Some? then found.value else NO_COINS, out.n, undo);
    LiveStore(view.View(), out.hash, coins);
    view.SetCoins(out.hash, coins);
  }

  /** Removes the outputs of a transaction, reporting whether they were as it created them. */
  method RemoveOutputs(view: CoinsViewCache, tx: Tx, nHeight: nat) returns (fClean: bool)
    requires view.Valid()
    modifies view.Repr
    ensures view.Below() == old(view.Below())
    ensures fClean == OutputsMatch(old(view.Utxos()), tx, nHeight)
    ensures ComparesRight(old(view.Utxos()), tx, nHeight, fClean)
    ensures view.Utxos() == old(view.Utxos()) - {tx.id}
  {
    ghost var u := view.Utxos();
    var found := view.GetCoins(tx.id);
    fClean := CompareOutputs(if found.Some? then found.value else NO_COINS, tx, nHeight);
    MatchIgnoresPruned(view.View(), tx, nHeight);
    if found.Some? {
      LiveStore(view.View(), tx.id, NO_COINS);
      view.SetCoins(tx.id, NO_COINS);
    }
    ComparedRight(u, tx, nHeight);
  }

  /** The verdict on the stored outputs of a well-formed transaction is whether they are as it made them. */
  ghost predicate ComparesRight(u: UtxoSet, tx: Tx, nHeight: nat, fClean: bool) {
    Wf(u) && TxOk(tx) ==> (fClean <==> FoundAsMade(Lookup(u, tx.id), tx, nHeight))
  }

  lemma {:induction false} ComparedRight(u: UtxoSet, tx: Tx, nHeight: nat)
    ensures ComparesRight(u, tx, nHeight, OutputsMatch(u, tx, nHeight))
  {
    if Wf(u) && TxOk(tx) {
      OutputsMatchIff(u, tx, nHeight);
    }
  }

  method CompareOutputs(stored: Coins, tx: Tx, nHeight: nat) returns (same: bool)
    ensures same == OutputsMatch(map[tx.id := stored], tx, nHeight)
  {
    var outs := ClearUnspendable(stored);
    var outsBlock := FromTx(tx, nHeight);
    if outsBlock.nVersion < 0 {
      outs := outs.(nVersion := outsBlock.nVersion);
    }
    same := SameCoins(outs, outsBlock);
  }

  /** A stored record with no output left compares like an absent one. */
  lemma {:induction false} MatchIgnoresPruned(coins: map<Hash, Coins>, tx: Tx, nHeight: nat)
    ensures OutputsMatch(map[tx.id := if tx.id in coins then coins[tx.id] else NO_COINS], tx, nHeight)
            == OutputsMatch(Live(coins), tx, nHeight)
  {
    PrunedStaysPruned(Lookup(coins, tx.id));
    PrunedStaysPruned(NO_COINS);
  }

  lemma {:induction false} PrunedStaysPruned(c: Coins)
    ensures c.IsPruned() ==> c.(vout := Cleaned(Spendable(c.vout))).IsPruned()
  {
    var kept := Cleaned(Spendable(c.vout));
    if o :| o in kept && !o.IsNull() {
      var i :| 0 <= i < |kept| && kept[i] == o;
      assert Spendable(c.vout)[i] == o;
      assert c.vout[i] in c.vout;
    }
  }

  /** Puts the inputs of one transaction back, the last one first. */
  method RestoreAllInputs(view: CoinsViewCache, vin: seq<OutPoint>, undo: TxUndo) returns (fClean: bool)
    requires view.Valid() && |undo| == |vin|
    modifies view.Repr
    ensures view.Below() == old(view.Below())
    ensures fClean == RestoreInputs(old(view.Utxos()), vin, undo).Some?
    ensures fClean ==> RestoreInputs(old(view.Utxos()), vin, undo) == Some(view.Utxos())
  {
    ghost var whole := RestoreInputs(view.Utxos(), vin, undo);
    fClean := true;
    var j := |vin|;
    assert vin[..j] == vin && undo[..j] == undo;
    while j > 0
      invariant 0 <= j <= |vin|
      invariant view.Below() == old(view.Below())
      invariant fClean ==> RestoreInputs(view.Utxos(), vin[..j], undo[..j]) == whole
      invariant !fClean ==> whole == None
    {
      j := j - 1;
      RestoreInputsStep(view.Utxos(), vin, undo, j);
      var clean := RestoreInput(view, vin[j], undo[j]);
      fClean := fClean && clean;
    }
  }

  /** Undoes one transaction of a block in place. */
  method DisconnectOne(view: CoinsViewCache, tx: Tx, undo: Option<TxUndo>, nHeight: nat) returns (fClean: bool)
    requires view.Valid() && (undo.Some? ==> |undo.value| == |tx.vin|)
    modifies view.Repr
    ensures view.Below() == old(view.Below())
    ensures fClean == DisconnectTx(old(view.Utxos()), tx, undo, nHeight).Some?
    ensures fClean ==> DisconnectTx(old(view.Utxos()), tx, undo, nHeight) == Some(view.Utxos())
  {
    fClean := RemoveOutputs(view, tx, nHeight);
    if undo.Some? {
      var clean := RestoreAllInputs(view, tx.vin, undo.value);
      fClean := fClean && clean;
    }
  }

  /** One round of the loop over the transactions, the last one first. */
  lemma {:induction false} DisconnectTxsStep(u: UtxoSet, vtx: seq<Tx>, undo: seq<TxUndo>, nHeight: nat, i: nat)
    requires |vtx| <= |undo| + 1 && i < |vtx|
    ensures DisconnectTxs(u, vtx[..i + 1], undo, nHeight) ==
      match DisconnectTx(u, vtx[i], UndoOf(undo, i), nHeight)
      case None => None
      case Some(before) => DisconnectTxs(before, vtx[..i], undo, nHeight)
  {
    var front := vtx[..i + 1];
    assert front[..|front| - 1] == vtx[..i] && front[|front| - 1] == vtx[i];
  }

  /** DisconnectBlock on a cache whose best block is the block; the result says whether every
      check held. A transaction whose undo data has the wrong length stops it early. */
  method Disconnect(block: Block, undo: seq<TxUndo>, nHeight: nat, hashPrev: Hash, view: CoinsViewCache)
    returns (fClean: bool)
    requires view.Valid() && view.Best() == block.hash
    modifies view.Repr
    ensures view.Below() == old(view.Below())
    ensures fClean == DisconnectBlock(old(view.Utxos()), block, undo, nHeight).Some?
    ensures fClean ==> DisconnectBlock(old(view.Utxos()), block, undo, nHeight) == Some(view.Utxos())
    ensures fClean ==> view.hashBlock == hashPrev
  {
    var vtx := block.vtx;
    if |undo| + 1 != |vtx| {
      return false;
    }
    ghost var whole := DisconnectTxs(view.Utxos(), vtx, undo, nHeight);
    fClean := true;
    var i := |vtx|;
    assert vtx[..i] == vtx;
    while i > 0
      invariant 0 <= i <= |vtx|
      invariant view.Below() == old(view.Below())
      invariant fClean ==> DisconnectTxs(view.Utxos(), vtx[..i], undo, nHeight) == whole
      invariant !fClean ==> whole == None
    {
      i := i - 1;
      DisconnectTxsStep(view.Utxos(), vtx, undo, nHeight, i);
      if i > 0 && |undo[i - 1]| != |vtx[i].vin| {
        return false;
      }
      var clean := DisconnectOne(view, vtx[i], UndoOf(undo, i), nHeight);
      fClean := fClean && clean;
    }
    view.SetBestBlock(hashPrev);
  }
}
