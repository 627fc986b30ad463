/**
 The set of unspent outputs as a flat map, and what connecting and disconnecting a block mean
 for it (UpdateCoins, CheckInputs, ConnectBlock and DisconnectBlock in src/main.cpp). The map
 holds only records with an output left: a record with none is the same as an absent one.
 */
module Utxo {
  import opened Core
  import opened CoinRecord

  type UtxoSet = map<Hash, Coins>

  const COINBASE_MATURITY := 100
  const HALVING_INTERVAL := 288_000
  const GENESIS_HASH: Hash := 0x000000000019d6689c085ae165831e934ff763ae46a2a6c172b3f1b60a8ce26f

  /** Every record is in the stored form. */
  predicate Wf(u: UtxoSet) {
    forall id :: id in u ==> u[id].Wf()
  }

  function Lookup(u: UtxoSet, id: Hash): Coins {
    if id in u then u[id] else NO_COINS
  }

  function Store(u: UtxoSet, id: Hash, c: Coins): UtxoSet {
    if c.IsPruned() then u - {id} else u[id := c]
  }

  predicate Available(u: UtxoSet, p: OutPoint) {
    p.hash in u && u[p.hash].IsAvailable(p.n)
  }

  predicate HaveInputs(u: UtxoSet, vin: seq<OutPoint>) {
    forall p :: p in vin ==> Available(u, p)
  }

  function OutputFor(u: UtxoSet, p: OutPoint): TxOut
    requires Available(u, p)
  {
    u[p.hash].vout[p.n]
  }

  /** The sum of the values of the outputs that `vin` names. */
  function ValueIn(u: UtxoSet, vin: seq<OutPoint>): int
    requires HaveInputs(u, vin)
  {
    if vin == [] then 0 else ValueIn(u, vin[..|vin| - 1]) + OutputFor(u, vin[|vin| - 1]).nValue
  }

  // ---- spending and restoring inputs ----

  type TxUndo = seq<TxInUndo>

  datatype SpentInputs = SpentInputs(utxo: UtxoSet, undo: TxUndo)

  function SpendInputs(u: UtxoSet, vin: seq<OutPoint>): Option<SpentInputs> {
    if vin == [] then Some(SpentInputs(u, []))
    else
      match SpendInputs(u, vin[..|vin| - 1])
      case None => None
      case Some(before) =>
        var p := vin[|vin| - 1];
        match Spend(Lookup(before.utxo, p.hash), p.n)
        case None => None
        case Some(s) => Some(SpentInputs(Store(before.utxo, p.hash, s.coins), before.undo + [s.undo]))
  }

  /** Undoing the inputs, the last one first; nothing if a problem would be reported. */
  function RestoreInputs(u: UtxoSet, vin: seq<OutPoint>, undo: TxUndo): Option<UtxoSet>
    requires |undo| == |vin|
    decreases vin
  {
    if vin == [] then Some(u)
    else
      var p := vin[|vin| - 1];
      match Unspend(Lookup(u, p.hash), p.n, undo[|vin| - 1])
      case None => None
      case Some(c) => RestoreInputs(Store(u, p.hash, c), vin[..|vin| - 1], undo[..|vin| - 1])
  }

  // ---- connecting ----

  predicate Mature(u: UtxoSet, p: OutPoint, nHeight: nat)
    requires Available(u, p)
  {
    u[p.hash].fCoinBase ==> nHeight - u[p.hash].nHeight >= COINBASE_MATURITY
  }

  /** What CheckInputs accepts for a transaction that is not a coinbase. */
  predicate InputsOk(u: UtxoSet, tx: Tx, nHeight: nat) {
    && HaveInputs(u, tx.vin)
    && (forall p :: p in tx.vin ==> Mature(u, p, nHeight))
    && (forall p :: p in tx.vin ==> MoneyRange(OutputFor(u, p).nValue))
    && MoneyRange(ValueIn(u, tx.vin))
    && ValueIn(u, tx.vin) >= ValueOut(tx.vout)
  }

  /** How far ConnectBlock has come: the set so far, the undo data and the fees. */
  datatype Progress = Progress(utxo: UtxoSet, undo: seq<TxUndo>, nFees: int)

  function ConnectTx(p: Progress, tx: Tx, nHeight: nat): Option<Progress> {
    if tx.IsCoinBase() then Some(p.(utxo := Store(p.utxo, tx.id, FromTx(tx, nHeight))))
    else if !InputsOk(p.utxo, tx, nHeight) then None
    else
      match SpendInputs(p.utxo, tx.vin)
      case None => None
      case Some(s) =>
        Some(Progress(Store(s.utxo, tx.id, FromTx(tx, nHeight)), p.undo + [s.undo],
                      p.nFees + ValueIn(p.utxo, tx.vin) - ValueOut(tx.vout)))
  }

  function ConnectTxs(u: UtxoSet, vtx: seq<Tx>, nHeight: nat): Option<Progress> {
    if vtx == [] then Some(Progress(u, [], 0))
    else
      match ConnectTxs(u, vtx[..|vtx| - 1], nHeight)
      case None => None
      case Some(p) => ConnectTx(p, vtx[|vtx| - 1], nHeight)
  }

  /** A right shift. */
  function Halved(n: nat, times: nat): nat {
    if times == 0 then n else Halved(n, times - 1) / 2
  }

  function Subsidy(nHeight: nat): nat {
    var halvings := nHeight / HALVING_INTERVAL;
    if halvings >= 64 then 0 else Halved(30 * COIN, halvings)
  }

  /** The two blocks of the main chain that are allowed to overwrite a transaction. */
  predicate Bip30Exempt(nHeight: nat, hash: Hash) {
    || (nHeight == 91842 && hash == 0x00000000000a4d0a398161ffc163c503763b1f4360639393e0e4c8e300e0caec)
    || (nHeight == 91880 && hash == 0x00000000000743f190a18c5577a3c2d2a1f610ae9601ac046a38084ccb7cd721)
  }

  /** BIP 30: no transaction of the block has the id of one that still has an output. */
  predicate NothingOverwritten(u: UtxoSet, vtx: seq<Tx>) {
    forall tx :: tx in vtx ==> tx.id !in u
  }

  datatype Connected = Connected(utxo: UtxoSet, undo: seq<TxUndo>)

  /** The verdict of ConnectBlock on a block at a given height, on top of the set `u`. */
  function ConnectBlock(u: UtxoSet, block: Block, nHeight: nat): Option<Connected> {
    if !BlockOk(block) then None
    else if block.hash == GENESIS_HASH then Some(Connected(u, []))
    else if !Bip30Exempt(nHeight, block.hash) && !NothingOverwritten(u, block.vtx) then None
    else
      match ConnectTxs(u, block.vtx, nHeight)
      case None => None
      case Some(p) =>
        if ValueOut(block.vtx[0].vout) > Subsidy(nHeight) + p.nFees || !block.restOk then None
        else Some(Connected(p.utxo, p.undo))
  }

  // ---- disconnecting ----

  /** The outputs that the transaction created are stored exactly as it created them. */
  predicate OutputsMatch(u: UtxoSet, tx: Tx, nHeight: nat) {
    var stored := Lookup(u, tx.id);
    var outs := stored.(vout := Cleaned(Spendable(stored.vout)));
    SameCoins(if tx.nVersion < 0 then outs.(nVersion := tx.nVersion) else outs, FromTx(tx, nHeight))
  }

  /** Undoing one transaction; a coinbase comes without undo data. */
  function DisconnectTx(u: UtxoSet, tx: Tx, undo: Option<TxUndo>, nHeight: nat): Option<UtxoSet> {
    if !OutputsMatch(u, tx, nHeight) then None
    else
      match undo
      case None => Some(u - {tx.id})
      case Some(txundo) =>
        if |txundo| != |tx.vin| then None else RestoreInputs(u - {tx.id}, tx.vin, txundo)
  }

  /** The undo data of transaction i of a block: the coinbase has none. */
  function UndoOf(undo: seq<TxUndo>, i: nat): Option<TxUndo>
    requires i <= |undo|
  {
    if i == 0 then None else Some(undo[i - 1])
  }

  /** Undoing the transactions, the last one first; nothing if a problem would be reported. */
  function DisconnectTxs(u: UtxoSet, vtx: seq<Tx>, undo: seq<TxUndo>, nHeight: nat): Option<UtxoSet>
    requires |vtx| <= |undo| + 1
    decreases vtx
  {
    if vtx == [] then Some(u)
    else
      var k := |vtx| - 1;
      match DisconnectTx(u, vtx[k], UndoOf(undo, k), nHeight)
      case None => None
      case Some(before) => DisconnectTxs(before, vtx[..k], undo, nHeight)
  }

  /** What DisconnectBlock makes of the set, or nothing if it fails. */
  function DisconnectBlock(u: UtxoSet, block: Block, undo: seq<TxUndo>, nHeight: nat): Option<UtxoSet> {
    if |undo| + 1 != |block.vtx| then None else DisconnectTxs(u, block.vtx, undo, nHeight)
  }

  // ---- facts about the operations ----

  /** Spending an output makes that output unavailable and no other. */
  lemma {:induction false} SpendOneAvailable(u: UtxoSet, p: OutPoint, q: OutPoint)
    requires Wf(u) && Available(u, p)
    ensures var after := Store(u, p.hash, Spend(u[p.hash], p.n).value.coins);
      Wf(after) && (Available(after, q) <==> Available(u, q) && q != p)
  {
    SpendUnspend(u[p.hash], p.n);
    var left := Spend(u[p.hash], p.n).value.coins;
    PrunedUnavailable(left, q.n);
    assert q.hash == p.hash ==> (left.IsAvailable(q.n) <==> q.n != p.n && u[p.hash].IsAvailable(q.n));
  }

  /** With distinct inputs that are all there, no spend fails: the assertion in UpdateCoins holds. */
  lemma {:induction false} SpendInputsSucceeds(u: UtxoSet, vin: seq<OutPoint>)
    requires Wf(u) && HaveInputs(u, vin) && DistinctInputs(vin)
    ensures SpendInputs(u, vin).Some? && Wf(SpendInputs(u, vin).value.utxo)
    ensures forall p :: Available(SpendInputs(u, vin).value.utxo, p) <==> Available(u, p) && p !in vin
  {
    if vin != [] {
      var front, p := vin[..|vin| - 1], vin[|vin| - 1];
      FrontLast(vin);
      assert DistinctInputs(front) && HaveInputs(u, front);
      SpendInputsSucceeds(u, front);
      var before := SpendInputs(u, front).value.utxo;
      assert Available(before, p);
      var after := SpendInputs(u, vin).value.utxo;
      assert after == Store(before, p.hash, Spend(before[p.hash], p.n).value.coins);
      SpendOneAvailable(before, p, p);
      forall q ensures Available(after, q) <==> Available(u, q) && q !in vin {
        SpendOneAvailable(before, p, q);
        assert q in vin <==> q in front || q == p;
      }
    }
  }

  lemma {:induction false} PrunedUnavailable(c: Coins, n: nat)
    ensures c.IsPruned() ==> !c.IsAvailable(n)
  {
    if n < |c.vout| {
      assert c.vout[n] in c.vout;
    }
  }

  /** Spending then restoring one input. */
  lemma {:induction false} SpendRestoreOne(u: UtxoSet, p: OutPoint, s: Spent)
    requires Wf(u) && Spend(Lookup(u, p.hash), p.n) == Some(s)
    ensures var after := Store(u, p.hash, s.coins);
      && Wf(after)
      && Unspend(Lookup(after, p.hash), p.n, s.undo) == Some(Lookup(u, p.hash))
      && Store(after, p.hash, Lookup(u, p.hash)) == u
  {
    var c := Lookup(u, p.hash);
    PrunedUnavailable(c, p.n);
    SpendUnspend(c, p.n);
    assert p.hash in u;
  }

  /** Spending then restoring the inputs gives back the set. */
  lemma {:induction false} SpendRestore(u: UtxoSet, vin: seq<OutPoint>)
    requires Wf(u) && SpendInputs(u, vin).Some?
    ensures var s := SpendInputs(u, vin).value;
      Wf(s.utxo) && |s.undo| == |vin| && RestoreInputs(s.utxo, vin, s.undo) == Some(u)
  {
    if vin != [] {
      var front, p := vin[..|vin| - 1], vin[|vin| - 1];
      SpendRestore(u, front);
      var before := SpendInputs(u, front).value;
      var s := Spend(Lookup(before.utxo, p.hash), p.n).value;
      SpendRestoreOne(before.utxo, p, s);
      assert (before.undo + [s.undo])[..|front|] == before.undo;
    }
  }
}
