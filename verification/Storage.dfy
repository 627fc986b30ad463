/**
 What storing does to records and undo data: a negative version is not read back as it was written
 (see CoinsCodec and UndoCodec). Blocks are accepted and refused all the same, and disconnecting them
 leads to the same records up to such versions (ConnectBlock and DisconnectBlock in src/main.cpp,
 where undo data are always read from a file).
 */
module Storage {
  import opened Core
  import opened VarInt
  import opened CoinRecord
  import opened Utxo

  /** What reading a stored record gives. */
  function KeptCoins(c: Coins): Coins {
    c.(nVersion := Kept(c.nVersion))
  }

  /** What reading stored undo data gives: the version is written only with a height. */
  function KeptUndo(undo: TxInUndo): TxInUndo {
    undo.(nVersion := if undo.nHeight > 0 then Kept(undo.nVersion) else 0)
  }

  function KeptTxUndo(undo: TxUndo): (r: TxUndo)
    ensures |r| == |undo|
  {
    seq(|undo|, j requires 0 <= j < |undo| => KeptUndo(undo[j]))
  }

  /** What is in the undo file of a block. */
  function KeptUndos(undo: seq<TxUndo>): (r: seq<TxUndo>)
    ensures |r| == |undo|
  {
    seq(|undo|, i requires 0 <= i < |undo| => KeptTxUndo(undo[i]))
  }

  /** The same set, where some records were stored and read back. */
  predicate StoredFrom(u': UtxoSet, u: UtxoSet) {
    u'.Keys == u.Keys && forall id :: id in u ==> u'[id] == u[id] || u'[id] == KeptCoins(u[id])
  }

  /** The same set, where exactly the records under these ids were stored and read back. */
  predicate Marked(u': UtxoSet, u: UtxoSet, kept: set<Hash>) {
    u'.Keys == u.Keys && forall id :: id in u ==> u'[id] == if id in kept then KeptCoins(u[id]) else u[id]
  }

  lemma {:induction false} MarkedOf(u': UtxoSet, u: UtxoSet) returns (kept: set<Hash>)
    requires StoredFrom(u', u)
    ensures Marked(u', u, kept)
  {
    kept := set id | id in u && u'[id] == KeptCoins(u[id]);
  }

  lemma {:induction false} StoredTwice(u'': UtxoSet, u': UtxoSet, u: UtxoSet)
    requires StoredFrom(u'', u') && StoredFrom(u', u)
    ensures StoredFrom(u'', u)
  {}

  lemma {:induction false} StoredWf(u': UtxoSet, u: UtxoSet)
    requires StoredFrom(u', u) && Wf(u)
    ensures Wf(u')
  {}

  // ---- connecting ----

  lemma {:induction false} AvailableStored(u': UtxoSet, u: UtxoSet, p: OutPoint)
    requires StoredFrom(u', u)
    ensures Available(u', p) <==> Available(u, p)
    ensures Available(u, p) ==> OutputFor(u', p) == OutputFor(u, p)
    ensures Available(u, p) ==> forall h: nat :: Mature(u', p, h) <==> Mature(u, p, h)
  {}

  lemma {:induction false} ValueInStored(u': UtxoSet, u: UtxoSet, vin: seq<OutPoint>)
    requires StoredFrom(u', u) && HaveInputs(u, vin)
    ensures HaveInputs(u', vin) && ValueIn(u', vin) == ValueIn(u, vin)
  {
    forall p | p in vin ensures Available(u', p) {
      AvailableStored(u', u, p);
    }
    if vin != [] {
      var front, last := vin[..|vin| - 1], vin[|vin| - 1];
      assert last in vin && forall p :: p in front ==> p in vin;
      ValueInStored(u', u, front);
      AvailableStored(u', u, last);
    }
  }

  lemma {:induction false} InputsOkStored(u': UtxoSet, u: UtxoSet, tx: Tx, nHeight: nat)
    requires StoredFrom(u', u)
    ensures InputsOk(u', tx, nHeight) <==> InputsOk(u, tx, nHeight)
  {
    forall p ensures Available(u', p) <==> Available(u, p)
             ensures Available(u, p) ==> OutputFor(u', p) == OutputFor(u, p) && (Mature(u', p, nHeight) <==> Mature(u, p, nHeight)) {
      AvailableStored(u', u, p);
    }
    if HaveInputs(u, tx.vin) {
      ValueInStored(u', u, tx.vin);
    }
  }

  lemma {:induction false} SpendStored(c': Coins, c: Coins, n: nat)
    requires c' == c || c' == KeptCoins(c)
    ensures Spend(c', n).Some? <==> Spend(c, n).Some?
    ensures Spend(c, n).Some? ==>
              var s', s := Spend(c', n).value, Spend(c, n).value;
              && (s'.coins == s.coins || s'.coins == KeptCoins(s.coins))
              && KeptUndo(s'.undo) == KeptUndo(s.undo)
  {}

  lemma {:induction false} StoreStored(u': UtxoSet, u: UtxoSet, id: Hash, c': Coins, c: Coins)
    requires StoredFrom(u', u) && (c' == c || c' == KeptCoins(c))
    ensures StoredFrom(Store(u', id, c'), Store(u, id, c))
  {}

  lemma {:induction false} LookupStored(u': UtxoSet, u: UtxoSet, id: Hash)
    requires StoredFrom(u', u)
    ensures Lookup(u', id) == Lookup(u, id) || Lookup(u', id) == KeptCoins(Lookup(u, id))
  {}

  lemma {:induction false} SpendInputsStored(u': UtxoSet, u: UtxoSet, vin: seq<OutPoint>)
    requires StoredFrom(u', u)
    ensures SpendInputs(u', vin).Some? <==> SpendInputs(u, vin).Some?
    ensures SpendInputs(u, vin).Some? ==>
              var s', s := SpendInputs(u', vin).value, SpendInputs(u, vin).value;
              StoredFrom(s'.utxo, s.utxo) && KeptTxUndo(s'.undo) == KeptTxUndo(s.undo)
  {
    if vin != [] {
      var front, p := vin[..|vin| - 1], vin[|vin| - 1];
      SpendInputsStored(u', u, front);
      if SpendInputs(u, front).Some? {
        var b', b := SpendInputs(u', front).value, SpendInputs(u, front).value;
        LookupStored(b'.utxo, b.utxo, p.hash);
        SpendStored(Lookup(b'.utxo, p.hash), Lookup(b.utxo, p.hash), p.n);
        if Spend(Lookup(b.utxo, p.hash), p.n).Some? {
          var s', s := Spend(Lookup(b'.utxo, p.hash), p.n).value, Spend(Lookup(b.utxo, p.hash), p.n).value;
          StoreStored(b'.utxo, b.utxo, p.hash, s'.coins, s.coins);
          KeptSnoc(b'.undo, s'.undo, b.undo, s.undo);
        }
      }
    }
  }

  lemma {:induction false} KeptSnoc(a': TxUndo, b': TxInUndo, a: TxUndo, b: TxInUndo)
    requires KeptTxUndo(a') == KeptTxUndo(a) && KeptUndo(b') == KeptUndo(b)
    ensures KeptTxUndo(a' + [b']) == KeptTxUndo(a + [b])
  {
    assert KeptTxUndo(a' + [b']) == KeptTxUndo(a') + [KeptUndo(b')];
    assert KeptTxUndo(a + [b]) == KeptTxUndo(a) + [KeptUndo(b)];
  }

  lemma {:induction false} KeptsSnoc(a': seq<TxUndo>, b': TxUndo, a: seq<TxUndo>, b: TxUndo)
    requires KeptUndos(a') == KeptUndos(a) && KeptTxUndo(b') == KeptTxUndo(b)
    ensures KeptUndos(a' + [b']) == KeptUndos(a + [b])
  {
    assert KeptUndos(a' + [b']) == KeptUndos(a') + [KeptTxUndo(b')];
    assert KeptUndos(a + [b]) == KeptUndos(a) + [KeptTxUndo(b)];
  }

  predicate StoredProgress(p': Progress, p: Progress) {
    StoredFrom(p'.utxo, p.utxo) && KeptUndos(p'.undo) == KeptUndos(p.undo) && p'.nFees == p.nFees
  }

  lemma {:induction false} ConnectTxStored(p': Progress, p: Progress, tx: Tx, nHeight: nat)
    requires StoredProgress(p', p)
    ensures ConnectTx(p', tx, nHeight).Some? <==> ConnectTx(p, tx, nHeight).Some?
    ensures ConnectTx(p, tx, nHeight).Some? ==> StoredProgress(ConnectTx(p', tx, nHeight).value, ConnectTx(p, tx, nHeight).value)
  {
    var made := FromTx(tx, nHeight);
    if tx.IsCoinBase() {
      StoreStored(p'.utxo, p.utxo, tx.id, made, made);
    } else {
      InputsOkStored(p'.utxo, p.utxo, tx, nHeight);
      SpendInputsStored(p'.utxo, p.utxo, tx.vin);
      if InputsOk(p.utxo, tx, nHeight) && SpendInputs(p.utxo, tx.vin).Some? {
        var s', s := SpendInputs(p'.utxo, tx.vin).value, SpendInputs(p.utxo, tx.vin).value;
        StoreStored(s'.utxo, s.utxo, tx.id, made, made);
        KeptsSnoc(p'.undo, s'.undo, p.undo, s.undo);
        ValueInStored(p'.utxo, p.utxo, tx.vin);
      }
    }
  }

  lemma {:induction false} ConnectTxsStored(u': UtxoSet, u: UtxoSet, vtx: seq<Tx>, nHeight: nat)
    requires StoredFrom(u', u)
    ensures ConnectTxs(u', vtx, nHeight).Some? <==> ConnectTxs(u, vtx, nHeight).Some?
    ensures ConnectTxs(u, vtx, nHeight).Some? ==>
              StoredProgress(ConnectTxs(u', vtx, nHeight).value, ConnectTxs(u, vtx, nHeight).value)
  {
    if vtx != [] {
      var front := vtx[..|vtx| - 1];
      ConnectTxsStored(u', u, front, nHeight);
      if ConnectTxs(u, front, nHeight).Some? {
        ConnectTxStored(ConnectTxs(u', front, nHeight).value, ConnectTxs(u, front, nHeight).value, vtx[|vtx| - 1], nHeight);
      }
    }
  }

  /** A block is accepted on a set from storage exactly if it is on the set itself, with the same
      undo file, and leads to what it leads to there. */
  lemma {:induction false} ConnectBlockStored(u': UtxoSet, u: UtxoSet, block: Block, nHeight: nat)
    requires StoredFrom(u', u)
    ensures ConnectBlock(u', block, nHeight).Some? <==> ConnectBlock(u, block, nHeight).Some?
    ensures ConnectBlock(u, block, nHeight).Some? ==>
              var c', c := ConnectBlock(u', block, nHeight).value, ConnectBlock(u, block, nHeight).value;
              StoredFrom(c'.utxo, c.utxo) && KeptUndos(c'.undo) == KeptUndos(c.undo)
  {
    ConnectTxsStored(u', u, block.vtx, nHeight);
  }

  // ---- disconnecting ----

  /** The ids of which a transaction spent the last output. */
  function LastSpentBy(vin: seq<OutPoint>, undo: TxUndo): set<Hash>
    requires |undo| == |vin|
  {
    if vin == [] then {}
    else
      LastSpentBy(vin[..|vin| - 1], undo[..|vin| - 1])
      + if undo[|vin| - 1].nHeight != 0 then {vin[|vin| - 1].hash} else {}
  }

  /** The ids of which some transactions spent the last output. */
  function LastSpent(vtx: seq<Tx>, undo: seq<TxUndo>): set<Hash>
    requires |vtx| <= |undo| + 1
  {
    if vtx == [] then {}
    else
      var k := |vtx| - 1;
      LastSpent(vtx[..k], undo)
      + match UndoOf(undo, k)
        case None => {}
        case Some(txundo) => if |txundo| == |vtx[k].vin| then LastSpentBy(vtx[k].vin, txundo) else {}
  }

  lemma {:induction false} OutputsMatchMarked(u': UtxoSet, u: UtxoSet, kept: set<Hash>, tx: Tx, nHeight: nat)
    requires Marked(u', u, kept) && OutputsMatch(u, tx, nHeight)
    ensures OutputsMatch(u', tx, nHeight)
  {
    var c', c := Lookup(u', tx.id), Lookup(u, tx.id);
    assert c' == c || c' == KeptCoins(c);
    assert c'.vout == c.vout;
  }

  lemma {:induction false} UnspendMarked(c': Coins, c: Coins, kept: bool, n: nat, undo: TxInUndo)
    requires c' == (if kept then KeptCoins(c) else c) && Unspend(c, n, undo).Some?
    ensures Unspend(c', n, KeptUndo(undo)).Some?
    ensures var d', d := Unspend(c', n, KeptUndo(undo)).value, Unspend(c, n, undo).value;
      d' == if kept || undo.nHeight != 0 then KeptCoins(d) else d
  {}

  lemma {:induction false} StoreMarked(u': UtxoSet, u: UtxoSet, kept: set<Hash>, id: Hash, c': Coins, c: Coins, more: set<Hash>)
    requires Marked(u', u, kept) && more <= {id}
    requires c' == if id in kept + more then KeptCoins(c) else c
    ensures Marked(Store(u', id, c'), Store(u, id, c), kept + more)
  {}

  lemma {:induction false} LookupMarked(u': UtxoSet, u: UtxoSet, kept: set<Hash>, id: Hash)
    requires Marked(u', u, kept)
    ensures Lookup(u', id) == if id in kept then KeptCoins(Lookup(u, id)) else Lookup(u, id)
  {
    assert KeptCoins(NO_COINS) == NO_COINS;
  }

  lemma {:induction false} RestoreMarked(u': UtxoSet, u: UtxoSet, kept: set<Hash>, vin: seq<OutPoint>, undo: TxUndo)
    requires Marked(u', u, kept) && |undo| == |vin| && RestoreInputs(u, vin, undo).Some?
    ensures RestoreInputs(u', vin, KeptTxUndo(undo)).Some?
    ensures Marked(RestoreInputs(u', vin, KeptTxUndo(undo)).value, RestoreInputs(u, vin, undo).value, kept + LastSpentBy(vin, undo))
    decreases vin
  {
    if vin != [] {
      var k, p := |vin| - 1, vin[|vin| - 1];
      var c', c := Lookup(u', p.hash), Lookup(u, p.hash);
      LookupMarked(u', u, kept, p.hash);
      UnspendMarked(c', c, p.hash in kept, p.n, undo[k]);
      var d', d := Unspend(c', p.n, KeptUndo(undo[k])).value, Unspend(c, p.n, undo[k]).value;
      var more := if undo[k].nHeight != 0 then {p.hash} else {};
      StoreMarked(u', u, kept, p.hash, d', d, more);
      RestoreMarked(Store(u', p.hash, d'), Store(u, p.hash, d), kept + more, vin[..k], undo[..k]);
      assert KeptTxUndo(undo)[..k] == KeptTxUndo(undo[..k]);
      assert kept + more + LastSpentBy(vin[..k], undo[..k]) == kept + LastSpentBy(vin, undo);
    }
  }

  lemma {:induction false} DisconnectTxMarked(u': UtxoSet, u: UtxoSet, kept: set<Hash>, tx: Tx, undo: Option<TxUndo>, nHeight: nat)
    requires Marked(u', u, kept) && DisconnectTx(u, tx, undo, nHeight).Some?
    ensures undo.Some? ==> |undo.value| == |tx.vin|
    ensures var undo' := if undo.Some? then Some(KeptTxUndo(undo.value)) else None;
      && DisconnectTx(u', tx, undo', nHeight).Some?
      && Marked(DisconnectTx(u', tx, undo', nHeight).value, DisconnectTx(u, tx, undo, nHeight).value,
                kept + if undo.Some? then LastSpentBy(tx.vin, undo.value) else {})
  {
    OutputsMatchMarked(u', u, kept, tx, nHeight);
    assert Marked(u' - {tx.id}, u - {tx.id}, kept);
    if undo.Some? {
      RestoreMarked(u' - {tx.id}, u - {tx.id}, kept, tx.vin, undo.value);
    } else {
      assert kept + {} == kept;
    }
  }

  lemma {:induction false} DisconnectTxsMarked(u': UtxoSet, u: UtxoSet, kept: set<Hash>, vtx: seq<Tx>, undo: seq<TxUndo>, nHeight: nat)
    requires Marked(u', u, kept) && |vtx| <= |undo| + 1 && DisconnectTxs(u, vtx, undo, nHeight).Some?
    ensures DisconnectTxs(u', vtx, KeptUndos(undo), nHeight).Some?
    ensures Marked(DisconnectTxs(u', vtx, KeptUndos(undo), nHeight).value, DisconnectTxs(u, vtx, undo, nHeight).value,
                   kept + LastSpent(vtx, undo))
    decreases vtx
  {
    if vtx == [] {
      assert kept + {} == kept;
    } else {
      var k := |vtx| - 1;
      var txundo := UndoOf(undo, k);
      DisconnectTxMarked(u', u, kept, vtx[k], txundo, nHeight);
      assert UndoOf(KeptUndos(undo), k) == if txundo.Some? then Some(KeptTxUndo(txundo.value)) else None;
      var more := if txundo.Some? then LastSpentBy(vtx[k].vin, txundo.value) else {};
      DisconnectTxsMarked(DisconnectTx(u', vtx[k], UndoOf(KeptUndos(undo), k), nHeight).value,
                          DisconnectTx(u, vtx[k], txundo, nHeight).value, kept + more, vtx[..k], undo, nHeight);
      assert kept + more + LastSpent(vtx[..k], undo) == kept + LastSpent(vtx, undo);
    }
  }

  /** Disconnecting a block from a set from storage, with the undo file, works whenever it does on the
      set itself with the undo data that were made, and leads to what that leads to. */
  lemma {:induction false} DisconnectBlockStored(u': UtxoSet, u: UtxoSet, block: Block, undo: seq<TxUndo>, nHeight: nat)
    requires StoredFrom(u', u) && DisconnectBlock(u, block, undo, nHeight).Some?
    ensures DisconnectBlock(u', block, KeptUndos(undo), nHeight).Some?
    ensures StoredFrom(DisconnectBlock(u', block, KeptUndos(undo), nHeight).value, DisconnectBlock(u, block, undo, nHeight).value)
  {
    var kept := MarkedOf(u', u);
    DisconnectTxsMarked(u', u, kept, block.vtx, undo, nHeight);
  }
}
