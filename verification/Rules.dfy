/**
 What connecting a block accepts and what it leaves, in terms of the amounts, heights and outputs
 themselves (GetBlockValue, UpdateCoins, ConnectBlock and DisconnectBlock in src/main.cpp).
 */
module Rules {
  import opened Core
  import opened CoinRecord
  import opened Utxo
  import opened Reversal
  import opened Numbers

  // ---- the block reward ----

  /** Thirty coins, halved every 288,000 blocks, for 64 intervals. */
  function Reward(nHeight: nat): int {
    if nHeight / 288_000 < 64 then 30 * COIN / Pow2(nHeight / 288_000) else 0
  }

  lemma {:induction false} HalvedIsQuotient(n: nat, times: nat)
    ensures Halved(n, times) == n / Pow2(times)
  {
    if times > 0 {
      HalvedIsQuotient(n, times - 1);
      HalfOfQuotient(n, Pow2(times - 1));
    }
  }

  lemma {:induction false} HalfOfQuotient(n: nat, b: nat)
    requires b > 0
    ensures n / b / 2 == n / (2 * b)
  {
    var q := n / b;
    assert n == q * b + n % b;
    assert q * b == q / 2 * (2 * b) + q % 2 * b;
    QuotientIs(n, 2 * b, q / 2);
  }

  /** The shifts of the source give exactly that. */
  lemma {:induction false} SubsidyIsReward(nHeight: nat)
    ensures Subsidy(nHeight) == Reward(nHeight)
  {
    HalvedIsQuotient(30 * COIN, nHeight / HALVING_INTERVAL);
  }

  // ---- acceptance ----

  /** The two blocks that may overwrite records, or no id of the block has an output left. */
  ghost predicate Bip30Ok(u: UtxoSet, block: Block, nHeight: nat) {
    || (nHeight == 91842 && block.hash == 0x00000000000a4d0a398161ffc163c503763b1f4360639393e0e4c8e300e0caec)
    || (nHeight == 91880 && block.hash == 0x00000000000743f190a18c5577a3c2d2a1f610ae9601ac046a38084ccb7cd721)
    || forall tx, n :: tx in block.vtx ==> !Available(u, OutPoint(tx.id, n))
  }

  /** The genesis block, or a well-formed block that keeps to BIP 30, all of whose transactions can be
      connected one after the other, and whose coinbase pays at most the reward and the fees. */
  ghost predicate Acceptable(u: UtxoSet, block: Block, nHeight: nat) {
    && BlockOk(block)
    && (|| block.hash == GENESIS_HASH
        || (&& Bip30Ok(u, block, nHeight) && block.restOk
            && var q := ConnectTxs(u, block.vtx, nHeight);
               q.Some? && ValueOut(block.vtx[0].vout) <= Reward(nHeight) + q.value.nFees))
  }

  /** ConnectBlock accepts exactly these. */
  lemma {:induction false} AcceptedIff(u: UtxoSet, block: Block, nHeight: nat)
    requires Wf(u)
    ensures ConnectBlock(u, block, nHeight).Some? <==> Acceptable(u, block, nHeight)
  {
    SubsidyIsReward(nHeight);
    NothingOverwrittenIff(u, block.vtx);
  }

  lemma {:induction false} NothingOverwrittenIff(u: UtxoSet, vtx: seq<Tx>)
    requires Wf(u)
    ensures NothingOverwritten(u, vtx) <==> forall tx, n :: tx in vtx ==> !Available(u, OutPoint(tx.id, n))
  {
    forall tx | tx in vtx ensures tx.id !in u <==> forall n :: !Available(u, OutPoint(tx.id, n)) {
      LiveIffAvailable(u, tx.id);
    }
  }

  // ---- the outputs a transaction creates ----

  /** Whether an output can never be spent: its script starts with OP_RETURN. */
  predicate Unspendable(o: TxOut) {
    o.scriptPubKey != [] && o.scriptPubKey[0] == 0x6a
  }

  /** The record of an output says that a transaction made it at some height. */
  ghost predicate MadeBy(c: Coins, n: nat, tx: Tx, nHeight: nat) {
    && n < |c.vout| && n < |tx.vout| && c.vout[n] == tx.vout[n]
    && c.fCoinBase == (|tx.vin| == 1 && tx.vin[0] == OutPoint(0, 0xFFFF_FFFF))
    && c.nHeight == nHeight && c.nVersion == tx.nVersion
  }

  /** What is there under the id of a transaction are exactly its outputs that can be spent, as it
      made them at this height. */
  ghost predicate Creates(u: UtxoSet, tx: Tx, nHeight: nat) {
    forall n: nat ::
      && (Available(u, OutPoint(tx.id, n)) <==> n < |tx.vout| && !Unspendable(tx.vout[n]))
      && (Available(u, OutPoint(tx.id, n)) ==> MadeBy(u[tx.id], n, tx, nHeight))
  }

  lemma {:induction false} StoredCreates(u: UtxoSet, tx: Tx, nHeight: nat)
    requires forall o :: o in tx.vout ==> o.nValue >= 0
    ensures Creates(Store(u, tx.id, FromTx(tx, nHeight)), tx, nHeight)
  {
    var c := FromTx(tx, nHeight);
    forall n: nat
      ensures Available(Store(u, tx.id, c), OutPoint(tx.id, n)) <==> n < |tx.vout| && !Unspendable(tx.vout[n])
      ensures c.IsAvailable(n) ==> MadeBy(c, n, tx, nHeight)
    {
      CreatedOutput(tx, nHeight, n);
      PrunedUnavailable(c, n);
    }
  }

  lemma {:induction false} CreatedOutput(tx: Tx, nHeight: nat, n: nat)
    requires forall o :: o in tx.vout ==> o.nValue >= 0
    ensures FromTx(tx, nHeight).IsAvailable(n) <==> n < |tx.vout| && !Unspendable(tx.vout[n])
    ensures FromTx(tx, nHeight).IsAvailable(n) ==> FromTx(tx, nHeight).vout[n] == tx.vout[n]
  {
    var c, all := FromTx(tx, nHeight), Spendable(tx.vout);
    if n < |tx.vout| {
      assert tx.vout[n] in tx.vout;
      assert n < |c.vout| ==> c.vout[n] == all[n];
    }
  }

  /** After a transaction is connected, exactly its outputs that can be spent are there. */
  lemma {:induction false} ConnectedCreates(p: Progress, tx: Tx, nHeight: nat, q: Progress)
    requires TxOk(tx) && ConnectTx(p, tx, nHeight) == Some(q)
    ensures Creates(q.utxo, tx, nHeight)
  {
    var s := if tx.IsCoinBase() then p.utxo else SpendInputs(p.utxo, tx.vin).value.utxo;
    StoredCreates(s, tx, nHeight);
  }

  /** Spending alters no output that is left, and nothing else in its record. */
  lemma {:induction false} SpendingKeeps(u: UtxoSet, vin: seq<OutPoint>, o: OutPoint)
    requires SpendInputs(u, vin).Some? && Available(SpendInputs(u, vin).value.utxo, o)
    ensures var after := SpendInputs(u, vin).value.utxo;
      && Available(u, o) && after[o.hash].vout[o.n] == u[o.hash].vout[o.n]
      && after[o.hash].(vout := u[o.hash].vout) == u[o.hash]
  {
    if vin != [] {
      var front := vin[..|vin| - 1];
      SpendingKeeps(u, front, o);
    }
  }

  /** Connecting a transaction alters no output of another one that is left. */
  lemma {:induction false} ConnectingKeeps(p: Progress, tx: Tx, nHeight: nat, q: Progress, o: OutPoint)
    requires ConnectTx(p, tx, nHeight) == Some(q) && o.hash != tx.id && Available(q.utxo, o)
    ensures Available(p.utxo, o) && q.utxo[o.hash].vout[o.n] == p.utxo[o.hash].vout[o.n]
    ensures q.utxo[o.hash].(vout := p.utxo[o.hash].vout) == p.utxo[o.hash]
  {
    if !tx.IsCoinBase() {
      SpendingKeeps(p.utxo, tx.vin, o);
    }
  }

  /** What is left of the outputs of a transaction after later ones of its block. */
  ghost predicate Leaves(u: UtxoSet, tx: Tx, nHeight: nat, later: seq<Tx>, n: nat) {
    var o := OutPoint(tx.id, n);
    && (Available(u, o) <==> n < |tx.vout| && !Unspendable(tx.vout[n]) && !SpentBy(later, o))
    && (Available(u, o) ==> MadeBy(u[tx.id], n, tx, nHeight))
  }

  lemma {:induction false} LeavesNext(p: Progress, tx: Tx, nHeight: nat, q: Progress, made: Tx, later: seq<Tx>, n: nat)
    requires Wf(p.utxo) && TxOk(tx) && ConnectTx(p, tx, nHeight) == Some(q) && made.id != tx.id
    requires Leaves(p.utxo, made, nHeight, later, n)
    ensures Leaves(q.utxo, made, nHeight, later + [tx], n)
  {
    var o := OutPoint(made.id, n);
    BeforeStoreAvailable(p, tx, nHeight, q, o);
    SpentBySnoc(later, tx, o);
    if Available(q.utxo, o) {
      ConnectingKeeps(p, tx, nHeight, q, o);
    }
  }

  lemma {:induction false} LaterSnoc(vtx: seq<Tx>, k: nat)
    requires k + 1 < |vtx|
    ensures vtx[k + 1..] == vtx[..|vtx| - 1][k + 1..] + [vtx[|vtx| - 1]]
  {}

  /** The transactions of a block before one, and that one. */
  lemma {:induction false} BeforeOne(u: UtxoSet, vtx: seq<Tx>, nHeight: nat, q: Progress) returns (p: Progress)
    requires Wf(u) && Shaped(vtx) && DistinctIds(vtx) && nHeight > 0 && vtx != []
    requires ConnectTxs(u, vtx, nHeight) == Some(q)
    ensures var front, tx := vtx[..|vtx| - 1], vtx[|vtx| - 1];
      && Shaped(front) && DistinctIds(front) && TxOk(tx) && (forall k :: 0 <= k < |front| ==> vtx[k].id != tx.id)
      && ConnectTxs(u, front, nHeight) == Some(p) && ConnectTx(p, tx, nHeight) == Some(q) && Wf(p.utxo)
  {
    var front, tx := vtx[..|vtx| - 1], vtx[|vtx| - 1];
    p := ConnectTxs(u, front, nHeight).value;
    assert tx in vtx;
    ConnectTxsWf(u, front, nHeight);
  }

  /** After a block, the outputs of each of its transactions are there exactly if they can be spent
      and no later transaction of the block has spent them. */
  lemma {:induction false} BlockLeaves(u: UtxoSet, vtx: seq<Tx>, nHeight: nat, q: Progress, k: nat, n: nat)
    requires Wf(u) && Shaped(vtx) && DistinctIds(vtx) && nHeight > 0 && k < |vtx|
    requires ConnectTxs(u, vtx, nHeight) == Some(q)
    ensures Leaves(q.utxo, vtx[k], nHeight, vtx[k + 1..], n)
  {
    var front, tx := vtx[..|vtx| - 1], vtx[|vtx| - 1];
    var p := BeforeOne(u, vtx, nHeight, q);
    if k == |front| {
      ConnectedCreates(p, tx, nHeight, q);
    } else {
      BlockLeaves(u, front, nHeight, p, k, n);
      LeavesNext(p, tx, nHeight, q, vtx[k], front[k + 1..], n);
      LaterSnoc(vtx, k);
    }
  }

  // ---- what disconnecting asks of the stored outputs ----

  /** An output that is there and can be spent. */
  predicate Shows(vout: seq<TxOut>, n: nat) {
    n < |vout| && vout[n].nValue != -1 && !Unspendable(vout[n])
  }

  predicate ShowSame(a: seq<TxOut>, b: seq<TxOut>, n: nat) {
    (Shows(a, n) <==> Shows(b, n)) && (Shows(a, n) ==> a[n] == b[n])
  }

  predicate OnlyNullOuts(a: seq<TxOut>) {
    forall o :: o in a && o.IsNull() ==> o == NULL_OUT
  }

  /** Outputs without those that cannot be spent are the same exactly if they show the same. */
  lemma {:induction false} CleanedSameIff(a: seq<TxOut>, b: seq<TxOut>)
    requires OnlyNullOuts(a) && OnlyNullOuts(b)
    ensures Cleaned(Spendable(a)) == Cleaned(Spendable(b)) <==> forall n: nat :: ShowSame(a, b, n)
  {
    if forall n: nat :: ShowSame(a, b, n) {
      ShownSame(a, b);
    }
    if Cleaned(Spendable(a)) == Cleaned(Spendable(b)) {
      forall n: nat ensures ShowSame(a, b, n) {
        ShownInCleaned(a, n);
        ShownInCleaned(b, n);
      }
    }
  }

  lemma {:induction false} ShownSame(a: seq<TxOut>, b: seq<TxOut>)
    requires OnlyNullOuts(a) && OnlyNullOuts(b) && forall n: nat :: ShowSame(a, b, n)
    ensures Cleaned(Spendable(a)) == Cleaned(Spendable(b))
  {
    var x, y := Cleaned(Spendable(a)), Cleaned(Spendable(b));
    forall n: nat ensures Shows(a, n) <==> Shows(b, n) {
      assert ShowSame(a, b, n);
    }
    LastShown(a, b);
    LastShown(b, a);
    forall n | 0 <= n < |x| ensures x[n] == y[n] {
      ShownInCleaned(a, n);
      ShownInCleaned(b, n);
      assert ShowSame(a, b, n);
    }
  }

  lemma {:induction false} LastShown(a: seq<TxOut>, b: seq<TxOut>)
    requires OnlyNullOuts(a) && OnlyNullOuts(b) && forall n: nat :: Shows(a, n) ==> Shows(b, n)
    ensures |Cleaned(Spendable(a))| <= |Cleaned(Spendable(b))|
  {
    var last := |Cleaned(Spendable(a))| - 1;
    if last >= 0 {
      ShownInCleaned(a, last);
      ShownInCleaned(b, last);
    }
  }

  lemma {:induction false} ShownInCleaned(a: seq<TxOut>, n: nat)
    requires OnlyNullOuts(a)
    ensures var x := Cleaned(Spendable(a));
      && (Shows(a, n) <==> n < |x| && x[n] != NULL_OUT)
      && (Shows(a, n) ==> x[n] == a[n])
      && (x != [] ==> Shows(a, |x| - 1))
  {
    var all := Spendable(a);
    var x := Cleaned(all);
    if n < |a| {
      assert a[n] in a;
      assert n < |x| ==> x[n] == all[n];
    }
    if x != [] {
      assert a[|x| - 1] in a && x[|x| - 1] == all[|x| - 1];
    }
  }

  /** The record found under an id has exactly those outputs that a transaction made and that can be
      spent, and when it has any, what it says of the transaction is right; a version that was negative
      is not looked at. */
  ghost predicate FoundAsMade(c: Coins, tx: Tx, nHeight: nat) {
    && (forall n: nat :: ShowSame(c.vout, tx.vout, n))
    && ((exists n: nat :: Shows(c.vout, n)) ==>
          && c.fCoinBase == (|tx.vin| == 1 && tx.vin[0] == OutPoint(0, 0xFFFF_FFFF))
          && c.nHeight == nHeight && (tx.nVersion >= 0 ==> c.nVersion == tx.nVersion))
  }

  /** The comparison that DisconnectBlock makes finds out exactly that. */
  lemma {:induction false} OutputsMatchIff(u: UtxoSet, tx: Tx, nHeight: nat)
    requires Wf(u) && TxOk(tx)
    ensures OutputsMatch(u, tx, nHeight) <==> FoundAsMade(Lookup(u, tx.id), tx, nHeight)
  {
    var c := Lookup(u, tx.id);
    NullOutsOnly(c, tx);
    ComparedIff(c, tx, nHeight);
    FoundIff(c, tx, nHeight);
  }

  lemma {:induction false} NullOutsOnly(c: Coins, tx: Tx)
    requires c == NO_COINS || c.Wf()
    requires TxOk(tx)
    ensures OnlyNullOuts(c.vout) && OnlyNullOuts(tx.vout)
  {}

  lemma {:induction false} ComparedIff(c: Coins, tx: Tx, nHeight: nat)
    ensures var outs, made := c.(vout := Cleaned(Spendable(c.vout))), FromTx(tx, nHeight);
      SameCoins(if tx.nVersion < 0 then outs.(nVersion := tx.nVersion) else outs, made)
      <==> && outs.vout == Cleaned(Spendable(tx.vout))
           && (outs.vout != [] ==> && c.fCoinBase == tx.IsCoinBase() && c.nHeight == nHeight
                                   && (tx.nVersion >= 0 ==> c.nVersion == tx.nVersion))
  {
    PrunedIffEmpty(c.(vout := Cleaned(Spendable(c.vout))));
    PrunedIffEmpty(FromTx(tx, nHeight));
    SameWhenCleaned(c, Cleaned(Spendable(c.vout)), FromTx(tx, nHeight));
  }

  lemma {:induction false} FoundIff(c: Coins, tx: Tx, nHeight: nat)
    requires OnlyNullOuts(c.vout) && OnlyNullOuts(tx.vout)
    ensures FoundAsMade(c, tx, nHeight)
            <==> && Cleaned(Spendable(c.vout)) == Cleaned(Spendable(tx.vout))
                 && (Cleaned(Spendable(c.vout)) != [] ==>
                       && c.fCoinBase == tx.IsCoinBase() && c.nHeight == nHeight
                       && (tx.nVersion >= 0 ==> c.nVersion == tx.nVersion))
  {
    CleanedSameIff(c.vout, tx.vout);
    SomethingShown(c.vout);
  }

  lemma {:induction false} SameWhenCleaned(c: Coins, x: seq<TxOut>, made: Coins)
    requires made.IsPruned() <==> made.vout == []
    requires c.(vout := x).IsPruned() <==> x == []
    ensures var outs := c.(vout := x);
      SameCoins(if made.nVersion < 0 then outs.(nVersion := made.nVersion) else outs, made)
      <==> x == made.vout && (x != [] ==> && c.fCoinBase == made.fCoinBase && c.nHeight == made.nHeight
                                          && (made.nVersion >= 0 ==> c.nVersion == made.nVersion))
  {
    assert c.(vout := x, nVersion := made.nVersion).IsPruned() <==> x == [];
  }

  lemma {:induction false} SomethingShown(a: seq<TxOut>)
    requires OnlyNullOuts(a)
    ensures Cleaned(Spendable(a)) != [] <==> exists n: nat :: Shows(a, n)
  {
    var last := |Cleaned(Spendable(a))| - 1;
    if last >= 0 {
      ShownInCleaned(a, last);
    }
    if n: nat :| Shows(a, n) {
      ShownInCleaned(a, n);
    }
  }
}
