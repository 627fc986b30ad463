/**
 The stored form of undo data (CTxInUndo in src/core.h), and what a stored record and stored undo
 data are still good for when their version was negative (DisconnectBlock in src/main.cpp).
 */
module UndoCodec {
  import opened Core
  import opened CoinRecord
  import opened Utxo
  import Reversal
  import opened AmountCodec
  import opened VarInt
  import opened Storage
  import opened CoinsCodec

  datatype UndoRead = UndoRead(undo: TxInUndo, rest: seq<Token>)

  function UndoCode(undo: TxInUndo): nat {
    undo.nHeight * 2 + if undo.fCoinBase then 1 else 0
  }

  /** The version is written only with a height. */
  function UndoTokens(undo: TxInUndo): seq<Token>
    requires MoneyRange(undo.txout.nValue)
  {
    [NumberToken(UndoCode(undo))] + (if undo.nHeight > 0 then [NumberToken(undo.nVersion)] else [])
    + [Output(Compressed(undo.txout.nValue), undo.txout.scriptPubKey)]
  }

  function OutputOf(t: Token): Option<TxOut> {
    if t.Output? then Some(TxOut(Decompressed(t.nAmount % WORD) % WORD, t.scriptPubKey)) else None
  }

  function UndoFrom(s: seq<Token>): Option<UndoRead> {
    if s == [] || NumberOf(s[0]) == None then None
    else
      var nCode := NumberOf(s[0]).value;
      var nHeight, k := nCode / 2, if nCode / 2 > 0 then 2 else 1;
      if |s| <= k || (nHeight > 0 && NumberOf(s[1]) == None) || OutputOf(s[k]) == None then None
      else
        var nVersion: int := if nHeight > 0 then NumberOf(s[1]).value else 0;
        Some(UndoRead(TxInUndo(OutputOf(s[k]).value, nCode % 2 == 1, nHeight, nVersion), s[k + 1..]))
  }

  method WriteUndo(undo: TxInUndo) returns (s: seq<Token>)
    requires MoneyRange(undo.txout.nValue)
    ensures s == UndoTokens(undo)
  {
    var code := WriteNumber(undo.nHeight * 2 + if undo.fCoinBase then 1 else 0);
    s := [code];
    if undo.nHeight > 0 {
      var version := WriteNumber(undo.nVersion);
      s := s + [version];
    }
    AmountRoundTrip(undo.txout.nValue);
    var nAmount := CompressAmount(undo.txout.nValue);
    s := s + [Output(nAmount, undo.txout.scriptPubKey)];
  }

  method ReadUndo(s: seq<Token>) returns (r: Option<UndoRead>)
    ensures r == UndoFrom(s)
  {
    if s == [] {
      return None;
    }
    var code := ReadNumber(s[0]);
    if code == None {
      return None;
    }
    var nHeight, fCoinBase := code.value / 2, code.value % 2 == 1;
    var nVersion, k := 0, 1;
    if nHeight > 0 {
      if |s| < 2 {
        return None;
      }
      var version := ReadNumber(s[1]);
      if version == None {
        return None;
      }
      nVersion, k := version.value, 2;
    }
    if |s| <= k || !s[k].Output? {
      return None;
    }
    var nValue := DecompressAmount(s[k].nAmount % WORD);
    r := Some(UndoRead(TxInUndo(TxOut(nValue, s[k].scriptPubKey), fCoinBase, nHeight, nVersion), s[k + 1..]));
  }


  lemma {:induction false} UndoReadBack(undo: TxInUndo, rest: seq<Token>)
    requires MoneyRange(undo.txout.nValue)
    ensures UndoFrom(UndoTokens(undo) + rest) == Some(UndoRead(KeptUndo(undo), rest))
  {
    var s, k := UndoTokens(undo) + rest, if undo.nHeight > 0 then 2 else 1;
    NumberKept(UndoCode(undo));
    NumberKept(undo.nVersion);
    AmountRoundTrip(undo.txout.nValue);
    assert UndoCode(undo) / 2 == undo.nHeight && (UndoCode(undo) % 2 == 1 <==> undo.fCoinBase);
    assert s[0] == NumberToken(UndoCode(undo)) && (k == 2 ==> s[1] == NumberToken(undo.nVersion));
    assert OutputOf(s[k]) == Some(undo.txout) && s[k + 1..] == rest;
  }

  /** The undo data that spending makes come back as they were, if and only if they hold no version
      or one that is not negative. */
  lemma {:induction false} UndoRoundTripIff(c: Coins, n: nat, rest: seq<Token>)
    requires c.Wf() && c.IsAvailable(n)
    ensures var s := Spend(c, n).value;
      MoneyRange(s.undo.txout.nValue)
      && (UndoFrom(UndoTokens(s.undo) + rest) == Some(UndoRead(s.undo, rest)) <==> c.nVersion >= 0 || !s.coins.IsPruned())
  {
    var s := Spend(c, n).value;
    assert c.vout[n] in c.vout;
    SpendUnspend(c, n);
    UndoReadBack(s.undo, rest);
    NumberKept(c.nVersion);
  }

  /** A spent output is restored from stored undo data, with the version that was kept, which is the
      version there was unless that was negative and the last output was spent. */
  lemma {:induction false} StoredUndoRestores(c: Coins, n: nat)
    requires c.Wf() && c.IsAvailable(n)
    ensures var s := Spend(c, n).value;
      && Unspend(s.coins, n, KeptUndo(s.undo)) == Some(if s.coins.IsPruned() then c.(nVersion := Kept(c.nVersion)) else c)
      && (Unspend(s.coins, n, KeptUndo(s.undo)) == Some(c) <==> c.nVersion >= 0 || !s.coins.IsPruned())
  {
    SpendUnspend(c, n);
    NumberKept(c.nVersion);
  }

  /** The check of DisconnectBlock on the outputs of a transaction does not mind: it accepts the
      record that was written and read back, for any version of the transaction. */
  lemma {:induction false} StoredRecordMatches(tx: Tx, nHeight: nat, stored: Coins)
    requires stored == FromTx(tx, nHeight).(nVersion := Kept(tx.nVersion))
    ensures OutputsMatch(map[tx.id := stored], tx, nHeight)
  {
    Reversal.CreatedOutputsMatch(map[tx.id := FromTx(tx, nHeight)], tx, nHeight);
    NumberKept(tx.nVersion);
  }
}
