/**
 Transactions and blocks as the consensus code sees them, and the checks on them that need
 no context (src/core.h, and CheckTransaction and CheckBlock in src/main.cpp).
 */
module Core {

  /** A uint256. The value 0 is the null hash. */
  type Hash = nat

  datatype Option<+T> = None | Some(value: T)

  const COIN := 100_000_000
  const MAX_MONEY := 28_800_000 * COIN
  const OP_RETURN := 0x6a
  const UINT_MAX := 0xFFFF_FFFF
  const MAX_BLOCK_SIZE := 1_000_000

  predicate MoneyRange(nValue: int) {
    0 <= nValue <= MAX_MONEY
  }

  type Script = seq<nat>

  predicate IsUnspendable(script: Script) {
    |script| > 0 && script[0] == OP_RETURN
  }

  datatype OutPoint = OutPoint(hash: Hash, n: nat) {
    predicate IsNull() {
      hash == 0 && n == UINT_MAX
    }
  }

  datatype TxOut = TxOut(nValue: int, scriptPubKey: Script) {
    predicate IsNull() {
      nValue == -1
    }
  }

  const NULL_OUT := TxOut(-1, [])

  /** A transaction. `id` is its hash: any assignment of ids to transactions is allowed. `nSize` is
      its serialized size, and `nScriptSig` the length of the script of its first input. */
  datatype Tx = Tx(id: Hash, nVersion: int, vin: seq<OutPoint>, vout: seq<TxOut>, nSize: nat, nScriptSig: nat) {
    predicate IsCoinBase() {
      |vin| == 1 && vin[0].IsNull()
    }
  }

  /** A block. `nSize` is its serialized size, `restOk` the verdict of the rules that are not modelled
      (scripts, signature operation counts, proof of work, time, the root in the header), and `nTarget`
      the target that its header states. */
  datatype Block = Block(hash: Hash, vtx: seq<Tx>, nSize: nat, restOk: bool, nTarget: int)

  lemma {:induction false} ConcatAssociative<T>(a: seq<T>, b: seq<T>, c: seq<T>)
    ensures a + (b + c) == (a + b) + c
  {}

  /** A sequence is its front and its last element. */
  lemma {:induction false} FrontLast<T>(s: seq<T>)
    requires s != []
    ensures s == s[..|s| - 1] + [s[|s| - 1]]
  {}

  /** The sum of the values of some outputs. */
  function ValueOut(vout: seq<TxOut>): int {
    if vout == [] then 0 else ValueOut(vout[..|vout| - 1]) + vout[|vout| - 1].nValue
  }

  predicate DistinctInputs(vin: seq<OutPoint>) {
    forall i, j :: 0 <= i < j < |vin| ==> vin[i] != vin[j]
  }

  predicate DistinctIds(vtx: seq<Tx>) {
    forall i, j :: 0 <= i < j < |vtx| ==> vtx[i].id != vtx[j].id
  }

  /** What CheckTransaction accepts. */
  predicate TxOk(tx: Tx) {
    && tx.vin != []
    && tx.vout != []
    && tx.nSize <= MAX_BLOCK_SIZE
    && (forall o :: o in tx.vout ==> MoneyRange(o.nValue))
    && MoneyRange(ValueOut(tx.vout))
    && DistinctInputs(tx.vin)
    && if tx.IsCoinBase() then 2 <= tx.nScriptSig <= 100 else forall p :: p in tx.vin ==> !p.IsNull()
  }

  /** What CheckBlock accepts, apart from the rules folded into `restOk`. */
  predicate BlockOk(block: Block) {
    && block.vtx != []
    && |block.vtx| <= MAX_BLOCK_SIZE
    && block.nSize <= MAX_BLOCK_SIZE
    && block.vtx[0].IsCoinBase()
    && (forall i :: 1 <= i < |block.vtx| ==> !block.vtx[i].IsCoinBase())
    && (forall tx :: tx in block.vtx ==> TxOk(tx))
    && DistinctIds(block.vtx)
  }

  /** Values that are not negative only push the sum up. */
  lemma {:induction false} ValueOutPrefix(vout: seq<TxOut>, k: nat)
    requires k <= |vout|
    requires forall i :: k <= i < |vout| ==> vout[i].nValue >= 0
    ensures ValueOut(vout[..k]) <= ValueOut(vout)
  {
    if k == |vout| {
      assert vout[..k] == vout;
    } else {
      var front := vout[..|vout| - 1];
      ValueOutPrefix(front, k);
      assert front[..k] == vout[..k];
    }
  }

  /** CheckTransaction: one pass over the outputs with a running total, one over the inputs
      with a set of the outpoints seen. The running total may stop the loop early, yet the
      verdict is the one the final total gives. */
  method CheckTransaction(tx: Tx) returns (ok: bool)
    ensures ok == TxOk(tx)
    ensures ok ==> tx.nSize <= 1_000_000 && forall o :: o in tx.vout ==> 0 <= o.nValue <= 28_800_000 * 100_000_000
    ensures ok ==> forall p :: p in tx.vin && p.hash == 0 && p.n == 0xFFFF_FFFF ==> |tx.vin| == 1 && 2 <= tx.nScriptSig <= 100
  {
    if tx.vin == [] || tx.vout == [] {
      return false;
    }
    if tx.nSize > MAX_BLOCK_SIZE {
      return false;
    }
    var nValueOut := 0;
    for i := 0 to |tx.vout|
      invariant nValueOut == ValueOut(tx.vout[..i])
      invariant MoneyRange(nValueOut)
      invariant forall j :: 0 <= j < i ==> MoneyRange(tx.vout[j].nValue)
    {
      if tx.vout[i].nValue < 0 {
        return false;
      }
      if tx.vout[i].nValue > MAX_MONEY {
        return false;
      }
      nValueOut := nValueOut + tx.vout[i].nValue;
      assert tx.vout[..i + 1][..i] == tx.vout[..i];
      if !MoneyRange(nValueOut) {
        if TxOk(tx) {
          ValueOutPrefix(tx.vout, i + 1);
        }
        return false;
      }
    }
    assert tx.vout[..|tx.vout|] == tx.vout;
    var vInOutPoints: set<OutPoint> := {};
    for i := 0 to |tx.vin|
      invariant forall p :: p in vInOutPoints <==> p in tx.vin[..i]
      invariant forall a, b :: 0 <= a < b < i ==> tx.vin[a] != tx.vin[b]
    {
      if tx.vin[i] in vInOutPoints {
        return false;
      }
      vInOutPoints := vInOutPoints + {tx.vin[i]};
    }
    if tx.IsCoinBase() {
      if tx.nScriptSig < 2 || tx.nScriptSig > 100 {
        return false;
      }
    } else {
      for i := 0 to |tx.vin|
        invariant forall j :: 0 <= j < i ==> !tx.vin[j].IsNull()
      {
        if tx.vin[i].IsNull() {
          return false;
        }
      }
    }
    return true;
  }

  function IdSet(vtx: seq<Tx>): set<Hash> {
    set tx | tx in vtx :: tx.id
  }

  lemma {:induction false} IdSetSnoc(front: seq<Tx>, last: Tx)
    ensures IdSet(front + [last]) == IdSet(front) + {last.id}
  {
    var vtx := front + [last];
    forall tx | tx in front ensures tx in vtx {}
    assert last in vtx;
  }

  lemma {:induction false} DistinctIdsSnoc(front: seq<Tx>, last: Tx)
    ensures DistinctIds(front + [last]) <==> DistinctIds(front) && last.id !in IdSet(front)
  {
    var vtx := front + [last];
    if DistinctIds(vtx) {
      forall i, j | 0 <= i < j < |front| ensures front[i].id != front[j].id {
        assert vtx[i].id != vtx[j].id;
      }
      forall i | 0 <= i < |front| ensures front[i].id != last.id {
        assert vtx[i].id != vtx[|front|].id;
      }
    }
  }

  /** Counting the set of ids decides whether the ids are distinct. */
  lemma {:induction false} DistinctIdsBySize(vtx: seq<Tx>)
    ensures |IdSet(vtx)| <= |vtx|
    ensures |IdSet(vtx)| == |vtx| <==> DistinctIds(vtx)
  {
    if vtx == [] {
      assert IdSet(vtx) == {};
    } else {
      var front, last := vtx[..|vtx| - 1], vtx[|vtx| - 1];
      DistinctIdsBySize(front);
      FrontLast(vtx);
      DistinctIdsSnoc(front, last);
      IdSetSnoc(front, last);
    }
  }

  /** So exactly the first transaction has an input that names no output. */
  lemma {:induction false} OneNullInput(block: Block, i: nat)
    requires BlockOk(block) && i < |block.vtx|
    ensures i == 0 <==> OutPoint(0, 0xFFFF_FFFF) in block.vtx[i].vin
  {
    assert block.vtx[i] in block.vtx;
  }

  /** CheckBlock: the coinbase first and nowhere else, every transaction well formed, and as
      many distinct ids as transactions. */
  method CheckBlock(block: Block) returns (ok: bool)
    ensures ok == BlockOk(block)
    ensures ok ==> forall i :: 0 <= i < |block.vtx| ==> (i == 0 <==> OutPoint(0, 0xFFFF_FFFF) in block.vtx[i].vin)
  {
    if block.vtx == [] || |block.vtx| > MAX_BLOCK_SIZE || block.nSize > MAX_BLOCK_SIZE {
      return false;
    }
    if !block.vtx[0].IsCoinBase() {
      return false;
    }
    for i := 1 to |block.vtx|
      invariant forall j :: 1 <= j < i ==> !block.vtx[j].IsCoinBase()
    {
      if block.vtx[i].IsCoinBase() {
        return false;
      }
    }
    for i := 0 to |block.vtx|
      invariant forall j :: 0 <= j < i ==> TxOk(block.vtx[j])
    {
      var txOk := CheckTransaction(block.vtx[i]);
      if !txOk {
        return false;
      }
    }
    var uniqueTx: set<Hash> := {};
    for i := 0 to |block.vtx|
      invariant uniqueTx == IdSet(block.vtx[..i])
    {
      assert block.vtx[..i + 1] == block.vtx[..i] + [block.vtx[i]];
      uniqueTx := uniqueTx + {block.vtx[i].id};
    }
    assert block.vtx[..|block.vtx|] == block.vtx;
    DistinctIdsBySize(block.vtx);
    if BlockOk(block) {
      forall i | 0 <= i < |block.vtx| ensures i == 0 <==> OutPoint(0, 0xFFFF_FFFF) in block.vtx[i].vin {
        OneNullInput(block, i);
      }
    }
    return |uniqueTx| == |block.vtx|;
  }
}
