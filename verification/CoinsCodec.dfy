/**
 The stored form of the unspent outputs of a transaction (CCoins::Serialize, Unserialize and
 CalcMaskSize in src/coins.h and src/coins.cpp). A stream is a sequence of tokens; a number is the
 bytes of a variable-length integer, and the compressed form of scripts is not modelled.
 */
module CoinsCodec {
  import opened AmountCodec
  import opened Bits
  import opened Core
  import opened CoinRecord
  import opened VarInt

  datatype Token =
    | Number(code: seq<nat>)
    | Mask(b: bv8)
    | Output(nAmount: nat, scriptPubKey: Script)

  function NumberToken(n: int): Token {
    Number(Encoded(n))
  }

  /** The number that is read from a token. */
  function NumberOf(t: Token): Option<nat> {
    if !t.Number? then None
    else
      match Decoded(t.code, 0)
      case None => None
      case Some(r) => if r.rest == [] then Some(r.n) else None
  }

  lemma {:induction false} NumberKept(n: int)
    ensures NumberOf(NumberToken(n)) == Some(Kept(n)) && (Kept(n) == n <==> n >= 0)
  {
    EncodedDecoded(n, []);
    assert Encoded(n) + [] == Encoded(n);
  }

  method WriteNumber(n: int) returns (t: Token)
    ensures t == NumberToken(n)
  {
    var code := WriteVarInt(n);
    t := Number(code);
  }

  method ReadNumber(t: Token) returns (r: Option<nat>)
    ensures r == NumberOf(t)
  {
    if !t.Number? {
      return None;
    }
    var read := ReadVarInt(t.code);
    r := if read.Some? && read.value.rest == [] then Some(read.value.n) else None;
  }

  /** Whether output i is there and not spent. */
  predicate Avail(vout: seq<TxOut>, i: nat) {
    i < |vout| && !vout[i].IsNull()
  }

  /** Whether the output that bit k of byte b of the bitmask stands for is there. */
  predicate InMask(vout: seq<TxOut>, b: nat, k: nat) {
    Avail(vout, 2 + b * 8 + k)
  }

  // ---- the bitmask ----

  /** The bits below k of the byte for the eight outputs from 2 + 8 b on. */
  function MaskBits(vout: seq<TxOut>, b: nat, k: nat): bv8
    requires k <= 8
  {
    if k == 0 then 0
    else if InMask(vout, b, k - 1) then MaskBits(vout, b, k - 1) | (1 << (k - 1))
    else MaskBits(vout, b, k - 1)
  }

  /** How many bits of a byte there are outputs for. */
  function BitsUsed(vout: seq<TxOut>, b: nat): (k: nat)
    ensures k <= 8 && forall j :: k <= j < 8 ==> !InMask(vout, b, j)
  {
    if |vout| <= 2 + b * 8 then 0 else if |vout| >= 2 + b * 8 + 8 then 8 else |vout| - (2 + b * 8)
  }

  function MaskByte(vout: seq<TxOut>, b: nat): bv8 {
    MaskBits(vout, b, BitsUsed(vout, b))
  }

  lemma {:induction false} MaskBitsOf(vout: seq<TxOut>, b: nat, k: nat, j: nat)
    requires k <= 8 && j < 8
    ensures BitOf(MaskBits(vout, b, k), j) <==> j < k && InMask(vout, b, j)
  {
    if k > 0 {
      MaskBitsOf(vout, b, k - 1, j);
      if InMask(vout, b, k - 1) {
        SetBit(MaskBits(vout, b, k - 1), k - 1, j);
      } else {
        assert MaskBits(vout, b, k) == MaskBits(vout, b, k - 1);
      }
    }
  }

  /** A byte is zero exactly when none of its outputs is there. */
  lemma {:induction false} MaskByteZero(vout: seq<TxOut>, b: nat)
    ensures MaskByte(vout, b) == 0 <==> forall j :: 0 <= j < 8 ==> !InMask(vout, b, j)
  {
    forall j | 0 <= j < 8 ensures BitOf(MaskByte(vout, b), j) <==> InMask(vout, b, j) {
      MaskBitsOf(vout, b, BitsUsed(vout, b), j);
    }
    NoBits(MaskByte(vout, b));
  }

  /** How many of the first k bytes are not zero. */
  function NonZero(vout: seq<TxOut>, k: nat): (n: nat)
    ensures n <= k
  {
    if k == 0 then 0 else NonZero(vout, k - 1) + if MaskByte(vout, k - 1) != 0 then 1 else 0
  }

  /** The number of bytes up to the last of the first k that is not zero. */
  function LastUsed(vout: seq<TxOut>, k: nat): (n: nat)
    ensures n <= k && (n > 0 ==> MaskByte(vout, n - 1) != 0)
    ensures forall b :: n <= b < k ==> MaskByte(vout, b) == 0
  {
    if k == 0 then 0 else if MaskByte(vout, k - 1) != 0 then k else LastUsed(vout, k - 1)
  }

  /** The number of bytes that there are outputs for. */
  function MaskLimit(vout: seq<TxOut>): nat {
    if |vout| <= 2 then 0 else (|vout| - 2 + 7) / 8
  }

  function MaskSize(vout: seq<TxOut>): nat {
    LastUsed(vout, MaskLimit(vout))
  }

  function MaskCode(vout: seq<TxOut>): nat {
    NonZero(vout, MaskLimit(vout))
  }

  /** Whether none of the outputs that a byte stands for is there. */
  method ByteIsZero(vout: seq<TxOut>, b: nat) returns (fZero: bool)
    ensures fZero <==> MaskByte(vout, b) == 0
  {
    fZero := true;
    var i := 0;
    while i < 8 && 2 + b * 8 + i < |vout|
      invariant 0 <= i <= 8
      invariant fZero <==> forall j :: 0 <= j < i ==> !InMask(vout, b, j)
      decreases 8 - i
    {
      assert InMask(vout, b, i) <==> !vout[2 + b * 8 + i].IsNull();
      if !vout[2 + b * 8 + i].IsNull() {
        fZero := false;
      }
      i := i + 1;
    }
    assert forall j :: i <= j < 8 ==> !InMask(vout, b, j);
    MaskByteZero(vout, b);
  }

  /** Counts the bytes of the bitmask up to the last that is not zero, and those that are not zero. */
  method CalcMaskSize(vout: seq<TxOut>) returns (nBytes: nat, nNonzeroBytes: nat)
    ensures nBytes == MaskSize(vout) && nNonzeroBytes == MaskCode(vout)
  {
    nBytes, nNonzeroBytes := 0, 0;
    var b := 0;
    while 2 + b * 8 < |vout|
      invariant 0 <= b <= MaskLimit(vout)
      invariant nBytes == LastUsed(vout, b) && nNonzeroBytes == NonZero(vout, b)
      decreases |vout| - b
    {
      var fZero := ByteIsZero(vout, b);
      if !fZero {
        nBytes := b + 1;
        nNonzeroBytes := nNonzeroBytes + 1;
      }
      b := b + 1;
    }
  }

  // ---- writing ----

  function MaskTokens(vout: seq<TxOut>, lo: nat, hi: nat): seq<Token>
    requires lo <= hi
    decreases hi - lo
  {
    if lo == hi then [] else [Mask(MaskByte(vout, lo))] + MaskTokens(vout, lo + 1, hi)
  }

  predicate InRange(vout: seq<TxOut>) {
    forall o :: o in vout ==> o == NULL_OUT || MoneyRange(o.nValue)
  }

  /** The outputs that are there, from output i on. */
  function OutputTokens(vout: seq<TxOut>, i: nat): seq<Token>
    requires i <= |vout|
    requires InRange(vout)
    decreases |vout| - i
  {
    if i == |vout| then []
    else
      assert vout[i] in vout;
      (if Avail(vout, i) then [Output(Compressed(vout[i].nValue), vout[i].scriptPubKey)] else []) + OutputTokens(vout, i + 1)
  }

  /** The header: the coinbase flag, the first two outputs, and the number of bytes of the bitmask
      that are not zero, of which there is at least one when neither of the first two is there. */
  function HeaderCode(c: Coins): int {
    var first, second := Avail(c.vout, 0), Avail(c.vout, 1);
    8 * (MaskCode(c.vout) - if first || second then 0 else 1)
    + (if c.fCoinBase then 1 else 0) + (if first then 2 else 0) + if second then 4 else 0
  }

  function Serialized(c: Coins): seq<Token>
    requires c.Wf()
  {
    [NumberToken(c.nVersion), NumberToken(HeaderCode(c))] + MaskTokens(c.vout, 0, MaskSize(c.vout))
    + OutputTokens(c.vout, 0) + [NumberToken(c.nHeight)]
  }

  method MakeMaskByte(vout: seq<TxOut>, b: nat) returns (chAvail: bv8)
    ensures chAvail == MaskByte(vout, b)
  {
    chAvail := 0;
    var i := 0;
    while i < 8 && 2 + b * 8 + i < |vout|
      invariant 0 <= i <= BitsUsed(vout, b) && chAvail == MaskBits(vout, b, i)
      decreases 8 - i
    {
      if !vout[2 + b * 8 + i].IsNull() {
        chAvail := chAvail | (1 << i);
      }
      i := i + 1;
    }
  }

  lemma {:induction false} MaskTokensSnoc(vout: seq<TxOut>, lo: nat, hi: nat)
    requires lo <= hi
    ensures MaskTokens(vout, lo, hi + 1) == MaskTokens(vout, lo, hi) + [Mask(MaskByte(vout, hi))]
    decreases hi - lo
  {
    if lo < hi {
      MaskTokensSnoc(vout, lo + 1, hi);
    }
  }

  method WriteMask(vout: seq<TxOut>, nMaskSize: nat) returns (s: seq<Token>)
    ensures s == MaskTokens(vout, 0, nMaskSize)
  {
    s := [];
    for b := 0 to nMaskSize
      invariant s == MaskTokens(vout, 0, b)
    {
      var chAvail := MakeMaskByte(vout, b);
      MaskTokensSnoc(vout, 0, b);
      s := s + [Mask(chAvail)];
    }
  }

  method WriteOutputs(vout: seq<TxOut>) returns (s: seq<Token>)
    requires InRange(vout)
    ensures s == OutputTokens(vout, 0)
  {
    s := [];
    for i := 0 to |vout|
      invariant s + OutputTokens(vout, i) == OutputTokens(vout, 0)
    {
      ghost var more := OutputTokens(vout, i + 1);
      if !vout[i].IsNull() {
        assert vout[i] in vout;
        var nAmount := CompressAmount(vout[i].nValue);
        AmountRoundTrip(vout[i].nValue);
        ConcatAssociative(s, [Output(nAmount, vout[i].scriptPubKey)], more);
        s := s + [Output(nAmount, vout[i].scriptPubKey)];
      } else {
        assert [] + more == more;
      }
    }
  }

  /** Writes a record that has an output left. */
  method Serialize(c: Coins) returns (s: seq<Token>)
    requires c.Wf()
    ensures s == Serialized(c)
  {
    var nMaskSize, nMaskCode := CalcMaskSize(c.vout);
    var fFirst := |c.vout| > 0 && !c.vout[0].IsNull();
    var fSecond := |c.vout| > 1 && !c.vout[1].IsNull();
    SomethingLeft(c);
    assert fFirst || fSecond || nMaskCode > 0;
    var nCode := 8 * (nMaskCode - if fFirst || fSecond then 0 else 1)
      + (if c.fCoinBase then 1 else 0) + (if fFirst then 2 else 0) + if fSecond then 4 else 0;
    assert nCode == HeaderCode(c);
    var mask := WriteMask(c.vout, nMaskSize);
    var outputs := WriteOutputs(c.vout);
    var version := WriteNumber(c.nVersion);
    var code := WriteNumber(nCode);
    var height := WriteNumber(c.nHeight);
    s := [version, code] + mask + outputs + [height];
  }

  // ---- which bytes are not zero ----

  /** The byte of the last output is the last that is not zero. */
  lemma {:induction false} LastByteUsed(c: Coins)
    requires c.Wf() && |c.vout| > 2
    ensures MaskSize(c.vout) == MaskLimit(c.vout) && |c.vout| <= 2 + 8 * MaskSize(c.vout)
  {
    var last := MaskLimit(c.vout) - 1;
    var k := |c.vout| - 1 - 2 - last * 8;
    assert 0 <= k < 8 && InMask(c.vout, last, k);
    MaskByteZero(c.vout, last);
  }

  lemma {:induction false} NonZeroPositive(vout: seq<TxOut>, b: nat, k: nat)
    requires b < k && MaskByte(vout, b) != 0
    ensures NonZero(vout, b) < NonZero(vout, k)
    decreases k
  {
    if b < k - 1 {
      NonZeroPositive(vout, b, k - 1);
    }
  }

  /** A record that is written has one of the first two outputs or a byte that is not zero. */
  lemma {:induction false} SomethingLeft(c: Coins)
    requires c.Wf()
    ensures Avail(c.vout, 0) || Avail(c.vout, 1) || MaskCode(c.vout) > 0
  {
    if |c.vout| > 2 {
      LastByteUsed(c);
      NonZeroPositive(c.vout, MaskSize(c.vout) - 1, MaskLimit(c.vout));
    }
  }

  // ---- reading ----

  datatype MaskRead = MaskRead(vAvail: seq<bool>, rest: seq<Token>)
  datatype OutputsRead = OutputsRead(vout: seq<TxOut>, rest: seq<Token>)
  datatype CoinsRead = CoinsRead(coins: Coins, rest: seq<Token>)

  function Eight(b: bv8): (bits: seq<bool>)
    ensures |bits| == 8 && forall p :: 0 <= p < 8 ==> bits[p] == BitOf(b, p)
  {
    seq(8, p requires 0 <= p < 8 => BitOf(b, p))
  }

  function Before(vAvail: seq<bool>, r: Option<MaskRead>): Option<MaskRead> {
    match r
    case None => None
    case Some(m) => Some(MaskRead(vAvail + m.vAvail, m.rest))
  }

  /** Bytes of the bitmask until enough of them were not zero. */
  function ReadMask(s: seq<Token>, nMaskCode: nat): Option<MaskRead> {
    if nMaskCode == 0 then Some(MaskRead([], s))
    else if s == [] || !s[0].Mask? then None
    else Before(Eight(s[0].b), ReadMask(s[1..], if s[0].b != 0 then nMaskCode - 1 else nMaskCode))
  }

  /** The outputs that are there; null outputs for the others. */
  function ReadOutputs(s: seq<Token>, vAvail: seq<bool>): Option<OutputsRead>
    decreases |vAvail|
  {
    if vAvail == [] then Some(OutputsRead([], s))
    else if !vAvail[0] then After(NULL_OUT, ReadOutputs(s, vAvail[1..]))
    else if s == [] || !s[0].Output? then None
    else After(TxOut(Decompressed(s[0].nAmount % WORD) % WORD, s[0].scriptPubKey), ReadOutputs(s[1..], vAvail[1..]))
  }

  function After(o: TxOut, r: Option<OutputsRead>): Option<OutputsRead> {
    match r
    case None => None
    case Some(m) => Some(OutputsRead([o] + m.vout, m.rest))
  }

  /** Bit k of a number. */
  predicate Bit(n: nat, k: nat) {
    if k == 0 then n % 2 == 1 else Bit(n / 2, k - 1)
  }

  lemma {:induction false} LowBits(n: nat)
    ensures Bit(n, 0) == (n % 2 == 1) && Bit(n, 1) == (n / 2 % 2 == 1) && Bit(n, 2) == (n / 4 % 2 == 1)
  {
    assert Bit(n, 2) == Bit(n / 2, 1) == Bit(n / 2 / 2, 0);
  }

  lemma {:induction false} LowBit(n: nat, low: bool)
    ensures var m := 2 * n + if low then 1 else 0;
      m / 2 == n && Bit(m, 0) == low && forall k :: k > 0 ==> Bit(m, k) == Bit(n, k - 1)
  {}

  /** Unserialize, or nothing where the stream would fail. */
  function Unserialized(s: seq<Token>): Option<CoinsRead> {
    if |s| < 2 || NumberOf(s[0]) == None || NumberOf(s[1]) == None then None
    else
      var nCode := NumberOf(s[1]).value;
      var nMaskCode := nCode / 8 + if Bit(nCode, 1) || Bit(nCode, 2) then 0 else 1;
      match ReadMask(s[2..], nMaskCode)
      case None => None
      case Some(m) =>
        match ReadOutputs(m.rest, [Bit(nCode, 1), Bit(nCode, 2)] + m.vAvail)
        case None => None
        case Some(o) =>
          if o.rest == [] || NumberOf(o.rest[0]) == None then None
          else Some(CoinsRead(Coins(Bit(nCode, 0), Cleaned(o.vout), NumberOf(o.rest[0]).value, NumberOf(s[0]).value), o.rest[1..]))
  }

  method ReadByte(chAvail: bv8) returns (bits: seq<bool>)
    ensures bits == Eight(chAvail)
  {
    bits := [];
    for p := 0 to 8
      invariant |bits| == p && forall q :: 0 <= q < p ==> bits[q] == BitOf(chAvail, q)
    {
      bits := bits + [chAvail & (1 << p) != 0];
    }
  }

  /** Reads the bitmask byte by byte. */
  method ReadMaskBytes(s: seq<Token>, nMaskCode: nat) returns (ok: bool, vAvail: seq<bool>, rest: seq<Token>)
    ensures ReadMask(s, nMaskCode) == if ok then Some(MaskRead(vAvail, rest)) else None
  {
    var left := nMaskCode;
    vAvail, rest := [], s;
    BeforeNothing(ReadMask(s, nMaskCode));
    while left > 0
      invariant Before(vAvail, ReadMask(rest, left)) == ReadMask(s, nMaskCode)
      decreases |rest|
    {
      if rest == [] || !rest[0].Mask? {
        return false, vAvail, rest;
      }
      var chAvail := rest[0].b;
      BeforeBefore(vAvail, Eight(chAvail), ReadMask(rest[1..], if chAvail != 0 then left - 1 else left));
      var bits := ReadByte(chAvail);
      vAvail := vAvail + bits;
      rest := rest[1..];
      if chAvail != 0 {
        left := left - 1;
      }
    }
    assert vAvail + [] == vAvail;
    ok := true;
  }

  lemma {:induction false} BeforeNothing(r: Option<MaskRead>)
    ensures Before([], r) == r
  {
    if r.Some? {
      assert [] + r.value.vAvail == r.value.vAvail;
    }
  }

  lemma {:induction false} BeforeBefore(a: seq<bool>, b: seq<bool>, r: Option<MaskRead>)
    ensures Before(a, Before(b, r)) == Before(a + b, r)
  {
    if r.Some? {
      ConcatAssociative(a, b, r.value.vAvail);
    }
  }

  function Prepend(vout: seq<TxOut>, r: Option<OutputsRead>): Option<OutputsRead> {
    match r
    case None => None
    case Some(m) => Some(OutputsRead(vout + m.vout, m.rest))
  }

  lemma {:induction false} PrependNothing(r: Option<OutputsRead>)
    ensures Prepend([], r) == r
  {
    if r.Some? {
      assert [] + r.value.vout == r.value.vout;
    }
  }

  lemma {:induction false} PrependAfter(vout: seq<TxOut>, o: TxOut, r: Option<OutputsRead>)
    ensures Prepend(vout, After(o, r)) == Prepend(vout + [o], r)
  {
    if r.Some? {
      ConcatAssociative(vout, [o], r.value.vout);
    }
  }

  /** Fills in the outputs that are there. */
  method ReadOutputList(s: seq<Token>, vAvail: seq<bool>) returns (ok: bool, vout: seq<TxOut>, rest: seq<Token>)
    ensures ReadOutputs(s, vAvail) == if ok then Some(OutputsRead(vout, rest)) else None
  {
    vout, rest := seq(|vAvail|, _ => NULL_OUT), s;
    PrependNothing(ReadOutputs(s, vAvail));
    assert vAvail[0..] == vAvail && vout[..0] == [];
    for i := 0 to |vAvail|
      invariant |vout| == |vAvail| && forall j :: i <= j < |vout| ==> vout[j] == NULL_OUT
      invariant Prepend(vout[..i], ReadOutputs(rest, vAvail[i..])) == ReadOutputs(s, vAvail)
    {
      ghost var before := vout[..i];
      assert vAvail[i..][1..] == vAvail[i + 1..];
      if vAvail[i] {
        if rest == [] || !rest[0].Output? {
          return false, vout, rest;
        }
        var nAmount := DecompressAmount(rest[0].nAmount % WORD);
        var o := TxOut(nAmount, rest[0].scriptPubKey);
        PrependAfter(before, o, ReadOutputs(rest[1..], vAvail[i + 1..]));
        vout := vout[i := o];
        rest := rest[1..];
      } else {
        PrependAfter(before, NULL_OUT, ReadOutputs(rest, vAvail[i + 1..]));
      }
      assert vout[..i + 1] == before + [vout[i]];
    }
    assert vout[..|vout|] + [] == vout;
    ok := true;
  }

  method Unserialize(s: seq<Token>) returns (r: Option<CoinsRead>)
    ensures r == Unserialized(s)
  {
    if |s| < 2 {
      return None;
    }
    var nVersion := ReadNumber(s[0]);
    var code := ReadNumber(s[1]);
    if nVersion == None || code == None {
      return None;
    }
    var nCode := code.value;
    LowBits(nCode);
    var fCoinBase := nCode % 2 == 1;
    var vAvail := [nCode / 2 % 2 == 1, nCode / 4 % 2 == 1];
    var nMaskCode := nCode / 8 + if vAvail[0] || vAvail[1] then 0 else 1;
    var ok, bits, rest := ReadMaskBytes(s[2..], nMaskCode);
    if !ok {
      return None;
    }
    var vout;
    ok, vout, rest := ReadOutputList(rest, vAvail + bits);
    if !ok || rest == [] {
      return None;
    }
    var nHeight := ReadNumber(rest[0]);
    if nHeight == None {
      return None;
    }
    var cleaned := Cleanup(vout);
    r := Some(CoinsRead(Coins(fCoinBase, cleaned, nHeight.value, nVersion.value), rest[1..]));
  }

  // ---- what is written is read back ----

  function MaskAvail(vout: seq<TxOut>, lo: nat, hi: nat): (r: seq<bool>)
    requires lo <= hi
    ensures |r| == 8 * (hi - lo)
    ensures forall k :: 0 <= k < |r| ==> r[k] == Avail(vout, 2 + 8 * lo + k)
  {
    seq(8 * (hi - lo), k requires 0 <= k => Avail(vout, 2 + 8 * lo + k))
  }

  lemma {:induction false} EightAvail(vout: seq<TxOut>, b: nat)
    ensures forall p :: 0 <= p < 8 ==> Eight(MaskByte(vout, b))[p] == Avail(vout, 2 + 8 * b + p)
  {
    forall p | 0 <= p < 8 ensures Eight(MaskByte(vout, b))[p] == Avail(vout, 2 + 8 * b + p) {
      MaskBitsOf(vout, b, BitsUsed(vout, b), p);
    }
  }

  lemma {:induction false} MaskAvailStep(vout: seq<TxOut>, lo: nat, hi: nat)
    requires lo < hi
    ensures MaskAvail(vout, lo, hi) == Eight(MaskByte(vout, lo)) + MaskAvail(vout, lo + 1, hi)
  {
    EightAvail(vout, lo);
    var r, first, more := MaskAvail(vout, lo, hi), Eight(MaskByte(vout, lo)), MaskAvail(vout, lo + 1, hi);
    forall k | 0 <= k < |r| ensures r[k] == (first + more)[k] {
      assert k < 8 || more[k - 8] == Avail(vout, 2 + 8 * (lo + 1) + (k - 8));
    }
  }

  lemma {:induction false} NonZeroMonotone(vout: seq<TxOut>, a: nat, b: nat)
    requires a <= b
    ensures NonZero(vout, a) <= NonZero(vout, b)
    decreases b
  {
    if a < b {
      NonZeroMonotone(vout, a, b - 1);
    }
  }

  lemma {:induction false} ReadMaskStep(b: bv8, tail: seq<Token>, rest: seq<Token>, nMaskCode: nat, vAvail: seq<bool>)
    requires nMaskCode > 0
    requires ReadMask(tail + rest, if b != 0 then nMaskCode - 1 else nMaskCode) == Some(MaskRead(vAvail, rest))
    ensures ReadMask([Mask(b)] + tail + rest, nMaskCode) == Some(MaskRead(Eight(b) + vAvail, rest))
  {
    ConcatAssociative([Mask(b)], tail, rest);
    assert ([Mask(b)] + (tail + rest))[1..] == tail + rest;
  }

  /** The count of bytes that are not zero says exactly where the bitmask ends, for its last byte is
      not zero. */
  lemma {:induction false} MaskRoundTrip(vout: seq<TxOut>, lo: nat, hi: nat, rest: seq<Token>)
    requires lo <= hi && (hi > 0 ==> MaskByte(vout, hi - 1) != 0)
    ensures NonZero(vout, lo) <= NonZero(vout, hi)
    ensures ReadMask(MaskTokens(vout, lo, hi) + rest, NonZero(vout, hi) - NonZero(vout, lo))
            == Some(MaskRead(MaskAvail(vout, lo, hi), rest))
    decreases hi - lo
  {
    if lo == hi {
      assert MaskTokens(vout, lo, hi) + rest == rest && MaskAvail(vout, lo, hi) == [];
    } else {
      NonZeroMonotone(vout, lo, hi - 1);
      assert NonZero(vout, lo) < NonZero(vout, hi);
      MaskRoundTrip(vout, lo + 1, hi, rest);
      MaskByteRead(vout, lo, hi, rest);
    }
  }

  lemma {:induction false} MaskByteRead(vout: seq<TxOut>, lo: nat, hi: nat, rest: seq<Token>)
    requires lo < hi && NonZero(vout, lo) < NonZero(vout, hi) && NonZero(vout, lo + 1) <= NonZero(vout, hi)
    requires ReadMask(MaskTokens(vout, lo + 1, hi) + rest, NonZero(vout, hi) - NonZero(vout, lo + 1))
             == Some(MaskRead(MaskAvail(vout, lo + 1, hi), rest))
    ensures ReadMask(MaskTokens(vout, lo, hi) + rest, NonZero(vout, hi) - NonZero(vout, lo))
            == Some(MaskRead(MaskAvail(vout, lo, hi), rest))
  {
    MaskAvailStep(vout, lo, hi);
    ReadMaskStep(MaskByte(vout, lo), MaskTokens(vout, lo + 1, hi), rest, NonZero(vout, hi) - NonZero(vout, lo),
                 MaskAvail(vout, lo + 1, hi));
  }

  /** Outputs with null outputs after them. */
  function PadTo(vout: seq<TxOut>, n: nat): (r: seq<TxOut>)
    requires |vout| <= n
    ensures |r| == n && forall i :: 0 <= i < n ==> r[i] == if i < |vout| then vout[i] else NULL_OUT
  {
    vout + seq(n - |vout|, _ => NULL_OUT)
  }

  lemma {:induction false} NoOutputs(s: seq<Token>, n: nat)
    ensures ReadOutputs(s, seq(n, _ => false)) == Some(OutputsRead(PadTo([], n), s))
  {
    var vAvail := seq(n, _ => false);
    if n > 0 {
      NoOutputs(s, n - 1);
      assert vAvail[1..] == seq(n - 1, _ => false);
      assert PadTo([], n) == [NULL_OUT] + PadTo([], n - 1);
    }
  }

  lemma {:induction false} OutputsRoundTrip(vout: seq<TxOut>, i: nat, vAvail: seq<bool>, rest: seq<Token>)
    requires InRange(vout) && i <= |vout| <= i + |vAvail|
    requires forall j :: 0 <= j < |vAvail| ==> vAvail[j] == Avail(vout, i + j)
    ensures ReadOutputs(OutputTokens(vout, i) + rest, vAvail) == Some(OutputsRead(PadTo(vout[i..], |vAvail|), rest))
    decreases |vout| - i
  {
    if i == |vout| {
      assert vAvail == seq(|vAvail|, _ => false) && [] + rest == rest;
      NoOutputs(rest, |vAvail|);
    } else {
      OutputsRoundTrip(vout, i + 1, vAvail[1..], rest);
      assert PadTo(vout[i..], |vAvail|) == [vout[i]] + PadTo(vout[i + 1..], |vAvail| - 1);
      assert vout[i] in vout;
      OutputsStep(vout, i, vAvail, rest);
    }
  }

  /** The first of the outputs from i on is read back. */
  lemma {:induction false} OutputsStep(vout: seq<TxOut>, i: nat, vAvail: seq<bool>, rest: seq<Token>)
    requires InRange(vout) && i < |vout| && vAvail != [] && vAvail[0] == Avail(vout, i)
    ensures ReadOutputs(OutputTokens(vout, i) + rest, vAvail)
            == After(vout[i], ReadOutputs(OutputTokens(vout, i + 1) + rest, vAvail[1..]))
  {
    assert vout[i] in vout;
    var more := OutputTokens(vout, i + 1) + rest;
    if Avail(vout, i) {
      var o := Output(Compressed(vout[i].nValue), vout[i].scriptPubKey);
      AmountRoundTrip(vout[i].nValue);
      ConcatAssociative([o], OutputTokens(vout, i + 1), rest);
      assert ([o] + more)[1..] == more;
    } else {
      assert [] + OutputTokens(vout, i + 1) == OutputTokens(vout, i + 1);
    }
  }

  lemma {:induction false} CodeBits(q: nat, coinbase: bool, first: bool, second: bool)
    ensures var nCode := 8 * q + (if coinbase then 1 else 0) + (if first then 2 else 0) + if second then 4 else 0;
      Bit(nCode, 0) == coinbase && Bit(nCode, 1) == first && Bit(nCode, 2) == second && nCode / 8 == q
  {
    var high := 2 * q + if second then 1 else 0;
    var middle := 2 * high + if first then 1 else 0;
    LowBit(q, second);
    LowBit(high, first);
    LowBit(middle, coinbase);
    assert Bit(2 * middle + if coinbase then 1 else 0, 2) == Bit(middle, 1) == Bit(high, 0);
  }

  lemma {:induction false} HeaderBits(c: Coins)
    requires c.Wf()
    ensures HeaderCode(c) >= 0
    ensures Bit(HeaderCode(c), 0) == c.fCoinBase
    ensures Bit(HeaderCode(c), 1) == Avail(c.vout, 0) && Bit(HeaderCode(c), 2) == Avail(c.vout, 1)
    ensures HeaderCode(c) / 8 + (if Avail(c.vout, 0) || Avail(c.vout, 1) then 0 else 1) == MaskCode(c.vout)
  {
    SomethingLeft(c);
    var first, second := Avail(c.vout, 0), Avail(c.vout, 1);
    CodeBits(MaskCode(c.vout) - if first || second then 0 else 1, c.fCoinBase, first, second);
  }

  /** The bits that are read of the outputs of a record, at least one for each. */
  function AllAvail(vout: seq<TxOut>): (r: seq<bool>)
    ensures |r| == 2 + 8 * MaskSize(vout)
    ensures forall j :: 0 <= j < |r| ==> r[j] == Avail(vout, j)
  {
    var r := [Avail(vout, 0), Avail(vout, 1)] + MaskAvail(vout, 0, MaskSize(vout));
    assert forall j :: 2 <= j < |r| ==> r[j] == MaskAvail(vout, 0, MaskSize(vout))[j - 2];
    r
  }

  lemma {:induction false} PaddedCleaned(c: Coins)
    requires c.Wf()
    ensures |c.vout| <= 2 + 8 * MaskSize(c.vout) && Cleaned(PadTo(c.vout, 2 + 8 * MaskSize(c.vout))) == c.vout
  {
    if |c.vout| > 2 {
      LastByteUsed(c);
    }
    CleanedUnique(PadTo(c.vout, 2 + 8 * MaskSize(c.vout)), c.vout);
  }

  lemma {:induction false} MaskReadBack(c: Coins, rest: seq<Token>)
    requires c.Wf()
    ensures ReadMask(MaskTokens(c.vout, 0, MaskSize(c.vout)) + rest, MaskCode(c.vout))
            == Some(MaskRead(MaskAvail(c.vout, 0, MaskSize(c.vout)), rest))
  {
    if |c.vout| > 2 {
      LastByteUsed(c);
    }
    MaskRoundTrip(c.vout, 0, MaskSize(c.vout), rest);
  }

  lemma {:induction false} OutputsReadBack(c: Coins, rest: seq<Token>)
    requires c.Wf() && |c.vout| <= 2 + 8 * MaskSize(c.vout)
    ensures ReadOutputs(OutputTokens(c.vout, 0) + rest, AllAvail(c.vout)) == Some(OutputsRead(PadTo(c.vout, |AllAvail(c.vout)|), rest))
  {
    var vout := c.vout;
    assert vout[0..] == vout;
    OutputsRoundTrip(vout, 0, AllAvail(vout), rest);
  }

  lemma {:induction false} Layout(version: Token, code: Token, mask: seq<Token>, outputs: seq<Token>, height: Token, rest: seq<Token>)
    ensures var s := [version, code] + mask + outputs + [height] + rest;
      && |s| >= 2 && s[0] == version && s[1] == code
      && s[2..] == mask + (outputs + ([height] + rest)) && ([height] + rest)[1..] == rest
  {
    var s := [version, code] + mask + outputs + [height] + rest;
    assert s == [version, code] + (mask + (outputs + ([height] + rest)));
  }

  lemma {:induction false} SameFlags(vout: seq<TxOut>, nCode: nat)
    requires Bit(nCode, 1) == Avail(vout, 0) && Bit(nCode, 2) == Avail(vout, 1)
    ensures [Bit(nCode, 1), Bit(nCode, 2)] + MaskAvail(vout, 0, MaskSize(vout)) == AllAvail(vout)
  {}

  lemma {:induction false} ReadParts(s: seq<Token>, nCode: nat, nMaskCode: nat, body: seq<Token>, m: MaskRead, vAvail: seq<bool>, o: OutputsRead,
                  nVersion: nat, nHeight: nat)
    requires |s| >= 2 && NumberOf(s[0]) == Some(nVersion) && NumberOf(s[1]) == Some(nCode) && s[2..] == body
    requires nMaskCode == nCode / 8 + if Bit(nCode, 1) || Bit(nCode, 2) then 0 else 1
    requires ReadMask(body, nMaskCode) == Some(m)
    requires vAvail == [Bit(nCode, 1), Bit(nCode, 2)] + m.vAvail && ReadOutputs(m.rest, vAvail) == Some(o)
    requires o.rest != [] && NumberOf(o.rest[0]) == Some(nHeight)
    ensures Unserialized(s) == Some(CoinsRead(Coins(Bit(nCode, 0), Cleaned(o.vout), nHeight, nVersion), o.rest[1..]))
  {}

  /** What is read back of a record with an output left, whatever follows it. */
  lemma {:induction false} ReadBack(c: Coins, rest: seq<Token>)
    requires c.Wf()
    ensures Unserialized(Serialized(c) + rest) == Some(CoinsRead(c.(nVersion := Kept(c.nVersion)), rest))
  {
    var vout, n, height := c.vout, MaskSize(c.vout), NumberToken(c.nHeight);
    var outputs, tail := OutputTokens(vout, 0), [height] + rest;
    Layout(NumberToken(c.nVersion), NumberToken(HeaderCode(c)), MaskTokens(vout, 0, n), outputs, height, rest);
    HeaderBits(c);
    NumberKept(c.nVersion);
    NumberKept(HeaderCode(c));
    NumberKept(c.nHeight);
    PaddedCleaned(c);
    MaskReadBack(c, outputs + tail);
    OutputsReadBack(c, tail);
    SameFlags(vout, HeaderCode(c));
    ReadParts(Serialized(c) + rest, HeaderCode(c), MaskCode(vout), MaskTokens(vout, 0, n) + (outputs + tail),
              MaskRead(MaskAvail(vout, 0, n), outputs + tail), AllAvail(vout), OutputsRead(PadTo(vout, |AllAvail(vout)|), tail),
              Kept(c.nVersion), c.nHeight);
  }

  /** A record with an output left is read back as it was written, if and only if its version is not
      negative. */
  lemma {:induction false} RoundTripIff(c: Coins, rest: seq<Token>)
    requires c.Wf()
    ensures Unserialized(Serialized(c) + rest) == Some(CoinsRead(c, rest)) <==> c.nVersion >= 0
  {
    ReadBack(c, rest);
    NumberKept(c.nVersion);
  }

  /** A version of -1 comes back as 127. */
  lemma {:induction false} NegativeVersionLost(c: Coins, rest: seq<Token>)
    requires c.Wf() && c.nVersion == -1
    ensures Unserialized(Serialized(c) + rest) == Some(CoinsRead(c.(nVersion := 127), rest))
  {
    var kept := Kept(c.nVersion);
    assert kept == 127;
    ReadBack(c, rest);
  }
}
