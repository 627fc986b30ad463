/**
 The compact form of amounts (CTxOutCompressor::CompressAmount and DecompressAmount in
 src/core.cpp), on unsigned 64-bit words that wrap around.
 */
module AmountCodec {
  import opened Core
  import opened Numbers

  const WORD: nat := 0x1_0000_0000_0000_0000

  /** A number without its trailing zeros, of which at most nine are counted. */
  function Stripped(n: nat, e: nat): (r: (nat, nat))
    requires n > 0 && e <= 9
    ensures r.0 > 0 && e <= r.1 <= 9 && (r.1 == 9 || r.0 % 10 != 0)
    ensures r.0 * Pow10(r.1 - e) == n
    decreases 9 - e
  {
    if n % 10 == 0 && e < 9 then Stripped(n / 10, e + 1) else (n, e)
  }

  function Pow10(e: nat): nat {
    if e == 0 then 1 else 10 * Pow10(e - 1)
  }

  function Compressed(n: nat): nat {
    if n == 0 then 0
    else
      var (m, e) := Stripped(n, 0);
      if e < 9 then 1 + ((m / 10) * 9 + m % 10 - 1) * 10 + e else 1 + (m - 1) * 10 + 9
  }

  function Decompressed(x: nat): nat {
    if x == 0 then 0
    else
      var e, y := (x - 1) % 10, (x - 1) / 10;
      (if e < 9 then (y / 9) * 10 + y % 9 + 1 else y + 1) * Pow10(e)
  }

  /** The exponent and the rest of the number can be read off a compressed amount. */
  lemma {:induction false} CompressDecompress(n: nat)
    ensures Decompressed(Compressed(n)) == n
  {
    if n > 0 {
      var (m, e) := Stripped(n, 0);
      if e < 9 {
        var y := (m / 10) * 9 + m % 10 - 1;
        assert (Compressed(n) - 1) % 10 == e && (Compressed(n) - 1) / 10 == y;
        assert y / 9 == m / 10 && y % 9 == m % 10 - 1;
      } else {
        assert (Compressed(n) - 1) % 10 == 9 && (Compressed(n) - 1) / 10 == m - 1;
      }
    }
  }

  /** A number that does not end in zero, or is shifted by nine zeros, is found again. */
  lemma {:induction false} StrippedShifted(m: nat, e: nat, f: nat)
    requires m > 0 && e + f <= 9 && (e + f == 9 || m % 10 != 0)
    ensures m * Pow10(f) > 0 && Stripped(m * Pow10(f), e) == (m, e + f)
    decreases f
  {
    if f > 0 {
      var rest := m * Pow10(f - 1);
      StrippedShifted(m, e + 1, f - 1);
      assert m * Pow10(f) == 10 * rest by {
        Associate(m, 10, Pow10(f - 1));
        Associate(10, m, Pow10(f - 1));
      }
      StrippedTens(rest, e);
    }
  }

  lemma {:induction false} StrippedTens(rest: nat, e: nat)
    requires rest > 0 && e < 9
    ensures Stripped(10 * rest, e) == Stripped(rest, e + 1)
  {
    assert (10 * rest) % 10 == 0 && (10 * rest) / 10 == rest;
  }

  /** The digit after the nines is never 0 after the tens. */
  lemma {:induction false} TenForNine(y: nat)
    ensures var m := (y / 9) * 10 + y % 9 + 1;
      m % 10 == y % 9 + 1 && m / 10 == y / 9 && (m / 10) * 9 + m % 10 - 1 == y
  {}

  lemma {:induction false} DecompressCompress(x: nat)
    ensures Compressed(Decompressed(x)) == x
  {
    if x > 0 {
      var e, y := (x - 1) % 10, (x - 1) / 10;
      var m := if e < 9 then (y / 9) * 10 + y % 9 + 1 else y + 1;
      TenForNine(y);
      StrippedShifted(m, 0, e);
      assert x == 1 + 10 * y + e;
    }
  }

  /** Amounts up to all the money there is fit, so that nothing wraps around. */
  lemma {:induction false} CompressedFits(n: nat)
    requires n <= MAX_MONEY
    ensures Compressed(n) <= 9 * n + 10 < WORD
  {
    if n > 0 {
      var (m, e) := Stripped(n, 0);
      Pow10Positive(e);
      assert m <= n;
      assert m * 1 <= m * Pow10(e);
    }
  }

  lemma {:induction false} Pow10Positive(e: nat)
    ensures Pow10(e) >= 1 && Pow10(e) >= e + 1
  {
    if e > 0 {
      Pow10Positive(e - 1);
    }
  }

  lemma {:induction false} TenTimes(n: nat, e: nat)
    requires e > 0
    ensures n * Pow10(e) == (n * 10) * Pow10(e - 1)
  {
    Associate(n, 10, Pow10(e - 1));
  }

  lemma {:induction false} Unwrapped(n: nat)
    requires n < WORD
    ensures n % WORD == n
  {}

  method CompressAmount(n: nat) returns (r: nat)
    requires n < WORD
    ensures r == Compressed(n) % WORD
  {
    if n == 0 {
      return 0;
    }
    var m, e := n, 0;
    while m % 10 == 0 && e < 9
      invariant m > 0 && 0 <= e <= 9 && Stripped(m, e) == Stripped(n, 0)
      decreases 9 - e
    {
      m := m / 10;
      e := e + 1;
    }
    if e < 9 {
      var d := m % 10;
      assert 1 <= d <= 9;
      m := m / 10;
      return (1 + (m * 9 + d - 1) * 10 + e) % WORD;
    } else {
      return (1 + (m - 1) * 10 + 9) % WORD;
    }
  }

  method DecompressAmount(x: nat) returns (r: nat)
    requires x < WORD
    ensures r == Decompressed(x) % WORD
  {
    if x == 0 {
      return 0;
    }
    var y: nat := x - 1;
    var e: nat := y % 10;
    y := y / 10;
    var n: nat;
    if e < 9 {
      var d := y % 9 + 1;
      y := y / 9;
      n := y * 10 + d;
    } else {
      n := y + 1;
    }
    ghost var whole := n * Pow10(e);
    while e != 0
      invariant 0 <= e && n * Pow10(e) == whole
      decreases e
    {
      TenTimes(n, e);
      n := n * 10;
      e := e - 1;
    }
    r := n % WORD;
  }

  /** An amount in range survives on 64-bit words. */
  lemma {:induction false} AmountRoundTrip(n: nat)
    requires n <= MAX_MONEY
    ensures Compressed(n) % WORD == Compressed(n) && Decompressed(Compressed(n) % WORD) % WORD == n
  {
    CompressedFits(n);
    Unwrapped(Compressed(n));
    CompressDecompress(n);
    Unwrapped(n);
  }
}
