/**
 Base58 (EncodeBase58 and DecodeBase58 in src/base58.cpp): numbers converted in place between
 buffers of digits of fixed sizes.
 */
module Base58 {
  import opened Core
  import opened Numbers

  // ---- powers ----

  function Pow(b: nat, e: nat): (r: nat)
    ensures b > 0 ==> r > 0
  {
    if e == 0 then 1 else
      MulPositive(b, Pow(b, e - 1));
      b * Pow(b, e - 1)
  }

  lemma {:induction false} MulPositive(a: nat, b: nat)
    ensures a > 0 && b > 0 ==> a * b > 0
  {}

  lemma {:induction false} PowAdd(b: nat, m: nat, n: nat)
    ensures Pow(b, m + n) == Pow(b, m) * Pow(b, n)
  {
    if m > 0 {
      PowAdd(b, m - 1, n);
      Associate(b, Pow(b, m - 1), Pow(b, n));
    }
  }

  lemma {:induction false} PowTimes(b: nat, m: nat, n: nat)
    ensures Pow(b, m * n) == Pow(Pow(b, m), n)
  {
    if n > 0 {
      PowTimes(b, m, n - 1);
      assert m * n == m + m * (n - 1);
      PowAdd(b, m, m * (n - 1));
    } else {
      assert m * n == 0;
    }
  }

  lemma {:induction false} PowMonotone(a: nat, b: nat, e: nat)
    requires a <= b
    ensures Pow(a, e) <= Pow(b, e)
  {
    if e > 0 {
      PowMonotone(a, b, e - 1);
      MulMonotone(a, Pow(a, e - 1), b, Pow(b, e - 1));
    }
  }

  lemma {:induction false} MulMonotone(a: nat, x: nat, b: nat, y: nat)
    requires a <= b && x <= y
    ensures a * x <= b * y
  {
    assert a * x <= b * x && b * x <= b * y;
  }

  /** Taking powers keeps a strict order. */
  lemma {:induction false} PowStrict(a: nat, b: nat, e: nat)
    requires a < b && e > 0
    ensures Pow(a, e) < Pow(b, e)
  {
    PowMonotone(a, b, e - 1);
    MulMonotone(a, Pow(a, e - 1), a, Pow(b, e - 1));
    MulStrict(a, b, Pow(b, e - 1));
  }

  lemma {:induction false} MulStrict(a: nat, b: nat, y: nat)
    requires a < b && y > 0
    ensures a * y < b * y
  {
    MulPositive(b - a, y);
    assert b * y == a * y + (b - a) * y;
  }

  lemma {:induction false} PowGrows(b: nat, m: nat, n: nat)
    requires b > 0 && m <= n
    ensures Pow(b, m) <= Pow(b, n)
    decreases n
  {
    if m < n {
      PowGrows(b, m, n - 1);
      assert Pow(b, n - 1) * 1 <= Pow(b, n - 1) * b;
    }
  }

  // ---- the sizes of the buffers ----

  /** Eight bytes fit into eleven digits of base 58. */
  lemma {:induction false} EightBytes()
    ensures Pow(256, 8) <= Pow(58, 11)
  {}

  /** 71 digits of base 58 fit into 52 bytes. */
  lemma {:induction false} SeventyOneDigits()
    ensures Pow(58, 71) <= Pow(256, 52)
  {
    var m, n, k := 18, 17, 13;
    Powers58(m, n);
    Powers256(k);
    Four(58, m, n);
    Four(256, k, k);
  }

  lemma {:induction false} Powers58(m: nat, n: nat)
    requires m == 18 && n == 17
    ensures Pow(58, m) == 55170114352623680311867516125184 && Pow(58, n) == 951208868148684143308060622848
  {
    assert Pow(58, 9) == 7427658739644928;
    assert Pow(58, 17) == 951208868148684143308060622848;
  }

  lemma {:induction false} Powers256(k: nat)
    requires k == 13
    ensures Pow(256, k) == 20282409603651670423947251286016
  {
    assert Pow(256, 7) == 72057594037927936;
  }

  lemma {:induction false} Four(b: nat, m: nat, n: nat)
    ensures Pow(b, 3 * m + n) == Pow(b, m) * Pow(b, m) * Pow(b, m) * Pow(b, n)
  {
    PowAdd(b, m, 2 * m + n);
    PowAdd(b, m, m + n);
    PowAdd(b, m, n);
    var x, y := Pow(b, m), Pow(b, n);
    Associate(x, x, x * y);
    Associate(x * x, x, y);
  }

  lemma {:induction false} PowSwap(a: nat, m: nat, q: nat)
    ensures Pow(Pow(a, m), q) == Pow(Pow(a, q), m)
  {
    PowTimes(a, m, q);
    PowTimes(a, q, m);
    assert m * q == q * m;
  }

  lemma {:induction false} RootMonotone(x: nat, y: nat, q: nat)
    requires q > 0 && Pow(x, q) <= Pow(y, q)
    ensures x <= y
  {
    if x > y {
      PowStrict(y, x, q);
    }
  }

  lemma {:induction false} RaisedProportion(a: nat, q: nat, b: nat, p: nat, m: nat, pm: nat, qs: nat)
    requires Pow(a, q) <= Pow(b, p) && b > 0 && pm == p * m && pm <= qs
    ensures Pow(Pow(a, q), m) <= Pow(b, qs)
  {
    PowMonotone(Pow(a, q), Pow(b, p), m);
    PowTimes(b, p, m);
    PowGrows(b, pm, qs);
  }

  /** If q digits of one base fit into p of another, so do any number m of them into s at least as
      many in proportion. */
  lemma {:induction false} Proportion(a: nat, q: nat, b: nat, p: nat, m: nat, s: nat)
    requires Pow(a, q) <= Pow(b, p) && b > 0 && q > 0 && p * m <= q * s
    ensures Pow(a, m) <= Pow(b, s)
  {
    RaisedProportion(a, q, b, p, m, p * m, q * s);
    PowSwap(a, m, q);
    PowTimes(b, q, s);
    PowSwap(b, q, s);
    RootMonotone(Pow(a, m), Pow(b, s), q);
  }

  /** The buffer that EncodeBase58 allocates for n bytes is large enough. */
  lemma {:induction false} EncodeFits(n: nat)
    ensures Pow(256, n) <= Pow(58, n * 138 / 100 + 1)
  {
    EightBytes();
    Proportion(256, 8, 58, 11, n, n * 138 / 100 + 1);
  }

  /** The buffer that DecodeBase58 allocates for n digits is large enough. */
  lemma {:induction false} DecodeFits(n: nat)
    ensures Pow(58, n) <= Pow(256, n * 733 / 1000 + 1)
  {
    SeventyOneDigits();
    Proportion(58, 71, 256, 52, n, n * 733 / 1000 + 1);
  }

  // ---- numbers as digits, the first one the most significant ----

  function Value(d: seq<nat>, base: nat): nat {
    if d == [] then 0 else Value(d[..|d| - 1], base) * base + d[|d| - 1]
  }

  predicate Digits(d: seq<nat>, base: nat) {
    forall i :: 0 <= i < |d| ==> d[i] < base
  }

  lemma {:induction false} ValueBound(d: seq<nat>, base: nat)
    requires Digits(d, base)
    ensures Value(d, base) < Pow(base, |d|)
  {
    if d != [] {
      ValueBound(d[..|d| - 1], base);
      RoomForDigit(Value(d[..|d| - 1], base), Pow(base, |d| - 1), base, d[|d| - 1]);
    }
  }

  lemma {:induction false} RoomForDigit(v: nat, p: nat, base: nat, digit: nat)
    requires v < p && digit < base
    ensures v * base + digit < base * p
  {
    MulMonotone(v + 1, base, p, base);
    assert (v + 1) * base == v * base + base;
  }

  /** The first digit counts most. */
  lemma {:induction false} ValueCons(x: nat, d: seq<nat>, base: nat)
    ensures Value([x] + d, base) == x * Pow(base, |d|) + Value(d, base)
  {
    var s := [x] + d;
    if d == [] {
      assert s[..|s| - 1] == [];
    } else {
      var front, last := d[..|d| - 1], d[|d| - 1];
      assert s[..|s| - 1] == [x] + front;
      ValueCons(x, front, base);
      Shift(x, Pow(base, |front|), Value(front, base), base, last);
    }
  }

  lemma {:induction false} Shift(x: nat, p: nat, v: nat, base: nat, last: nat)
    ensures (x * p + v) * base + last == x * (base * p) + (v * base + last)
  {
    Associate(x, p, base);
    assert (x * p + v) * base == (x * p) * base + v * base;
    assert p * base == base * p;
  }

  function Zeros(d: seq<nat>): (n: nat)
    ensures n <= |d| && (forall i :: 0 <= i < n ==> d[i] == 0) && (n < |d| ==> d[n] != 0)
  {
    if d == [] || d[0] != 0 then 0 else 1 + Zeros(d[1..])
  }

  /** Zeros at the front add nothing. */
  lemma {:induction false} ValueZeros(d: seq<nat>, base: nat, k: nat)
    requires k <= |d| && forall i :: 0 <= i < k ==> d[i] == 0
    ensures Value(d, base) == Value(d[k..], base)
    decreases k
  {
    if k > 0 {
      assert d == [0] + d[1..];
      ValueCons(0, d[1..], base);
      ValueZeros(d[1..], base, k - 1);
      assert d[1..][k - 1..] == d[k..];
    } else {
      assert d[0..] == d;
    }
  }

  /** Digits of the same number, with no zero at the front, are the same. */
  lemma {:induction false} ValueUnique(a: seq<nat>, b: seq<nat>, base: nat)
    requires base > 1 && Digits(a, base) && Digits(b, base) && Value(a, base) == Value(b, base)
    requires (a != [] ==> a[0] != 0) && (b != [] ==> b[0] != 0)
    ensures a == b
    decreases |a|
  {
    if a == [] || b == [] {
      NotZero(a, base);
      NotZero(b, base);
    } else {
      var p, q := a[..|a| - 1], b[..|b| - 1];
      SameFront(a, b, base);
      ValueUnique(p, q, base);
      assert a == p + [a[|a| - 1]] && b == q + [b[|b| - 1]];
    }
  }

  lemma {:induction false} SameFront(a: seq<nat>, b: seq<nat>, base: nat)
    requires Digits(a, base) && Digits(b, base) && Value(a, base) == Value(b, base) && a != [] && b != []
    ensures Value(a[..|a| - 1], base) == Value(b[..|b| - 1], base) && a[|a| - 1] == b[|b| - 1]
  {
    SameLast(Value(a[..|a| - 1], base), a[|a| - 1], Value(b[..|b| - 1], base), b[|b| - 1], base);
  }

  lemma {:induction false} NotZero(d: seq<nat>, base: nat)
    requires base > 1 && (d != [] ==> d[0] != 0)
    ensures Value(d, base) == 0 <==> d == []
    decreases |d|
  {
    if |d| > 1 {
      NotZero(d[..|d| - 1], base);
      MulPositive(Value(d[..|d| - 1], base), base);
    }
  }

  lemma {:induction false} SameLast(v: nat, x: nat, w: nat, y: nat, base: nat)
    requires x < base && y < base && v * base + x == w * base + y
    ensures v == w && x == y
  {
    assert (v + 1) * base == v * base + base && (w + 1) * base == w * base + base;
    if v < w {
      MulMonotone(v + 1, base, w, base);
    } else if w < v {
      MulMonotone(w + 1, base, v, base);
    }
  }

  // ---- the same bytes in another base ----

  /** Digits in two bases that stand for each other: as many zeros at the front, and the same
      number after them. */
  predicate Same(a: seq<nat>, baseA: nat, b: seq<nat>, baseB: nat) {
    Zeros(a) == Zeros(b) && Value(a, baseA) == Value(b, baseB)
  }

  /** Only one sequence of digits stands for another. */
  lemma {:induction false} SameUnique(a: seq<nat>, b: seq<nat>, base: nat)
    requires base > 1 && Digits(a, base) && Digits(b, base) && Same(a, base, b, base)
    ensures a == b
  {
    var n := Zeros(a);
    ValueZeros(a, base, n);
    ValueZeros(b, base, n);
    ValueUnique(a[n..], b[n..], base);
    assert a == a[..n] + a[n..] && b == b[..n] + b[n..];
    assert a[..n] == b[..n];
  }

  // ---- in place ----

  /** One digit of the loop over a buffer: x is what stays and y what is carried. */
  lemma {:induction false} CarryStep(d: nat, p: nat, q: nat, v: nat, v': nat, carry: nat, mul: nat, ch: nat, base: nat, x: nat, y: nat)
    requires q == base * p && carry + mul * d == y * base + x && v' + carry * p == v * mul + ch
    ensures (x * p + v') + y * q == (d * p + v) * mul + ch
  {
    Associate(y, base, p);
    Distribute(y * base, x, p);
    Distribute(carry, mul * d, p);
    Associate(mul, d, p);
    Distribute(d * p, v, mul);
    Commute(mul, d * p);
  }

  lemma {:induction false} Distribute(a: int, b: int, c: int)
    ensures (a + b) * c == a * c + b * c
  {}

  lemma {:induction false} Commute(a: int, b: int)
    ensures a * b == b * a
  {}

  lemma {:induction false} CarryBound(carry: nat, mul: nat, d: nat, base: nat, x: nat, y: nat)
    requires carry < mul && d < base && carry + mul * d == y * base + x
    ensures y < mul
  {
    MulMonotone(mul, d + 1, mul, base);
    assert mul * (d + 1) == mul * d + mul;
    if y >= mul {
      MulMonotone(mul, base, y, base);
    }
  }

  /** Quotient and remainder. */
  method DivMod(t: nat, base: nat) returns (y: nat, x: nat)
    requires base > 0
    ensures t == y * base + x && x < base
  {
    y, x := t / base, t % base;
  }

  /** One digit more of the end of a buffer is done. */
  lemma {:induction false} TailStep(tail0: seq<nat>, tail: seq<nat>, d: nat, carry: nat, mul: nat, ch: nat, base: nat, x: nat, y: nat)
    requires |tail| == |tail0| && carry + mul * d == y * base + x
    requires Value(tail, base) + carry * Pow(base, |tail|) == Value(tail0, base) * mul + ch
    ensures Value([x] + tail, base) + y * Pow(base, |tail| + 1) == Value([d] + tail0, base) * mul + ch
  {
    var p, q, v, v' := Pow(base, |tail|), Pow(base, |tail| + 1), Value(tail0, base), Value(tail, base);
    CarryStep(d, p, q, v, v', carry, mul, ch, base, x, y);
    ValueCons(x, tail, base);
    assert Value([x] + tail, base) == x * p + v';
    ValueCons(d, tail0, base);
    assert Value([d] + tail0, base) == d * p + v;
  }

  /** Multiplies the number in a buffer and adds to it, from the last digit on. */
  method MulAdd(digits: array<nat>, base: nat, mul: nat, ch: nat) returns (carry: nat)
    requires base > 1 && ch < mul && Digits(digits[..], base)
    modifies digits
    ensures Digits(digits[..], base)
    ensures Value(digits[..], base) + carry * Pow(base, digits.Length) == Value(old(digits[..]), base) * mul + ch
  {
    carry := ch;
    ghost var before := digits[..];
    ghost var tail0, tail := [], [];
    var i := digits.Length;
    while i > 0
      invariant 0 <= i <= digits.Length && carry < mul
      invariant digits[..i] == before[..i] && digits[i..] == tail && before[i..] == tail0
      invariant |tail| == |tail0| == digits.Length - i && Digits(tail, base)
      invariant Value(tail, base) + carry * Pow(base, |tail|) == Value(tail0, base) * mul + ch
    {
      var d := digits[i - 1];
      assert d == digits[..i][i - 1] == before[i - 1];
      i := i - 1;
      var y, x := DivMod(carry + mul * d, base);
      CarryBound(carry, mul, d, base, x, y);
      TailStep(tail0, tail, d, carry, mul, ch, base, x, y);
      digits[i] := x;
      carry := y;
      tail0, tail := [d] + tail0, [x] + tail;
    }
    assert before[0..] == before && digits[0..] == digits[..];
  }

  // ---- characters ----

  const ALPHABET: string := "123456789" + "ABCDEFGH" + "JKLMN" + "PQRSTUVWXYZ" + "abcdefghijk" + "mnopqrstuvwxyz"

  /** The alphabet leaves out 0, I, O and l. */
  function CharOf(d: nat): char
    requires d < 58
  {
    if d < 9 then '1' + d as char
    else if d < 17 then 'A' + (d - 9) as char
    else if d < 22 then 'J' + (d - 17) as char
    else if d < 33 then 'P' + (d - 22) as char
    else if d < 44 then 'a' + (d - 33) as char
    else 'm' + (d - 44) as char
  }

  lemma {:induction false} AlphabetIs(d: nat)
    requires d < 58
    ensures |ALPHABET| == 58 && ALPHABET[d] == CharOf(d)
  {}

  /** The digit of a character, if it has one. */
  function DigitOf(c: char): (r: Option<nat>)
    ensures r.Some? ==> r.value < 58 && CharOf(r.value) == c
  {
    if '1' <= c <= '9' then Some(c as int - '1' as int)
    else if 'A' <= c <= 'H' then Some(c as int - 'A' as int + 9)
    else if 'J' <= c <= 'N' then Some(c as int - 'J' as int + 17)
    else if 'P' <= c <= 'Z' then Some(c as int - 'P' as int + 22)
    else if 'a' <= c <= 'k' then Some(c as int - 'a' as int + 33)
    else if 'm' <= c <= 'z' then Some(c as int - 'm' as int + 44)
    else None
  }

  lemma {:induction false} DigitOfChar(d: nat)
    requires d < 58
    ensures DigitOf(CharOf(d)) == Some(d) && !IsSpace(CharOf(d))
  {}

  /** strchr on the alphabet. */
  method FindChar(c: char) returns (r: Option<nat>)
    ensures r == DigitOf(c)
  {
    AlphabetIs(0);
    for i := 0 to 58
      invariant forall j :: 0 <= j < i ==> CharOf(j) != c
    {
      AlphabetIs(i);
      if ALPHABET[i] == c {
        DigitOfChar(i);
        return Some(i);
      }
    }
    return None;
  }

  predicate IsSpace(c: char) {
    c == ' ' || '\t' <= c <= '\r'
  }

  function Text(d: seq<nat>): (s: string)
    requires Digits(d, 58)
    ensures |s| == |d| && forall i :: 0 <= i < |s| ==> s[i] == CharOf(d[i])
  {
    seq(|d|, i requires 0 <= i < |d| => CharOf(d[i]))
  }

  /** The characters from place lo up to hi are all in the alphabet. */
  predicate AllDigits(s: string, lo: nat, hi: nat)
    requires lo <= hi <= |s|
  {
    forall i :: lo <= i < hi ==> DigitOf(s[i]).Some?
  }

  function DigitsOf(s: string, lo: nat, hi: nat): (d: seq<nat>)
    requires lo <= hi <= |s| && AllDigits(s, lo, hi)
    ensures |d| == hi - lo && Digits(d, 58)
    ensures forall i :: 0 <= i < |d| ==> CharOf(d[i]) == s[lo + i] && DigitOf(s[lo + i]) == Some(d[i])
  {
    seq(hi - lo, i requires 0 <= i < hi - lo => DigitOf(s[lo + i]).value)
  }

  /** The end of the spaces from place i on. */
  function SpacesEnd(s: string, i: nat): (e: nat)
    requires i <= |s|
    ensures i <= e <= |s| && (forall k :: i <= k < e ==> IsSpace(s[k])) && (e < |s| ==> !IsSpace(s[e]))
    decreases |s| - i
  {
    if i == |s| || !IsSpace(s[i]) then i else SpacesEnd(s, i + 1)
  }

  /** The end of the characters from place i on that are not spaces. */
  function WordEnd(s: string, i: nat): (e: nat)
    requires i <= |s|
    ensures i <= e <= |s| && (forall k :: i <= k < e ==> !IsSpace(s[k])) && (e < |s| ==> IsSpace(s[e]))
    decreases |s| - i
  {
    if i == |s| || IsSpace(s[i]) then i else WordEnd(s, i + 1)
  }

  /** The word of a text with spaces around it, as digits; nothing for any other text. */
  function Parsed(psz: string): Option<seq<nat>> {
    var lo := SpacesEnd(psz, 0);
    var hi := WordEnd(psz, lo);
    if AllDigits(psz, lo, hi) && SpacesEnd(psz, hi) == |psz| then Some(DigitsOf(psz, lo, hi)) else None
  }

  // ---- the conversions ----

  lemma {:induction false} ZerosOf(n: nat, d: seq<nat>)
    requires d != [] ==> d[0] != 0
    ensures Zeros(seq(n, _ => 0) + d) == n
  {
    var s := seq(n, _ => 0) + d;
    if n > 0 {
      ZerosOf(n - 1, d);
      assert s[1..] == seq(n - 1, _ => 0) + d;
    } else {
      assert s == d;
    }
  }

  lemma {:induction false} FitsNoCarry(v: nat, carry: nat, p: nat)
    requires v + carry * p < p
    ensures carry == 0
  {
    if carry > 0 {
      MulMonotone(1, p, carry, p);
    }
  }

  /** Appends a digit to the number in a buffer that is large enough: nothing is carried out. */
  method Push(buffer: array<nat>, to: nat, from: nat, digit: nat, ghost done: seq<nat>, ghost n: nat)
    requires to > 1 && digit < from && Digits(buffer[..], to) && Digits(done, from) && |done| < n
    requires Value(buffer[..], to) == Value(done, from) && Pow(from, n) <= Pow(to, buffer.Length)
    modifies buffer
    ensures Digits(buffer[..], to) && Value(buffer[..], to) == Value(done + [digit], from)
  {
    assert (done + [digit])[..|done|] == done;
    var carry := MulAdd(buffer, to, from, digit);
    ValueBound(done + [digit], from);
    PowGrows(from, |done| + 1, n);
    FitsNoCarry(Value(buffer[..], to), carry, Pow(to, buffer.Length));
    assert carry == 0;
  }

  lemma {:induction false} ZeroValue(n: nat, base: nat)
    ensures Value(seq(n, _ => 0), base) == 0
  {
    ValueZeros(seq(n, _ => 0), base, n);
  }

  /** The digits in a buffer without the zeros at its front. */
  method Trim(buffer: array<nat>, base: nat) returns (r: seq<nat>)
    requires Digits(buffer[..], base)
    ensures Digits(r, base) && Value(r, base) == Value(buffer[..], base) && (r != [] ==> r[0] != 0)
  {
    var it := 0;
    while it < buffer.Length && buffer[it] == 0
      invariant 0 <= it <= buffer.Length && forall i :: 0 <= i < it ==> buffer[i] == 0
    {
      it := it + 1;
    }
    ValueZeros(buffer[..], base, it);
    r := buffer[it..];
    assert r == buffer[..][it..];
  }

  /** Zeros before trimmed digits. */
  lemma {:induction false} WithZeros(zeroes: nat, d: seq<nat>, base: nat)
    requires d != [] ==> d[0] != 0
    ensures Zeros(seq(zeroes, _ => 0) + d) == zeroes && Value(seq(zeroes, _ => 0) + d, base) == Value(d, base)
  {
    var s := seq(zeroes, _ => 0) + d;
    ZerosOf(zeroes, d);
    assert s[zeroes..] == d;
    ValueZeros(s, base, zeroes);
  }

  /** Counts the zeros at the front. */
  method CountZeros(bytes: seq<nat>) returns (zeroes: nat, rest: seq<nat>)
    ensures bytes == seq(zeroes, _ => 0) + rest && (rest != [] ==> rest[0] != 0)
  {
    zeroes := 0;
    while zeroes < |bytes| && bytes[zeroes] == 0
      invariant zeroes <= |bytes| && forall i :: 0 <= i < zeroes ==> bytes[i] == 0
    {
      zeroes := zeroes + 1;
    }
    rest := bytes[zeroes..];
  }

  /** The conversion in EncodeBase58. */
  method ToBase58(bytes: seq<nat>) returns (r: seq<nat>)
    requires Digits(bytes, 256)
    ensures Digits(r, 58) && Value(r, 58) == Value(bytes, 256) && (r != [] ==> r[0] != 0)
  {
    EncodeFits(|bytes|);
    var b58 := NewBuffer(|bytes| * 138 / 100 + 1, 58);
    for i := 0 to |bytes|
      invariant Digits(b58[..], 58) && Value(b58[..], 58) == Value(bytes[..i], 256)
    {
      Push(b58, 58, 256, bytes[i], bytes[..i], |bytes|);
      assert bytes[..i + 1] == bytes[..i] + [bytes[i]];
    }
    assert bytes[..|bytes|] == bytes;
    r := Trim(b58, 58);
  }

  /** The text with these digits, which stand for these bytes. */
  predicate StandsFor(d: seq<nat>, s: string, bytes: seq<nat>) {
    Digits(d, 58) && s == Text(d) && Same(bytes, 256, d, 58)
  }

  ghost predicate IsEncoding(bytes: seq<nat>, s: string) {
    exists d :: StandsFor(d, s, bytes)
  }

  ghost predicate IsDecoding(s: string, bytes: seq<nat>) {
    Parsed(s).Some? && Digits(bytes, 256) && Same(bytes, 256, Parsed(s).value, 58)
  }

  /** Writes bytes as text. */
  method EncodeBase58(bytes: seq<nat>) returns (str: string)
    requires Digits(bytes, 256)
    ensures IsEncoding(bytes, str)
  {
    var zeroes, rest := CountZeros(bytes);
    assert forall i :: 0 <= i < |rest| ==> rest[i] == bytes[zeroes + i];
    var digits := ToBase58(rest);
    str := WriteText(zeroes, digits);
    TextIs(str, zeroes, digits);
    WithZeros(zeroes, digits, 58);
    WithZeros(zeroes, rest, 256);
    assert StandsFor(seq(zeroes, _ => 0) + digits, str, bytes);
  }

  /** A one stands for the digit zero. */
  lemma {:induction false} TextIs(str: string, zeroes: nat, digits: seq<nat>)
    requires Digits(digits, 58) && |str| == zeroes + |digits|
    requires forall k :: 0 <= k < |str| ==> str[k] == if k < zeroes then '1' else CharOf(digits[k - zeroes])
    ensures Digits(seq(zeroes, _ => 0) + digits, 58) && str == Text(seq(zeroes, _ => 0) + digits)
  {
    var d := seq(zeroes, _ => 0) + digits;
    assert forall k :: 0 <= k < |d| ==> d[k] == if k < zeroes then 0 else digits[k - zeroes];
    assert CharOf(0) == '1';
  }

  /** Translates the digits, after a one for each zero. */
  method WriteText(zeroes: nat, digits: seq<nat>) returns (str: string)
    requires Digits(digits, 58)
    ensures |str| == zeroes + |digits|
    ensures forall k :: 0 <= k < |str| ==> str[k] == if k < zeroes then '1' else CharOf(digits[k - zeroes])
  {
    str := seq(zeroes, _ => '1');
    for i := 0 to |digits|
      invariant |str| == zeroes + i
      invariant forall k :: 0 <= k < |str| ==> str[k] == if k < zeroes then '1' else CharOf(digits[k - zeroes])
    {
      AlphabetIs(digits[i]);
      str := str + [ALPHABET[digits[i]]];
    }
  }

  lemma {:induction false} DigitsSnoc(s: string, lo: nat, hi: nat)
    requires lo <= hi < |s| && AllDigits(s, lo, hi) && DigitOf(s[hi]).Some?
    ensures DigitsOf(s, lo, hi + 1) == DigitsOf(s, lo, hi) + [DigitOf(s[hi]).value]
  {}

  /** A buffer holds the number that some digits stand for. */
  predicate Converted(buffer: seq<nat>, done: seq<nat>) {
    Digits(buffer, 256) && Value(buffer, 256) == Value(done, 58)
  }

  predicate IsRead(s: string, lo: nat, hi: nat, d: seq<nat>) {
    lo <= hi <= |s| && AllDigits(s, lo, hi) && DigitsOf(s, lo, hi) == d
  }

  /** Where the characters that are not spaces end. */
  predicate EndsAt(s: string, i: nat, e: nat) {
    i <= e <= |s| && (forall k :: i <= k < e ==> !IsSpace(s[k])) && (e < |s| ==> IsSpace(s[e]))
  }

  /** A buffer with the number 0. */
  method NewBuffer(n: nat, base: nat) returns (buffer: array<nat>)
    requires base > 0
    ensures fresh(buffer) && buffer.Length == n && Digits(buffer[..], base) && Value(buffer[..], base) == 0
  {
    buffer := new nat[n](_ => 0);
    assert buffer[..] == seq(n, _ => 0);
    ZeroValue(n, base);
  }

  /** Reads one character. */
  method ReadChar(c: char, b256: array<nat>, ghost done: seq<nat>, ghost n: nat) returns (ok: bool)
    requires Digits(done, 58) && Converted(b256[..], done)
    requires |done| < n && Pow(58, n) <= Pow(256, b256.Length)
    modifies b256
    ensures ok == DigitOf(c).Some?
    ensures ok ==> Converted(b256[..], done + [DigitOf(c).value])
  {
    var ch := FindChar(c);
    if ch.Some? {
      Push(b256, 256, 58, ch.value, done, n);
    }
    ok := ch.Some?;
  }

  /** The conversion in DecodeBase58, up to a space or the end; fails at any other character that
      is not in the alphabet. */
  method FromBase58(psz: string, start: nat, ghost end: nat) returns (ok: bool, p: nat, r: seq<nat>)
    requires EndsAt(psz, start, end)
    ensures ok == AllDigits(psz, start, end)
    ensures ok ==> p == end && Digits(r, 256) && (r != [] ==> r[0] != 0)
    ensures ok ==> Value(r, 256) == Value(DigitsOf(psz, start, end), 58)
  {
    r, p := [], start;
    var n := |psz| - start;
    DecodeFits(n);
    var b256 := NewBuffer(n * 733 / 1000 + 1, 256);
    ghost var done: seq<nat> := [];
    while p < |psz| && psz[p] as int != 32 && !(9 <= psz[p] as int <= 13)
      invariant start <= p <= end && IsRead(psz, start, p, done) && Converted(b256[..], done)
      decreases |psz| - p
    {
      ok := ReadChar(psz[p], b256, done, n);
      if !ok {
        return;
      }
      DigitsSnoc(psz, start, p);
      done := done + [DigitOf(psz[p]).value];
      p := p + 1;
    }
    r := Trim(b256, 256);
    ok := true;
  }

  /** Ones at the front of a word stand for zeros. */
  lemma {:induction false} DigitsAfterOnes(s: string, lo: nat, zeroes: nat, hi: nat)
    requires lo + zeroes <= hi <= |s| && forall i :: lo <= i < lo + zeroes ==> s[i] == '1'
    ensures AllDigits(s, lo, hi) <==> AllDigits(s, lo + zeroes, hi)
    ensures AllDigits(s, lo, hi) ==> DigitsOf(s, lo, hi) == seq(zeroes, _ => 0) + DigitsOf(s, lo + zeroes, hi)
  {}

  /** Counts the ones at the front of a word. */
  method SkipOnes(psz: string, start: nat, ghost end: nat) returns (zeroes: nat)
    requires EndsAt(psz, start, end)
    ensures EndsAt(psz, start + zeroes, end) && forall i :: start <= i < start + zeroes ==> psz[i] == '1'
    ensures start + zeroes < |psz| ==> psz[start + zeroes] != '1'
  {
    zeroes := 0;
    while start + zeroes < |psz| && psz[start + zeroes] == '1'
      invariant EndsAt(psz, start + zeroes, end) && forall i :: start <= i < start + zeroes ==> psz[i] == '1'
      decreases |psz| - zeroes
    {
      zeroes := zeroes + 1;
    }
  }

  /** Reads text as bytes. */
  method DecodeBase58(psz: string) returns (ok: bool, vch: seq<nat>)
    ensures ok == Parsed(psz).Some?
    ensures ok ==> IsDecoding(psz, vch)
  {
    var start := SkipSpaces(psz, 0);
    ghost var end := WordEnd(psz, start);
    var zeroes := SkipOnes(psz, start, end);
    DigitsAfterOnes(psz, start, zeroes, end);
    var p, bytes;
    ok, p, bytes := FromBase58(psz, start + zeroes, end);
    vch := [];
    if !ok {
      return;
    }
    var q := SkipSpaces(psz, p);
    if q != |psz| {
      return false, vch;
    }
    vch := seq(zeroes, _ => 0) + bytes;
    ZerosStandForOnes(psz, start, zeroes, end, bytes);
  }

  lemma {:induction false} ZerosStandForOnes(s: string, lo: nat, zeroes: nat, hi: nat, bytes: seq<nat>)
    requires lo + zeroes <= hi <= |s| && AllDigits(s, lo + zeroes, hi)
    requires (forall i :: lo <= i < lo + zeroes ==> s[i] == '1') && (lo + zeroes < hi ==> s[lo + zeroes] != '1')
    requires Digits(bytes, 256) && (bytes != [] ==> bytes[0] != 0)
    requires Value(bytes, 256) == Value(DigitsOf(s, lo + zeroes, hi), 58)
    ensures Digits(seq(zeroes, _ => 0) + bytes, 256)
    ensures AllDigits(s, lo, hi) && Same(seq(zeroes, _ => 0) + bytes, 256, DigitsOf(s, lo, hi), 58)
  {
    DigitsAfterOnes(s, lo, zeroes, hi);
    WithZeros(zeroes, bytes, 256);
    WithZeros(zeroes, DigitsOf(s, lo + zeroes, hi), 58);
  }

  method SkipSpaces(psz: string, start: nat) returns (p: nat)
    requires start <= |psz|
    ensures p == SpacesEnd(psz, start)
  {
    p := start;
    while p < |psz| && (psz[p] as int == 32 || 9 <= psz[p] as int <= 13)
      invariant start <= p <= |psz| && SpacesEnd(psz, p) == SpacesEnd(psz, start)
      decreases |psz| - p
    {
      p := p + 1;
    }
  }

  // ---- round trips ----

  lemma {:induction false} TextParsed(d: seq<nat>)
    requires Digits(d, 58)
    ensures Parsed(Text(d)) == Some(d)
  {
    var s := Text(d);
    forall i | 0 <= i < |s| ensures DigitOf(s[i]) == Some(d[i]) && !IsSpace(s[i]) {
      DigitOfChar(d[i]);
    }
    assert SpacesEnd(s, 0) == 0 && WordEnd(s, 0) == |s|;
    assert DigitsOf(s, 0, |s|) == d;
  }

  /** The text of some bytes is accepted and decodes to those bytes and no others. */
  lemma {:induction false} DecodeOfEncode(bytes: seq<nat>, s: string, vch: seq<nat>)
    requires Digits(bytes, 256) && IsEncoding(bytes, s)
    ensures Parsed(s).Some?
    ensures IsDecoding(s, vch) <==> vch == bytes
  {
    var d :| StandsFor(d, s, bytes);
    TextParsed(d);
    if IsDecoding(s, vch) {
      SameUnique(vch, bytes, 256);
    }
  }

  /** The bytes of an accepted text without spaces encode to that text and no other. */
  lemma {:induction false} EncodeOfDecode(s: string, vch: seq<nat>, str: string)
    requires IsDecoding(s, vch) && forall i :: 0 <= i < |s| ==> !IsSpace(s[i])
    ensures IsEncoding(vch, str) <==> str == s
  {
    var parsed := Parsed(s).value;
    assert SpacesEnd(s, 0) == 0 && WordEnd(s, 0) == |s|;
    assert s == Text(parsed);
    assert StandsFor(parsed, s, vch);
    if IsEncoding(vch, str) {
      var d :| StandsFor(d, str, vch);
      SameUnique(d, parsed, 58);
    }
  }
}
