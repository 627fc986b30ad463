/**
 The variable-length integers of streams (WriteVarInt and ReadVarInt in src/serialize.h), for
 numbers of a signed type as well.
 */
module VarInt {
  import opened Core
  import opened Numbers

  /** Groups of seven bits, the most significant first; each but the last stands for one less and
      has its eighth bit set, and `flag` is added to the last. */
  function Groups(n: int, flag: nat): seq<nat>
    decreases if n < 0 then 0 else n
  {
    (if n <= 0x7F then [] else Groups(n / 128 - 1, 0x80)) + [n % 128 + flag]
  }

  function Encoded(n: int): seq<nat> {
    Groups(n, 0)
  }

  datatype NumberRead = NumberRead(n: nat, rest: seq<nat>)

  /** Reading on, when the groups so far came to n. */
  function Decoded(s: seq<nat>, n: nat): Option<NumberRead> {
    if s == [] then None
    else
      var m := n * 128 + s[0] % 128;
      if s[0] >= 0x80 then Decoded(s[1..], m + 1) else Some(NumberRead(m, s[1..]))
  }

  predicate Bytes(s: seq<nat>) {
    forall i :: 0 <= i < |s| ==> s[i] < 256
  }

  function Reversed(s: seq<nat>): seq<nat> {
    if s == [] then [] else [s[|s| - 1]] + Reversed(s[..|s| - 1])
  }

  /** All groups but the last. */
  function Front(n: int): seq<nat> {
    if n <= 0x7F then [] else Groups(n / 128 - 1, 0x80)
  }

  lemma {:induction false} LastGroup(n: int)
    ensures Encoded(n) == Front(n) + Reversed([n % 128])
  {
    var last: nat := n % 128;
    assert [last][..0] == [];
    assert Reversed([last]) == [last] + Reversed([]) == [last];
    assert Groups(n, 0) == Front(n) + [last + 0];
  }

  lemma {:induction false} NextGroup(n: int, done: seq<nat>)
    requires n > 0x7F
    ensures var m := n / 128 - 1;
      m >= 0 && Front(n) + Reversed(done) == Front(m) + Reversed(done + [m % 128 + 0x80])
  {
    var m := n / 128 - 1;
    assert Front(n) == Front(m) + [m % 128 + 0x80];
    assert (done + [m % 128 + 0x80])[..|done|] == done;
  }

  /** Collects the groups, the least significant first, and writes them in reverse. A negative
      number has only one. */
  method WriteVarInt(n: int) returns (s: seq<nat>)
    ensures s == Encoded(n)
  {
    var tmp: seq<nat> := [n % 128];
    var m := n;
    LastGroup(n);
    while m > 0x7F
      invariant Encoded(n) == Front(m) + Reversed(tmp)
      decreases if m < 0 then 0 else m
    {
      ghost var front := Front(m) + Reversed(tmp);
      NextGroup(m, tmp);
      m := m / 128 - 1;
      var group: nat := m % 128 + 0x80;
      tmp := tmp + [group];
      assert Front(m) + Reversed(tmp) == front;
    }
    s := WriteReversed(tmp);
    assert [] + s == s;
  }

  method WriteReversed(tmp: seq<nat>) returns (s: seq<nat>)
    ensures s == Reversed(tmp)
  {
    s := [];
    var len := |tmp|;
    assert tmp[..len] == tmp;
    while len > 0
      invariant 0 <= len <= |tmp| && Reversed(tmp) == s + Reversed(tmp[..len])
    {
      assert tmp[..len][..len - 1] == tmp[..len - 1];
      len := len - 1;
      s := s + [tmp[len]];
    }
  }

  method ReadVarInt(s: seq<nat>) returns (r: Option<NumberRead>)
    ensures r == Decoded(s, 0)
  {
    var n, i := 0, 0;
    while i < |s|
      invariant 0 <= i <= |s| && 0 <= n && Decoded(s, 0) == Decoded(s[i..], n)
    {
      n := n * 128 + s[i] % 128;
      if s[i] < 0x80 {
        return Some(NumberRead(n, s[i + 1..]));
      }
      n := n + 1;
      i := i + 1;
    }
    return None;
  }

  function Wrapped(r: Option<NumberRead>, word: nat): Option<NumberRead>
    requires word > 0
  {
    match r
    case None => None
    case Some(read) => Some(NumberRead(read.n % word, read.rest))
  }

  /** The same loop in arithmetic modulo the range of an unsigned type: what it gives is what is left
      of the number in that type. */
  method ReadVarIntAs(s: seq<nat>, word: nat) returns (r: Option<NumberRead>)
    requires word > 0
    ensures r == Wrapped(Decoded(s, 0), word)
  {
    var n: nat, i := 0, 0;
    ghost var whole: nat := 0;
    while i < |s|
      invariant 0 <= i <= |s| && Decoded(s, 0) == Decoded(s[i..], whole)
      invariant n == whole % word
    {
      WrapStep(whole, s[i] % 128, word);
      n := (n * 128 + s[i] % 128) % word;
      whole := whole * 128 + s[i] % 128;
      if s[i] < 0x80 {
        return Some(NumberRead(n, s[i + 1..]));
      }
      RestOfSum(whole, 1, word);
      n := (n + 1) % word;
      whole := whole + 1;
      i := i + 1;
    }
    return None;
  }

  lemma {:induction false} WrapStep(n: nat, d: nat, word: nat)
    requires word > 0
    ensures (n % word * 128 + d) % word == (n * 128 + d) % word
  {
    var q := n / word * 128;
    assert n * 128 + d == q * word + (n % word * 128 + d);
    RestOfMultiple(q, n % word * 128 + d, word);
  }

  lemma {:induction false} RestOfSum(n: nat, d: nat, word: nat)
    requires word > 0
    ensures (n % word + d) % word == (n + d) % word
  {
    assert n + d == n / word * word + (n % word + d);
    RestOfMultiple(n / word, n % word + d, word);
  }

  /** What is left of a number: a negative one keeps its last seven bits. */
  function Kept(n: int): nat {
    if n >= 0 then n else n % 128
  }

  lemma {:induction false} GroupsDecoded(n: nat, rest: seq<nat>)
    ensures Decoded(Groups(n, 0x80) + rest, 0) == Decoded(rest, n + 1)
    decreases n
  {
    var last := n % 128 + 0x80;
    assert ([last] + rest)[1..] == rest;
    if n > 0x7F {
      assert Groups(n, 0x80) + rest == Groups(n / 128 - 1, 0x80) + ([last] + rest);
      GroupsDecoded(n / 128 - 1, [last] + rest);
    } else {
      assert Groups(n, 0x80) + rest == [last] + rest;
    }
  }

  /** Every number that is not negative is read back, whatever follows it; a negative one is not. */
  lemma {:induction false} EncodedDecoded(n: int, rest: seq<nat>)
    ensures Decoded(Encoded(n) + rest, 0) == Some(NumberRead(Kept(n), rest))
    ensures Kept(n) == n <==> n >= 0
  {
    assert ([n % 128] + rest)[1..] == rest;
    if n > 0x7F {
      assert Encoded(n) + rest == Groups(n / 128 - 1, 0x80) + ([n % 128] + rest);
      GroupsDecoded(n / 128 - 1, [n % 128] + rest);
    } else {
      assert Encoded(n) + rest == [n % 128] + rest;
    }
  }

  /** Read into an unsigned type, a number comes back if and only if it fits. */
  lemma {:induction false} EncodedFitsIff(n: nat, rest: seq<nat>, word: nat)
    requires word > 0
    ensures Wrapped(Decoded(Encoded(n) + rest, 0), word) == Some(NumberRead(n, rest)) <==> n < word
  {
    EncodedDecoded(n, rest);
    RestIsWhole(n, word);
  }

  lemma {:induction false} RestIsWhole(n: nat, word: nat)
    requires word > 0
    ensures n % word == n <==> n < word
  {
    if n < word {
      QuotientIs(n, word, 0);
      assert n == n / word * word + n % word;
    }
  }

  /** No number has two forms: whatever bytes are read as a number are the form that is written. */
  lemma {:induction false} DecodedEncoded(s: seq<nat>, r: NumberRead)
    requires Bytes(s) && Decoded(s, 0) == Some(r)
    ensures s == Encoded(r.n) + r.rest
  {
    assert s == [s[0]] + s[1..];
    if s[0] >= 0x80 {
      assert Groups(s[0] % 128, 0x80) == [s[0]];
      DecodedGroups(s[1..], s[0] % 128, r);
    }
  }

  lemma {:induction false} DecodedGroups(s: seq<nat>, m: nat, r: NumberRead)
    requires Bytes(s) && Decoded(s, m + 1) == Some(r)
    ensures Groups(m, 0x80) + s == Encoded(r.n) + r.rest
    decreases |s|
  {
    var n := (m + 1) * 128 + s[0] % 128;
    assert n / 128 - 1 == m && n % 128 == s[0] % 128;
    assert Groups(m, 0x80) + s == (Groups(m, 0x80) + [s[0]]) + s[1..];
    if s[0] >= 0x80 {
      assert Groups(n, 0x80) == Groups(m, 0x80) + [s[0]];
      DecodedGroups(s[1..], n, r);
    }
  }
}
