/** The members of sequences. */
module Sequences {
  function Members<T>(s: seq<T>): set<T> {
    set x | x in s
  }

  lemma {:induction false} MembersSnoc<T>(s: seq<T>, x: T)
    ensures Members(s + [x]) == Members(s) + {x}
  {}

  lemma {:induction false} MembersNext<T>(s: seq<T>, j: nat)
    requires j < |s|
    ensures Members(s[..j + 1]) == Members(s[..j]) + {s[j]}
  {
    assert s[..j + 1] == s[..j] + [s[j]];
  }

  lemma {:induction false} MembersAtMost<T>(s: seq<T>)
    ensures |Members(s)| <= |s|
    decreases |s|
  {
    if s != [] {
      MembersAtMost(s[..|s| - 1]);
      MembersNext(s, |s| - 1);
      assert s[..|s| - 1 + 1] == s;
    } else {
      assert Members(s) == {};
    }
  }
}
