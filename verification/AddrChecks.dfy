/**
 What the consistency check of the address manager finds in order (CAddrMan::Check_ in
 src/addrman.cpp), for any state of its tables.
 */
module AddrChecks {
  import opened AddrTables

  /** What Check_ asks of one entry. An address that is missing counts as found under 0. */
  predicate EntryPasses(s: Tables, n: nat)
    requires n in s.mapInfo
  {
    var info := s.mapInfo[n];
    && (if info.fInTried then info.nLastSuccess != 0 && info.nRefCount == 0 else 1 <= info.nRefCount <= NEW_BUCKETS_PER_ADDRESS)
    && (if info.addr.ip in s.mapAddr then s.mapAddr[info.addr.ip] else 0) == n
    && 0 <= info.nRandomPos < |s.vRandom| && s.vRandom[info.nRandomPos] == n
    && info.nLastTry >= 0 && info.nLastSuccess >= 0
  }

  predicate EntriesPass(s: Tables, ids: set<nat>) {
    forall n :: n in ids ==> n in s.mapInfo && EntryPasses(s, n)
  }

  /** The members of all buckets, one bucket after the other. */
  function Flat(vvTried: seq<seq<nat>>): seq<nat> {
    if vvTried == [] then [] else Flat(vvTried[..|vvTried| - 1]) + vvTried[|vvTried| - 1]
  }

  /** The tried buckets hold each tried entry once and nothing else. */
  predicate TriedPasses(s: Tables) {
    multiset(Flat(s.vvTried)) == multiset(TriedIds(s.mapInfo))
  }

  function CountOf(counts: map<nat, int>, id: nat): int {
    if id in counts then counts[id] else 0
  }

  /** The reference counts of the entries that are not tried. */
  function RefCounts(mapInfo: Infos, ids: set<nat>): map<nat, int>
    requires ids <= mapInfo.Keys
  {
    map id | id in ids && !mapInfo[id].fInTried :: mapInfo[id].nRefCount
  }

  /** The buckets of new addresses hold each entry as often as it counts references. */
  ghost predicate NewPasses(s: Tables) {
    forall id: nat :: RefCount(s.vvNew, id) == CountOf(RefCounts(s.mapInfo, s.mapInfo.Keys), id)
  }

  ghost predicate ChecksPass(s: Tables) {
    && |s.vRandom| == s.nTried + s.nNew
    && EntriesPass(s, s.mapInfo.Keys)
    && |TriedIds(s.mapInfo)| == s.nTried && |NewIds(s.mapInfo)| == s.nNew
    && TriedPasses(s) && NewPasses(s)
  }

  // ---- walking over the tried buckets ----

  /** What is met before place j of bucket n. */
  function Met(vvTried: seq<seq<nat>>, n: nat, j: nat): seq<nat>
    requires n < |vvTried| && j <= |vvTried[n]|
  {
    Flat(vvTried[..n]) + vvTried[n][..j]
  }

  lemma {:induction false} MetNext(vvTried: seq<seq<nat>>, n: nat, j: nat)
    requires n < |vvTried| && j < |vvTried[n]|
    ensures Met(vvTried, n, j + 1) == Met(vvTried, n, j) + [vvTried[n][j]]
  {
    assert vvTried[n][..j + 1] == vvTried[n][..j] + [vvTried[n][j]];
  }

  lemma {:induction false} MetBucket(vvTried: seq<seq<nat>>, n: nat)
    requires n < |vvTried|
    ensures Met(vvTried, n, 0) == Flat(vvTried[..n])
    ensures Met(vvTried, n, |vvTried[n]|) == Flat(vvTried[..n + 1])
  {
    assert vvTried[..n + 1][..n] == vvTried[..n];
    assert vvTried[n][..|vvTried[n]|] == vvTried[n] && vvTried[n][..0] == [];
  }

  lemma {:induction false} FlatPrefix(vvTried: seq<seq<nat>>, n: nat)
    requires n <= |vvTried|
    ensures Flat(vvTried[..n]) <= Flat(vvTried)
    decreases |vvTried|
  {
    if n == |vvTried| {
      assert vvTried[..n] == vvTried;
    } else {
      assert vvTried[..|vvTried| - 1][..n] == vvTried[..n];
      FlatPrefix(vvTried[..|vvTried| - 1], n);
    }
  }

  /** What is met is part of what there is. */
  lemma {:induction false} MetPart(vvTried: seq<seq<nat>>, n: nat, j: nat)
    requires n < |vvTried| && j <= |vvTried[n]|
    ensures multiset(Met(vvTried, n, j)) <= multiset(Flat(vvTried))
  {
    var met, all := Flat(vvTried[..n + 1]), Flat(vvTried);
    MetBucket(vvTried, n);
    FlatPrefix(vvTried, n + 1);
    assert met == Met(vvTried, n, j) + vvTried[n][j..] by {
      assert vvTried[n] == vvTried[n][..j] + vvTried[n][j..];
      assert vvTried[..n + 1][..n] == vvTried[..n];
    }
    assert all == met + all[|met|..];
  }

  /** The tried entries are those met and those that remain. */
  predicate Remaining(tried: set<nat>, setTried: set<nat>, met: seq<nat>) {
    multiset(met) + multiset(setTried) == multiset(tried)
  }

  lemma {:induction false} RemainingNext(tried: set<nat>, setTried: set<nat>, met: seq<nat>, id: nat)
    requires Remaining(tried, setTried, met)
    ensures if id in setTried then Remaining(tried, setTried - {id}, met + [id]) else !(multiset(met + [id]) <= multiset(tried))
  {
    if id in setTried {
      assert multiset(setTried) == multiset(setTried - {id}) + multiset{id};
    } else {
      assert multiset(tried)[id] < multiset(met + [id])[id];
    }
  }

  // ---- walking over the buckets of new addresses ----

  lemma {:induction false} RefCountPrefix(vvNew: seq<set<nat>>, k: nat, id: nat)
    requires k <= |vvNew|
    ensures RefCount(vvNew[..k], id) <= RefCount(vvNew, id)
    decreases |vvNew|
  {
    if k == |vvNew| {
      assert vvNew[..k] == vvNew;
    } else {
      assert vvNew[..|vvNew| - 1][..k] == vvNew[..k];
      RefCountPrefix(vvNew[..|vvNew| - 1], k, id);
    }
  }

  lemma {:induction false} RefCountNext(vvNew: seq<set<nat>>, n: nat, id: nat)
    requires n < |vvNew|
    ensures RefCount(vvNew[..n + 1], id) == RefCount(vvNew[..n], id) + One(id in vvNew[n])
    ensures RefCount(vvNew[..n + 1], id) <= RefCount(vvNew, id)
  {
    assert vvNew[..n + 1][..n] == vvNew[..n];
    RefCountPrefix(vvNew, n + 1, id);
  }

  /** What is left of the counts, when the references in the buckets before n and in that to the
      members of `seen` were met. */
  ghost predicate Left(counts: map<nat, int>, left: map<nat, int>, vvNew: seq<set<nat>>, n: nat, seen: set<nat>)
    requires n <= |vvNew|
  {
    && (forall id: nat :: CountOf(left, id) == CountOf(counts, id) - RefCount(vvNew[..n], id) - One(id in seen))
    && forall id :: id in left ==> left[id] > 0
  }

  /** No entry is met more often than it counts. */
  ghost predicate EnoughCounted(counts: map<nat, int>, vvNew: seq<set<nat>>) {
    forall id: nat :: RefCount(vvNew, id) <= CountOf(counts, id)
  }

  lemma {:induction false} LeftStart(counts: map<nat, int>, vvNew: seq<set<nat>>)
    requires forall id :: id in counts ==> counts[id] > 0
    ensures Left(counts, counts, vvNew, 0, {})
  {}

  /** Meeting one more reference. */
  lemma {:induction false} LeftNext(counts: map<nat, int>, left: map<nat, int>, vvNew: seq<set<nat>>, n: nat, seen: set<nat>, id: nat)
    requires n < |vvNew| && Left(counts, left, vvNew, n, seen) && id in vvNew[n] && id !in seen
    ensures id !in left ==> !EnoughCounted(counts, vvNew)
    ensures id in left ==> Left(counts, if left[id] == 1 then left - {id} else left[id := left[id] - 1], vvNew, n, seen + {id})
  {
    if id !in left {
      RefCountNext(vvNew, n, id);
      assert CountOf(left, id) == 0;
      assert RefCount(vvNew, id) > CountOf(counts, id);
    } else {
      var left' := if left[id] == 1 then left - {id} else left[id := left[id] - 1];
      assert forall x: nat :: CountOf(left', x) == CountOf(left, x) - One(x == id);
    }
  }

  lemma {:induction false} LeftBucket(counts: map<nat, int>, left: map<nat, int>, vvNew: seq<set<nat>>, n: nat)
    requires n < |vvNew| && Left(counts, left, vvNew, n, vvNew[n])
    ensures Left(counts, left, vvNew, n + 1, {})
  {
    forall id: nat ensures CountOf(left, id) == CountOf(counts, id) - RefCount(vvNew[..n + 1], id) - One(id in {}) {
      RefCountNext(vvNew, n, id);
    }
  }

  /** At the end: no entry was met too often, and nothing is left exactly if all were met. */
  lemma {:induction false} LeftEnd(counts: map<nat, int>, left: map<nat, int>, vvNew: seq<set<nat>>)
    requires Left(counts, left, vvNew, |vvNew|, {})
    ensures EnoughCounted(counts, vvNew)
    ensures left == map[] <==> forall id: nat :: RefCount(vvNew, id) == CountOf(counts, id)
  {
    assert vvNew[..|vvNew|] == vvNew;
    forall id: nat ensures RefCount(vvNew, id) <= CountOf(counts, id) {
      assert CountOf(left, id) >= 0;
    }
    if left != map[] {
      var id :| id in left;
      assert CountOf(left, id) > 0;
    }
  }

  // ---- every consistent state passes ----

  /** The tried entries whose bucket comes before bucket n. */
  function TriedBefore(buckets: Buckets, mapInfo: Infos, n: nat): set<nat> {
    set id | id in mapInfo && mapInfo[id].fInTried && buckets.Tried(mapInfo[id]) < n
  }

  lemma {:induction false} DistinctMembers(r: seq<nat>, ids: set<nat>)
    requires forall i, j :: 0 <= i < j < |r| ==> r[i] != r[j]
    requires forall x :: x in r <==> x in ids
    ensures multiset(r) == multiset(ids)
  {
    if r == [] {
      assert ids == {};
    } else {
      var last := r[|r| - 1];
      assert r == r[..|r| - 1] + [last];
      DistinctMembers(r[..|r| - 1], ids - {last});
      assert ids == (ids - {last}) + {last};
    }
  }

  function TriedIn(buckets: Buckets, mapInfo: Infos, k: nat): set<nat> {
    set id | id in mapInfo && mapInfo[id].fInTried && buckets.Tried(mapInfo[id]) == k
  }

  lemma {:induction false} BucketTried(buckets: Buckets, m: Infos, vvTried: seq<seq<nat>>, k: nat)
    requires TriedOk(buckets, m, vvTried) && k < |vvTried|
    ensures multiset(vvTried[k]) == multiset(TriedIn(buckets, m, k))
  {
    var ids := TriedIn(buckets, m, k);
    forall x ensures x in vvTried[k] <==> x in ids {
      if x in ids {
        assert InTriedBucket(buckets, m, vvTried, x);
      }
      if x in vvTried[k] {
        var i :| 0 <= i < |vvTried[k]| && vvTried[k][i] == x;
        assert TriedSlotOk(buckets, m, vvTried, k, i);
      }
    }
    assert TriedBucketOk(vvTried, k);
    DistinctMembers(vvTried[k], ids);
  }

  lemma {:induction false} BeforeNext(buckets: Buckets, m: Infos, k: nat)
    ensures multiset(TriedBefore(buckets, m, k + 1)) == multiset(TriedBefore(buckets, m, k)) + multiset(TriedIn(buckets, m, k))
  {
    var a, b := TriedBefore(buckets, m, k), TriedIn(buckets, m, k);
    assert a !! b && TriedBefore(buckets, m, k + 1) == a + b;
  }

  lemma {:induction false} FlatTried(buckets: Buckets, m: Infos, vvTried: seq<seq<nat>>, n: nat)
    requires TriedOk(buckets, m, vvTried) && n <= |vvTried|
    ensures multiset(Flat(vvTried[..n])) == multiset(TriedBefore(buckets, m, n))
  {
    if n == 0 {
      assert TriedBefore(buckets, m, 0) == {};
    } else {
      FlatTried(buckets, m, vvTried, n - 1);
      BucketTried(buckets, m, vvTried, n - 1);
      BeforeNext(buckets, m, n - 1);
      assert vvTried[..n][..n - 1] == vvTried[..n - 1];
    }
  }

  lemma {:induction false} ConsistentNewPasses(s: Tables)
    requires NewOk(s.mapInfo, s.vvNew, Nobody)
    ensures NewPasses(s)
  {
    forall id: nat ensures RefCount(s.vvNew, id) == CountOf(RefCounts(s.mapInfo, s.mapInfo.Keys), id) {
      if id in s.mapInfo {
        assert RefsOk(s.mapInfo, s.vvNew, Nobody, id);
      } else {
        RefCountPositive(s.vvNew, id);
        forall b | 0 <= b < |s.vvNew| ensures id !in s.vvNew[b] {
          assert NewBucketOk(s.mapInfo, s.vvNew, b);
        }
      }
    }
  }

  lemma {:induction false} ConsistentPasses(buckets: Buckets, s: Tables)
    requires Consistent(buckets, s, Nobody)
    ensures ChecksPass(s)
  {
    forall n | n in s.mapInfo ensures EntryPasses(s, n) {
      assert RefsOk(s.mapInfo, s.vvNew, Nobody, n) && TimesOk(s.mapInfo, n);
      assert KeyOk(s.mapInfo, s.mapAddr, n) && PosOk(s.mapInfo, s.vRandom, n);
      RefCountPositive(s.vvNew, n);
    }
    FlatTried(buckets, s.mapInfo, s.vvTried, |s.vvTried|);
    assert s.vvTried[..|s.vvTried|] == s.vvTried;
    assert TriedBefore(buckets, s.mapInfo, TRIED_BUCKET_COUNT) == TriedIds(s.mapInfo);
    ConsistentNewPasses(s);
  }
}
