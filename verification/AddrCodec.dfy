/**
 Writing the address manager to disk and reading it back (the serializer of CAddrMan in
 src/addrman.h). Positions, flags and counts are not written but rebuilt, entries get new
 identifiers, and the time of the last try is lost.
 */
module AddrCodec {
  import opened AddrTables
  import opened AddrMan
  import opened Sequences

  /** What is written of an entry. */
  datatype Record = Record(addr: Service, nServices: Services, nTime: int, source: Ip, nLastSuccess: int, nAttempts: int)

  function Rec(info: AddrInfo): Record {
    Record(info.addr, info.nServices, info.nTime, info.source, info.nLastSuccess, info.nAttempts)
  }

  /** An entry as it is read. */
  function Info(r: Record, nRefCount: int, fInTried: bool, nRandomPos: int): AddrInfo {
    AddrInfo(r.addr, r.nServices, r.nTime, r.source, r.nLastSuccess, 0, r.nAttempts, nRefCount, fInTried, nRandomPos)
  }

  /** The file: the key, which stands for the buckets it makes, the new entries, the tried entries,
      and for each bucket of new addresses the places of its members among the new entries. */
  datatype Dump = Dump(buckets: Buckets, vNew: seq<Record>, vTried: seq<Record>, vvIndex: seq<seq<nat>>)

  // ---- writing ----

  /** Entries in the order of their identifiers, as records. */
  predicate AreRecords(mapInfo: Infos, ids: seq<nat>, records: seq<Record>) {
    && |records| == |ids|
    && forall i :: 0 <= i < |ids| ==> ids[i] in mapInfo && records[i] == Rec(mapInfo[ids[i]])
  }

  /** The places of the members of a bucket. */
  predicate IsIndex(ids: seq<nat>, bucket: set<nat>, index: seq<nat>) {
    && |index| == |bucket|
    && (forall j :: 0 <= j < |index| ==> index[j] < |ids| && ids[index[j]] in bucket)
    && (forall i, j :: 0 <= i < j < |index| ==> index[i] != index[j])
    && (forall i :: 0 <= i < |ids| && ids[i] in bucket ==> i in index)
  }

  ghost predicate IsDump(s: Tables, d: Dump, newIds: seq<nat>, triedIds: seq<nat>) {
    && Members(newIds) == NewIds(s.mapInfo) && Increasing(newIds) && AreRecords(s.mapInfo, newIds, d.vNew)
    && Members(triedIds) == TriedIds(s.mapInfo) && Increasing(triedIds) && AreRecords(s.mapInfo, triedIds, d.vTried)
    && |d.vvIndex| == |s.vvNew|
    && forall b {:trigger IsIndex(newIds, s.vvNew[b], d.vvIndex[b])} ::
         0 <= b < |s.vvNew| ==> IsIndex(newIds, s.vvNew[b], d.vvIndex[b])
  }

  /** Some of the entries that are written, with the places they get. */
  predicate Numbered(mapUnkIds: map<nat, nat>, ids: seq<nat>) {
    forall i :: 0 <= i < |ids| ==> ids[i] in mapUnkIds && mapUnkIds[ids[i]] == i
  }

  lemma {:induction false} MembersSize(r: seq<nat>)
    requires Increasing(r)
    ensures |Members(r)| == |r|
  {
    if r != [] {
      MembersSize(r[..|r| - 1]);
      NotBefore(r, |r| - 1);
      MembersNext(r, |r| - 1);
      assert r[..|r| - 1 + 1] == r;
    }
  }

  /** As many members as there are at all are all of them. */
  lemma {:induction false} SameSize(r: seq<nat>, ids: set<nat>)
    requires Increasing(r) && Members(r) <= ids && |r| == |ids|
    ensures Members(r) == ids
  {
    MembersSize(r);
    var rest := ids - Members(r);
    assert ids == Members(r) + rest;
  }

  /** The part of an order that belongs to a set. */
  predicate Part(r: seq<nat>, among: seq<nat>, ids: set<nat>) {
    Increasing(r) && Members(r) == Members(among) * ids
  }

  lemma {:induction false} PartNext(r: seq<nat>, all: seq<nat>, i: nat, ids: set<nat>)
    requires Increasing(all) && i < |all| && Part(r, all[..i], ids)
    ensures all[i] in ids ==> Part(r + [all[i]], all[..i + 1], ids)
    ensures all[i] !in ids ==> Part(r, all[..i + 1], ids)
  {
    MembersNext(all, i);
    MembersSnoc(r, all[i]);
    forall j | 0 <= j < |r| ensures r[j] < all[i] {
      MemberAt(r, j);
      var k := MemberIndex(all[..i], r[j]);
    }
    IncreasingSnoc(r, all[i]);
  }

  lemma {:induction false} IndexNext(ids: seq<nat>, r: seq<nat>, j: nat, index: seq<nat>, place: nat)
    requires Increasing(ids) && Increasing(r) && j < |r| && place < |ids| && ids[place] == r[j]
    requires IsIndex(ids, Members(r[..j]), index)
    ensures IsIndex(ids, Members(r[..j + 1]), index + [place])
  {
    assert r[..j + 1][..j] == r[..j];
    NotBefore(r, j);
    MembersSize(r[..j]);
    MembersSize(r[..j + 1]);
    var index' := index + [place];
    forall i | 0 <= i < |ids| && ids[i] in Members(r[..j + 1]) ensures i in index' {
      if i == place {
        assert index'[|index|] == place;
      } else {
        assert ids[i] != ids[place];
        var k :| 0 <= k < |index| && index[k] == i;
        assert index'[k] == i;
      }
    }
  }

  /** The entries that are not tried. Other entries get a place as well, which is never used. */
  method WriteNew(am: AddrMan) returns (records: seq<Record>, mapUnkIds: map<nat, nat>, ghost newIds: seq<nat>)
    requires am.Valid()
    ensures Members(newIds) == NewIds(am.mapInfo) && Increasing(newIds)
    ensures AreRecords(am.mapInfo, newIds, records) && Numbered(mapUnkIds, newIds)
  {
    records, mapUnkIds, newIds := [], map[], [];
    var all := InOrder(am.mapInfo.Keys);
    var i, nIds := 0, 0;
    while i < |all| && nIds != am.nNew
      invariant 0 <= i <= |all| && nIds == |newIds|
      invariant Part(newIds, all[..i], NewIds(am.mapInfo))
      invariant AreRecords(am.mapInfo, newIds, records) && Numbered(mapUnkIds, newIds)
      decreases |all| - i
    {
      MemberAt(all, i);
      PartNext(newIds, all, i, NewIds(am.mapInfo));
      KeepNumbers(mapUnkIds, newIds, all, i, NewIds(am.mapInfo));
      assert RefsOk(am.mapInfo, am.vvNew, Nobody, all[i]);
      mapUnkIds := mapUnkIds[all[i] := nIds];
      var info := am.mapInfo[all[i]];
      if info.nRefCount != 0 {
        records, newIds := records + [Rec(info)], newIds + [all[i]];
        nIds := nIds + 1;
      }
      i := i + 1;
    }
    if i == |all| {
      assert all[..i] == all;
    } else {
      SameSize(newIds, NewIds(am.mapInfo));
    }
  }

  lemma {:induction false} KeepNumbers(mapUnkIds: map<nat, nat>, ids: seq<nat>, all: seq<nat>, i: nat, among: set<nat>)
    requires Increasing(all) && i < |all| && Part(ids, all[..i], among) && Numbered(mapUnkIds, ids)
    ensures Numbered(mapUnkIds[all[i] := |ids|], ids) && Numbered(mapUnkIds[all[i] := |ids|], ids + [all[i]])
  {
    NotBefore(all, i);
    forall k | 0 <= k < |ids| ensures ids[k] != all[i] {
      MemberAt(ids, k);
    }
  }

  method WriteTried(am: AddrMan) returns (records: seq<Record>, ghost triedIds: seq<nat>)
    requires am.Valid()
    ensures Members(triedIds) == TriedIds(am.mapInfo) && Increasing(triedIds)
    ensures AreRecords(am.mapInfo, triedIds, records)
  {
    records, triedIds := [], [];
    var all := InOrder(am.mapInfo.Keys);
    var i, nIds := 0, 0;
    while i < |all| && nIds != am.nTried
      invariant 0 <= i <= |all| && nIds == |triedIds|
      invariant Part(triedIds, all[..i], TriedIds(am.mapInfo))
      invariant AreRecords(am.mapInfo, triedIds, records)
      decreases |all| - i
    {
      MemberAt(all, i);
      PartNext(triedIds, all, i, TriedIds(am.mapInfo));
      var info := am.mapInfo[all[i]];
      if info.fInTried {
        records, triedIds := records + [Rec(info)], triedIds + [all[i]];
        nIds := nIds + 1;
      }
      i := i + 1;
    }
    if i == |all| {
      assert all[..i] == all;
    } else {
      SameSize(triedIds, TriedIds(am.mapInfo));
    }
  }

  /** The places of the members of one bucket. */
  method WriteBucket(bucket: set<nat>, mapUnkIds: map<nat, nat>, ghost newIds: seq<nat>) returns (index: seq<nat>)
    requires bucket <= Members(newIds) && Increasing(newIds) && Numbered(mapUnkIds, newIds)
    ensures IsIndex(newIds, bucket, index)
  {
    index := [];
    var r := InOrder(bucket);
    for j := 0 to |r|
      invariant IsIndex(newIds, Members(r[..j]), index)
    {
      MemberAt(r, j);
      ghost var place := MemberIndex(newIds, r[j]);
      IndexNext(newIds, r, j, index, place);
      index := index + [mapUnkIds[r[j]]];
    }
    assert r[..|r|] == r;
  }

  /** What is written for a state. */
  ghost predicate IsFile(s: Tables, d: Dump) {
    exists newIds, triedIds :: IsDump(s, d, newIds, triedIds)
  }

  method Write(am: AddrMan) returns (d: Dump)
    requires am.Valid()
    ensures d.buckets == am.buckets && IsFile(am.Now(), d)
  {
    var vNew, mapUnkIds, newIds := WriteNew(am);
    var vTried, triedIds := WriteTried(am);
    var vvIndex := [];
    for b := 0 to |am.vvNew|
      invariant |vvIndex| == b
      invariant forall c {:trigger IsIndex(newIds, am.vvNew[c], vvIndex[c])} :: 0 <= c < b ==> IsIndex(newIds, am.vvNew[c], vvIndex[c])
    {
      BucketIsNew(am.buckets, am.Now(), b);
      var index := WriteBucket(am.vvNew[b], mapUnkIds, newIds);
      ghost var before := vvIndex;
      vvIndex := vvIndex + [index];
      forall c | 0 <= c < b ensures IsIndex(newIds, am.vvNew[c], vvIndex[c]) {
        assert IsIndex(newIds, am.vvNew[c], before[c]);
      }
    }
    d := Dump(am.buckets, vNew, vTried, vvIndex);
    assert IsDump(am.Now(), d, newIds, triedIds);
  }

  lemma {:induction false} BucketIsNew(buckets: Buckets, s: Tables, b: nat)
    requires Consistent(buckets, s, Nobody) && b < |s.vvNew|
    ensures s.vvNew[b] <= NewIds(s.mapInfo)
  {
    forall id | id in s.vvNew[b] ensures id in NewIds(s.mapInfo) {
      InBucket(buckets, s, Nobody, b, id);
    }
  }

  // ---- reading ----

  function Rows(vvIndex: seq<seq<nat>>): (r: seq<set<nat>>)
    ensures |r| == |vvIndex| && forall b :: 0 <= b < |r| ==> r[b] == Members(vvIndex[b])
  {
    seq(|vvIndex|, b requires 0 <= b < |vvIndex| => Members(vvIndex[b]))
  }

  /** The identifiers that the tried entries of a bucket get, from a first one on. */
  function Bucketed(buckets: Buckets, vTried: seq<Record>, first: nat, k: nat): seq<nat> {
    if vTried == [] then []
    else
      var last := |vTried| - 1;
      Bucketed(buckets, vTried[..last], first, k)
      + if buckets.Tried(Info(vTried[last], 0, true, 0)) == k then [first + last] else []
  }

  /** The bucket of new addresses for an entry and the peer that first told of it. */
  function Home(d: Dump, i: nat): (b: nat)
    requires i < |d.vNew|
    ensures b < NEW_BUCKET_COUNT
  {
    var info := Info(d.vNew[i], 0, false, i);
    d.buckets.New(info, info.source)
  }

  /** Which of the first n new entries belong in a bucket. */
  function AtHome(d: Dump, n: nat, b: nat): (index: seq<nat>)
    requires n <= |d.vNew|
    ensures forall i: nat :: i in index <==> i < n && Home(d, i) == b
    ensures Increasing(index) && forall j :: 0 <= j < |index| ==> index[j] < n
  {
    if n == 0 then [] else AtHome(d, n - 1, b) + if Home(d, n - 1) == b then [n - 1] else []
  }

  function Rehashed(d: Dump, n: nat): (vvIndex: seq<seq<nat>>)
    requires n <= |d.vNew|
    ensures |vvIndex| == NEW_BUCKET_COUNT && forall b :: 0 <= b < |vvIndex| ==> vvIndex[b] == AtHome(d, n, b)
  {
    seq(NEW_BUCKET_COUNT, b requires 0 <= b => AtHome(d, n, b))
  }

  /** Whether the file has buckets as there are today, so that they can be used as they are. */
  predicate SameCount(d: Dump) {
    |d.vvIndex| == NEW_BUCKET_COUNT
  }

  /** The places in each bucket: those of the file, or else those that the key gives. */
  function Index(d: Dump): (vvIndex: seq<seq<nat>>)
    ensures |vvIndex| == NEW_BUCKET_COUNT
  {
    if SameCount(d) then d.vvIndex else Rehashed(d, |d.vNew|)
  }

  predicate RowOk(index: seq<nat>, nNew: nat) {
    && |index| <= NEW_BUCKET_SIZE
    && (forall j :: 0 <= j < |index| ==> index[j] < nNew)
    && forall i, j :: 0 <= i < j < |index| ==> index[i] != index[j]
  }

  function All(d: Dump): seq<Record> {
    d.vNew + d.vTried
  }

  predicate Differ(d: Dump, i: nat, j: nat)
    requires i < |All(d)| && j < |All(d)|
  {
    All(d)[i].addr.ip != All(d)[j].addr.ip
  }

  /** Entries that can stand beside each other in the tables. */
  ghost predicate EntriesOk(d: Dump) {
    && (forall i, j {:trigger Differ(d, i, j)} :: 0 <= i < j < |All(d)| ==> Differ(d, i, j))
    && (forall i :: 0 <= i < |d.vNew| ==> d.vNew[i].nLastSuccess >= 0)
    && (forall i :: 0 <= i < |d.vTried| ==> d.vTried[i].nLastSuccess > 0)
  }

  /** Every place in a bucket of the file is that of an entry. */
  predicate PlacesKnown(d: Dump) {
    forall b, j :: 0 <= b < |d.vvIndex| && 0 <= j < |d.vvIndex[b]| ==> d.vvIndex[b][j] < |All(d)|
  }

  ghost predicate RowsOk(d: Dump) {
    forall b :: 0 <= b < NEW_BUCKET_COUNT ==> RowOk(Index(d)[b], |d.vNew|)
  }

  /** No tried bucket gets more than it holds. */
  predicate TriedFit(d: Dump) {
    forall k :: 0 <= k < TRIED_BUCKET_COUNT ==> |Bucketed(d.buckets, d.vTried, |d.vNew|, k)| <= TRIED_BUCKET_SIZE
  }

  /** A file that loses nothing when it is read. */
  ghost predicate DumpOk(d: Dump) {
    && EntriesOk(d) && PlacesKnown(d) && RowsOk(d) && TriedFit(d)
    && forall i :: 0 <= i < |d.vNew| ==> 1 <= RefCount(Rows(Index(d)), i) <= NEW_BUCKETS_PER_ADDRESS
  }

  /** The entry that gets identifier i, before its references are counted. */
  function ReadInfo(d: Dump, i: nat): AddrInfo
    requires i < |All(d)|
  {
    Info(All(d)[i], 0, i >= |d.vNew|, i)
  }

  ghost predicate EntriesRead(m: Infos, d: Dump, k: nat) {
    && k <= |All(d)|
    && (forall id: nat :: id in m <==> id < k)
    && forall i :: 0 <= i < k ==> m[i] == ReadInfo(d, i)
  }

  /** How many of the first k entries are tried. */
  function TriedAfter(d: Dump, k: nat): nat {
    if k <= |d.vNew| then 0 else k - |d.vNew|
  }

  ghost predicate BucketsRead(d: Dump, k: nat, vvTried: seq<seq<nat>>)
    requires k <= |All(d)|
  {
    && |vvTried| == TRIED_BUCKET_COUNT
    && forall b :: 0 <= b < |vvTried| ==> vvTried[b] == Bucketed(d.buckets, d.vTried[..TriedAfter(d, k)], |d.vNew|, b)
  }

  /** As many entries are read as are in vRandom. */
  ghost predicate Loaded(d: Dump, m: Infos, mapAddr: map<Ip, nat>, vRandom: seq<nat>, vvTried: seq<seq<nat>>) {
    var k := |vRandom|;
    && EntriesRead(m, d, k) && RandomOk(m, vRandom) && AddrOk(m, mapAddr)
    && TriedOk(d.buckets, m, vvTried) && BucketsRead(d, k, vvTried)
    && |TriedIds(m)| == TriedAfter(d, k) && |NewIds(m)| == k - TriedAfter(d, k)
  }

  /** No entry that was read has the address of the next one. */
  lemma {:induction false} NextIsUnknown(d: Dump, m: Infos, mapAddr: map<Ip, nat>, k: nat)
    requires k < |All(d)| && AddrOk(m, mapAddr) && EntriesRead(m, d, k)
    requires EntriesOk(d)
    ensures All(d)[k].addr.ip !in mapAddr
  {
    var ip := All(d)[k].addr.ip;
    forall i | 0 <= i < k ensures All(d)[i].addr.ip != ip {
      assert Differ(d, i, k);
    }
    assert ip in mapAddr ==> TargetOk(m, mapAddr, ip);
  }

  lemma {:induction false} LinksStep(d: Dump, m: Infos, mapAddr: map<Ip, nat>, vRandom: seq<nat>, k: nat)
    requires k < |All(d)| && EntriesRead(m, d, k) && |vRandom| == k && RandomOk(m, vRandom) && AddrOk(m, mapAddr)
    requires EntriesOk(d)
    ensures var m' := m[k := ReadInfo(d, k)];
      && EntriesRead(m', d, k + 1) && RandomOk(m', vRandom + [k]) && AddrOk(m', mapAddr[All(d)[k].addr.ip := k])
  {
    NextIsUnknown(d, m, mapAddr, k);
    CreateKeepsLinks(Tables(k, m, mapAddr, vRandom, 0, [], 0, []), ReadInfo(d, k));
  }

  lemma {:induction false} CountStep(m: Infos, k: nat, info: AddrInfo)
    requires k !in m
    ensures |TriedIds(m[k := info])| == |TriedIds(m)| + if info.fInTried then 1 else 0
    ensures |NewIds(m[k := info])| == |NewIds(m)| + if info.fInTried then 0 else 1
  {
    IdsStep(m, k, info);
    assert k !in TriedIds(m) && k !in NewIds(m);
  }

  lemma {:induction false} IdsStep(m: Infos, k: nat, info: AddrInfo)
    requires k !in m
    ensures TriedIds(m[k := info]) == TriedIds(m) + if info.fInTried then {k} else {}
    ensures NewIds(m[k := info]) == NewIds(m) + if info.fInTried then {} else {k}
  {}

  lemma {:induction false} AppendNew(buckets: Buckets, m: Infos, vvTried: seq<seq<nat>>, id: nat, info: AddrInfo)
    requires TriedOk(buckets, m, vvTried) && id !in m && !info.fInTried
    ensures TriedOk(buckets, m[id := info], vvTried)
  {
    var m' := m[id := info];
    forall x | x in m' ensures InTriedBucket(buckets, m', vvTried, x) {
      if x != id {
        assert InTriedBucket(buckets, m, vvTried, x);
      }
    }
    forall b, i | 0 <= b < |vvTried| && 0 <= i < |vvTried[b]| ensures TriedSlotOk(buckets, m', vvTried, b, i) {
      assert TriedSlotOk(buckets, m, vvTried, b, i);
    }
  }

  lemma {:induction false} AppendTried(buckets: Buckets, m: Infos, vvTried: seq<seq<nat>>, id: nat, info: AddrInfo)
    requires TriedOk(buckets, m, vvTried) && id !in m && info.fInTried
    requires |vvTried[buckets.Tried(info)]| < TRIED_BUCKET_SIZE
    ensures var k := buckets.Tried(info);
      TriedOk(buckets, m[id := info], vvTried[k := vvTried[k] + [id]])
  {
    var k := buckets.Tried(info);
    var m', vvTried' := m[id := info], vvTried[k := vvTried[k] + [id]];
    forall x | x in m' ensures InTriedBucket(buckets, m', vvTried', x) {
      assert id in vvTried'[k];
      if x != id {
        assert InTriedBucket(buckets, m, vvTried, x);
      }
    }
    forall b, i | 0 <= b < |vvTried'| && 0 <= i < |vvTried'[b]| ensures TriedSlotOk(buckets, m', vvTried', b, i) {
      if i < |vvTried[b]| {
        assert TriedSlotOk(buckets, m, vvTried, b, i);
      }
    }
    forall b | 0 <= b < |vvTried'| ensures TriedBucketOk(vvTried', b) {
      assert TriedBucketOk(vvTried, b);
      forall i | 0 <= i < |vvTried[b]| ensures vvTried[b][i] != id {
        assert TriedSlotOk(buckets, m, vvTried, b, i);
      }
    }
  }

  lemma {:induction false} BucketedGrows(buckets: Buckets, vTried: seq<Record>, first: nat, k: nat, m: nat)
    requires m <= |vTried|
    ensures |Bucketed(buckets, vTried[..m], first, k)| <= |Bucketed(buckets, vTried, first, k)|
    decreases |vTried|
  {
    if m == |vTried| {
      assert vTried[..m] == vTried;
    } else {
      assert vTried[..|vTried| - 1][..m] == vTried[..m];
      BucketedGrows(buckets, vTried[..|vTried| - 1], first, k, m);
    }
  }

  /** There is room in its bucket for every tried entry. */
  lemma {:induction false} TriedHasRoom(d: Dump, k: nat, vvTried: seq<seq<nat>>)
    requires DumpOk(d) && |d.vNew| <= k < |All(d)| && BucketsRead(d, k, vvTried)
    ensures var b := d.buckets.Tried(ReadInfo(d, k));
      |vvTried[b]| < TRIED_BUCKET_SIZE && BucketsRead(d, k + 1, vvTried[b := vvTried[b] + [k]])
  {
    var b, m := d.buckets.Tried(ReadInfo(d, k)), TriedAfter(d, k);
    BucketedGrows(d.buckets, d.vTried, |d.vNew|, b, m + 1);
    assert d.vTried[..m + 1][..m] == d.vTried[..m];
    assert d.buckets.Tried(Info(d.vTried[m], 0, true, 0)) == b;
  }

  lemma {:induction false} LoadNewStep(d: Dump, k: nat, m: Infos, mapAddr: map<Ip, nat>, vRandom: seq<nat>, vvTried: seq<seq<nat>>)
    requires DumpOk(d) && |vRandom| == k < |d.vNew| && Loaded(d, m, mapAddr, vRandom, vvTried)
    ensures Loaded(d, m[k := ReadInfo(d, k)], mapAddr[All(d)[k].addr.ip := k], vRandom + [k], vvTried)
  {
    LinksStep(d, m, mapAddr, vRandom, k);
    CountStep(m, k, ReadInfo(d, k));
    AppendNew(d.buckets, m, vvTried, k, ReadInfo(d, k));
  }

  /** An entry at the end of the tables. */
  function Appended(s: Tables, info: AddrInfo, b: nat): Tables
    requires b < |s.vvTried|
  {
    s.(vRandom := s.vRandom + [s.nIdCount], mapInfo := s.mapInfo[s.nIdCount := info],
       mapAddr := s.mapAddr[info.addr.ip := s.nIdCount],
       vvTried := s.vvTried[b := s.vvTried[b] + [s.nIdCount]], nIdCount := s.nIdCount + 1)
  }

  lemma {:induction false} LoadTriedStep(d: Dump, m: Infos, s: Tables)
    requires DumpOk(d) && |s.vRandom| == s.nIdCount && |d.vNew| <= s.nIdCount < |All(d)|
    requires Loaded(d, m, s.mapAddr, s.vRandom, s.vvTried)
    ensures var info := ReadInfo(d, s.nIdCount);
      var b := d.buckets.Tried(info);
      && |s.vvTried[b]| < TRIED_BUCKET_SIZE
      && var s' := Appended(s, info, b);
         Loaded(d, m[s.nIdCount := info], s'.mapAddr, s'.vRandom, s'.vvTried)
  {
    var k := s.nIdCount;
    LinksStep(d, m, s.mapAddr, s.vRandom, k);
    CountStep(m, k, ReadInfo(d, k));
    TriedHasRoom(d, k, s.vvTried);
    AppendTried(d.buckets, m, s.vvTried, k, ReadInfo(d, k));
  }

  lemma {:induction false} LoadStart(d: Dump)
    ensures Loaded(d, map[], map[], [], seq(TRIED_BUCKET_COUNT, _ => []))
  {
    var vvTried: seq<seq<nat>> := seq(TRIED_BUCKET_COUNT, _ => []);
    forall b | 0 <= b < |vvTried| ensures TriedBucketOk(vvTried, b) {}
    assert TriedIds(map[]) == {} && NewIds(map[]) == {};
  }

  // ---- counting the references ----

  lemma {:induction false} RefCountAtMost(a: seq<set<nat>>, b: seq<set<nat>>, id: nat)
    requires |a| == |b| && forall c :: 0 <= c < |a| ==> a[c] <= b[c]
    ensures RefCount(a, id) <= RefCount(b, id)
    ensures (exists c :: 0 <= c < |a| && id in b[c] && id !in a[c]) ==> RefCount(a, id) < RefCount(b, id)
  {
    if a != [] {
      var last := |a| - 1;
      RefCountAtMost(a[..last], b[..last], id);
      if c :| 0 <= c < |a| && id in b[c] && id !in a[c] {
        assert c < last ==> id in b[..last][c] && id !in a[..last][c];
      }
    }
  }

  /** The rows before b are read, and the first j places of row b. */
  predicate RowsRead(d: Dump, b: nat, j: nat, vvNew: seq<set<nat>>) {
    && |vvNew| == |d.vvIndex| && b <= |vvNew|
    && (forall c :: 0 <= c < b ==> vvNew[c] == Members(d.vvIndex[c]))
    && (b < |vvNew| ==> j <= |d.vvIndex[b]| && vvNew[b] == Members(d.vvIndex[b][..j]))
    && forall c :: b < c < |vvNew| ==> vvNew[c] == {}
  }

  /** The entries with the references counted so far. */
  ghost predicate Counted(m: Infos, vvNew: seq<set<nat>>, m': Infos) {
    && m'.Keys == m.Keys
    && forall id :: id in m ==> m'[id] == m[id].(nRefCount := RefCount(vvNew, id))
  }

  /** Reading one place: the entry has room for another reference. */
  lemma {:induction false} RefStep(d: Dump, m: Infos, b: nat, j: nat, vvNew: seq<set<nat>>, m': Infos)
    requires DumpOk(d) && EntriesRead(m, d, |All(d)|) && Counted(m, vvNew, m')
    requires SameCount(d) && b < |d.vvIndex| && j < |d.vvIndex[b]| && RowsRead(d, b, j, vvNew)
    ensures var id := d.vvIndex[b][j];
      && id in m' && m'[id].nRefCount < NEW_BUCKETS_PER_ADDRESS
      && RowsRead(d, b, j + 1, vvNew[b := vvNew[b] + {id}])
      && Counted(m, vvNew[b := vvNew[b] + {id}], m'[id := m'[id].(nRefCount := m'[id].nRefCount + 1)])
  {
    var index, id := d.vvIndex[b], d.vvIndex[b][j];
    assert Index(d)[b] == index && RowOk(index, |d.vNew|);
    MembersNext(index, j);
    assert id !in Members(index[..j]);
    RefCountAtMost(vvNew, Rows(Index(d)), id);
    assert id in Rows(Index(d))[b];
    forall x | x in m
      ensures RefCount(vvNew[b := vvNew[b] + {id}], x) == RefCount(vvNew, x) + if x == id then 1 else 0
    {
      RefCountUpdate(vvNew, b, vvNew[b] + {id}, x);
    }
  }

  lemma {:induction false} RowDone(d: Dump, b: nat, vvNew: seq<set<nat>>)
    requires b < |d.vvIndex| && RowsRead(d, b, |d.vvIndex[b]|, vvNew)
    ensures RowsRead(d, b + 1, 0, vvNew)
  {
    assert d.vvIndex[b][..|d.vvIndex[b]|] == d.vvIndex[b];
  }

  /** What is read of a file that loses nothing is consistent. */
  lemma {:induction false} ReadConsistent(d: Dump, m: Infos, s: Tables)
    requires DumpOk(d) && |s.vRandom| == |All(d)| && Loaded(d, m, s.mapAddr, s.vRandom, s.vvTried)
    requires s.vvNew == Rows(Index(d)) && Counted(m, s.vvNew, s.mapInfo)
    requires s.nIdCount == |All(d)| && s.nNew == |d.vNew| && s.nTried == |d.vTried|
    ensures Consistent(d.buckets, s, Nobody)
  {
    ReadLinksOk(d.buckets, m, s);
    ReadNewOk(d, m, s);
    ReadTimesOk(d, m, s);
  }

  lemma {:induction false} ReadLinksOk(buckets: Buckets, m: Infos, s: Tables)
    requires RandomOk(m, s.vRandom) && AddrOk(m, s.mapAddr) && TriedOk(buckets, m, s.vvTried)
    requires Counted(m, s.vvNew, s.mapInfo)
    ensures RandomOk(s.mapInfo, s.vRandom) && AddrOk(s.mapInfo, s.mapAddr) && TriedOk(buckets, s.mapInfo, s.vvTried)
  {
    RemarkKeepsLinks(s.(mapInfo := m), s.mapInfo);
    TriedTouch(buckets, m, s.mapInfo, s.vvTried);
  }

  lemma {:induction false} ReadTimesOk(d: Dump, m: Infos, s: Tables)
    requires DumpOk(d) && EntriesRead(m, d, |All(d)|) && Counted(m, s.vvNew, s.mapInfo)
    ensures forall id {:trigger TimesOk(s.mapInfo, id)} :: id in s.mapInfo ==> TimesOk(s.mapInfo, id)
    ensures TriedIds(s.mapInfo) == TriedIds(m) && NewIds(s.mapInfo) == NewIds(m)
  {
    forall id | id in s.mapInfo ensures TimesOk(s.mapInfo, id) {
      assert s.mapInfo[id].nLastSuccess == All(d)[id].nLastSuccess;
    }
  }

  lemma {:induction false} ReadNewOk(d: Dump, m: Infos, s: Tables)
    requires DumpOk(d) && EntriesRead(m, d, |All(d)|)
    requires s.vvNew == Rows(Index(d)) && Counted(m, s.vvNew, s.mapInfo)
    ensures NewOk(s.mapInfo, s.vvNew, Nobody)
  {
    forall b | 0 <= b < |s.vvNew| ensures NewBucketOk(s.mapInfo, s.vvNew, b) {
      assert RowOk(Index(d)[b], |d.vNew|);
      MembersAtMost(Index(d)[b]);
    }
    forall id | id in s.mapInfo ensures RefsOk(s.mapInfo, s.vvNew, Nobody, id) {
      if id >= |d.vNew| {
        RefCountPositive(s.vvNew, id);
        forall b | 0 <= b < |s.vvNew| ensures id !in s.vvNew[b] {
          assert RowOk(Index(d)[b], |d.vNew|);
        }
      }
    }
  }

  /** The entries and buckets that a file stands for. */
  ghost predicate ReadFrom(d: Dump, s: Tables) {
    && (forall id: nat :: id in s.mapInfo <==> id < |All(d)|)
    && (forall i :: 0 <= i < |All(d)| ==> s.mapInfo[i] == ReadInfo(d, i).(nRefCount := RefCount(s.vvNew, i)))
    && s.vvNew == Rows(Index(d))
  }

  const UNKNOWN := AddrInfo(Service(0, 0), {}, 0, 0, 0, 0, 0, 0, false, -1)

  /** The buckets of new addresses while entries are read: empty, unless entries are put in the
      bucket that the key gives. */
  function Placed(d: Dump, n: nat): (vvNew: seq<set<nat>>)
    requires n <= |d.vNew|
    ensures |vvNew| == NEW_BUCKET_COUNT
    ensures forall b, id :: 0 <= b < |vvNew| && id in vvNew[b] ==> id < n
  {
    if n == 0 || SameCount(d) then seq(NEW_BUCKET_COUNT, _ => {})
    else
      var before := Placed(d, n - 1);
      before[Home(d, n - 1) := before[Home(d, n - 1)] + {n - 1}]
  }

  lemma {:induction false} PlacedAt(d: Dump, n: nat, b: nat)
    requires n <= |d.vNew| && b < NEW_BUCKET_COUNT && !SameCount(d)
    ensures Placed(d, n)[b] == Members(AtHome(d, n, b))
  {
    if n > 0 {
      PlacedAt(d, n - 1, b);
      MembersSnoc(AtHome(d, n - 1, b), n - 1);
    }
  }

  lemma {:induction false} PlacedAll(d: Dump)
    requires !SameCount(d)
    ensures Placed(d, |d.vNew|) == Rows(Index(d))
  {
    forall b | 0 <= b < NEW_BUCKET_COUNT ensures Placed(d, |d.vNew|)[b] == Rows(Index(d))[b] {
      PlacedAt(d, |d.vNew|, b);
    }
  }

  lemma {:induction false} PlacedBelow(d: Dump, n: nat, id: nat)
    requires n <= |d.vNew| && n <= id
    ensures RefCount(Placed(d, n), id) == 0
  {
    RefCountPositive(Placed(d, n), id);
  }

  lemma {:induction false} CountNext(d: Dump, n: nat, m: Infos, m': Infos)
    requires n < |d.vNew| && EntriesRead(m, d, n) && Counted(m, Placed(d, n), m')
    ensures Counted(m[n := ReadInfo(d, n)], Placed(d, n + 1),
                    m'[n := ReadInfo(d, n).(nRefCount := if SameCount(d) then 0 else 1)])
  {
    PlacedBelow(d, n, n);
    if !SameCount(d) {
      var b := Home(d, n);
      forall x: nat ensures RefCount(Placed(d, n + 1), x) == RefCount(Placed(d, n), x) + if x == n then 1 else 0 {
        assert n !in Placed(d, n)[b];
        RefCountUpdate(Placed(d, n), b, Placed(d, n)[b] + {n}, x);
      }
    }
  }

  /** The new entries and n tried entries are read; m holds them before references are counted. */
  ghost predicate TriedRead(d: Dump, m: Infos, n: nat, s: Tables) {
    && |s.vRandom| == s.nIdCount == |d.vNew| + n && s.vvNew == Placed(d, |d.vNew|)
    && Loaded(d, m, s.mapAddr, s.vRandom, s.vvTried)
    && Counted(m, s.vvNew, s.mapInfo)
  }

  /** Reads the new entries. With another number of buckets in the file each is put in the bucket
      that the key gives. The ghost result holds the entries before references are counted. */
  method ReadNew(am: AddrMan, d: Dump) returns (ghost m: Infos)
    requires am.buckets == d.buckets && |am.vvTried| == TRIED_BUCKET_COUNT
    requires am.mapInfo == map[] && am.mapAddr == map[] && am.vRandom == []
    requires am.vvTried == seq(TRIED_BUCKET_COUNT, _ => []) && am.vvNew == seq(NEW_BUCKET_COUNT, _ => {})
    modifies am`mapInfo, am`mapAddr, am`vRandom, am`vvNew, am`nIdCount
    ensures am.vvNew == Placed(d, |d.vNew|)
    ensures DumpOk(d) ==> TriedRead(d, m, 0, am.Now())
  {
    m := map[];
    LoadStart(d);
    for n := 0 to |d.vNew|
      invariant |am.vRandom| == n && am.vvNew == Placed(d, n)
      invariant DumpOk(d) ==> Loaded(d, m, am.mapAddr, am.vRandom, am.vvTried) && Counted(m, am.vvNew, am.mapInfo)
    {
      if DumpOk(d) {
        LoadNewStep(d, n, m, am.mapAddr, am.vRandom, am.vvTried);
        CountNext(d, n, m, am.mapInfo);
      }
      m := m[n := ReadInfo(d, n)];
      ReadOneNew(am, d, n);
    }
    am.nIdCount := |d.vNew|;
  }

  method ReadOneNew(am: AddrMan, d: Dump, n: nat)
    requires am.buckets == d.buckets && n < |d.vNew| && |am.vRandom| == n && |am.vvNew| == NEW_BUCKET_COUNT
    modifies am`mapInfo, am`mapAddr, am`vRandom, am`vvNew
    ensures am.mapInfo == old(am.mapInfo)[n := ReadInfo(d, n).(nRefCount := if SameCount(d) then 0 else 1)]
    ensures am.mapAddr == old(am.mapAddr)[All(d)[n].addr.ip := n] && am.vRandom == old(am.vRandom) + [n]
    ensures am.vvNew == if SameCount(d) then old(am.vvNew)
                        else old(am.vvNew)[Home(d, n) := old(am.vvNew)[Home(d, n)] + {n}]
  {
    var r := d.vNew[n];
    var info := Info(r, 0, false, |am.vRandom|);
    am.mapAddr := am.mapAddr[r.addr.ip := n];
    am.vRandom := am.vRandom + [n];
    if |d.vvIndex| != NEW_BUCKET_COUNT {
      var b := am.buckets.New(info, info.source);
      am.vvNew := am.vvNew[b := am.vvNew[b] + {n}];
      info := info.(nRefCount := info.nRefCount + 1);
    }
    am.mapInfo := am.mapInfo[n := info];
  }

  lemma {:induction false} CountTried(id: nat, info: AddrInfo, m: Infos, vvNew: seq<set<nat>>, m': Infos)
    requires Counted(m, vvNew, m') && id !in m && RefCount(vvNew, id) == 0 && info.nRefCount == 0
    ensures Counted(m[id := info], vvNew, m'[id := info])
  {}

  lemma {:induction false} AppendedCounts(d: Dump, m: Infos, n: nat, s: Tables)
    requires n < |d.vTried| && TriedRead(d, m, n, s)
    ensures var info := ReadInfo(d, s.nIdCount);
      Counted(m[s.nIdCount := info], s.vvNew, s.mapInfo[s.nIdCount := info])
  {
    PlacedBelow(d, |d.vNew|, s.nIdCount);
    CountTried(s.nIdCount, ReadInfo(d, s.nIdCount), m, s.vvNew, s.mapInfo);
  }

  lemma {:induction false} AppendedNext(d: Dump, m: Infos, n: nat, s: Tables)
    requires DumpOk(d) && n < |d.vTried| && TriedRead(d, m, n, s)
    ensures var info := ReadInfo(d, s.nIdCount);
      var b := d.buckets.Tried(info);
      && |s.vvTried[b]| < TRIED_BUCKET_SIZE
      && TriedRead(d, m[s.nIdCount := info], n + 1, Appended(s, info, b))
  {
    LoadTriedStep(d, m, s);
    AppendedCounts(d, m, n, s);
  }

  /** Reads one tried entry, unless its bucket is full. */
  method ReadOneTried(am: AddrMan, d: Dump, n: nat, ghost m: Infos) returns (fLost: bool, ghost m': Infos)
    requires am.buckets == d.buckets && n < |d.vTried| && |am.vvTried| == TRIED_BUCKET_COUNT
    requires DumpOk(d) ==> TriedRead(d, m, n, am.Now())
    modifies am`mapInfo, am`mapAddr, am`vRandom, am`vvTried, am`nIdCount
    ensures |am.vvTried| == TRIED_BUCKET_COUNT
    ensures DumpOk(d) ==> !fLost && TriedRead(d, m', n + 1, am.Now())
  {
    if DumpOk(d) {
      AppendedNext(d, m, n, am.Now());
    }
    var info := Info(d.vTried[n], 0, true, |am.vRandom|);
    var b := am.buckets.Tried(info);
    fLost := |am.vvTried[b]| >= TRIED_BUCKET_SIZE;
    m' := m[am.nIdCount := info];
    if !fLost {
      Append(am, info, b);
    }
  }

  /** Puts an entry at the end of the tables. */
  method Append(am: AddrMan, info: AddrInfo, b: nat)
    requires b < |am.vvTried|
    modifies am`mapInfo, am`mapAddr, am`vRandom, am`vvTried, am`nIdCount
    ensures am.Now() == Appended(old(am.Now()), info, b)
  {
    am.vRandom := am.vRandom + [am.nIdCount];
    am.mapInfo := am.mapInfo[am.nIdCount := info];
    am.mapAddr := am.mapAddr[info.addr.ip := am.nIdCount];
    am.vvTried := am.vvTried[b := am.vvTried[b] + [am.nIdCount]];
    am.nIdCount := am.nIdCount + 1;
  }

  /** Reads the tried entries; one whose bucket is full is lost. */
  method ReadTried(am: AddrMan, d: Dump, ghost m: Infos) returns (nLost: nat, ghost m': Infos)
    requires am.buckets == d.buckets && |am.vvTried| == TRIED_BUCKET_COUNT
    requires DumpOk(d) ==> TriedRead(d, m, 0, am.Now())
    modifies am`mapInfo, am`mapAddr, am`vRandom, am`vvTried, am`nIdCount
    ensures DumpOk(d) ==> nLost == 0 && TriedRead(d, m', |d.vTried|, am.Now())
  {
    nLost, m' := 0, m;
    for n := 0 to |d.vTried|
      invariant |am.vvTried| == TRIED_BUCKET_COUNT
      invariant DumpOk(d) ==> nLost == 0 && TriedRead(d, m', n, am.Now())
    {
      var fLost;
      fLost, m' := ReadOneTried(am, d, n, m');
      nLost := if fLost then nLost + 1 else nLost;
    }
  }

  /** The buckets of new addresses when the rows before b are read, and the first j places of row b. */
  predicate PlacesRead(d: Dump, b: nat, j: nat, vvNew: seq<set<nat>>) {
    if SameCount(d) then RowsRead(d, b, j, vvNew) else vvNew == Rows(Index(d))
  }

  /** Reads one place of a bucket. A place without an entry makes one. */
  method ReadPlace(am: AddrMan, d: Dump, b: nat, j: nat, ghost m: Infos)
    requires |am.vvNew| == NEW_BUCKET_COUNT && b < |d.vvIndex| && j < |d.vvIndex[b]|
    requires DumpOk(d) ==>
               EntriesRead(m, d, |All(d)|) && PlacesRead(d, b, j, am.vvNew) && Counted(m, am.vvNew, am.mapInfo)
    modifies am`mapInfo, am`vvNew
    ensures |am.vvNew| == NEW_BUCKET_COUNT
    ensures DumpOk(d) ==> PlacesRead(d, b, j + 1, am.vvNew) && Counted(m, am.vvNew, am.mapInfo)
  {
    var nIndex := d.vvIndex[b][j];
    if DumpOk(d) && SameCount(d) {
      RefStep(d, m, b, j, am.vvNew, am.mapInfo);
    }
    if nIndex !in am.mapInfo {
      am.mapInfo := am.mapInfo[nIndex := UNKNOWN];
    }
    if |d.vvIndex| == NEW_BUCKET_COUNT && am.mapInfo[nIndex].nRefCount < NEW_BUCKETS_PER_ADDRESS {
      am.mapInfo := am.mapInfo[nIndex := am.mapInfo[nIndex].(nRefCount := am.mapInfo[nIndex].nRefCount + 1)];
      am.vvNew := am.vvNew[b := am.vvNew[b] + {nIndex}];
    }
  }

  /** Reads the buckets of new addresses, counting references, if they can be used as they are. */
  method ReadBuckets(am: AddrMan, d: Dump, ghost m: Infos)
    requires am.vvNew == Placed(d, |d.vNew|)
    requires DumpOk(d) ==> EntriesRead(m, d, |All(d)|) && Counted(m, am.vvNew, am.mapInfo)
    modifies am`mapInfo, am`vvNew
    ensures DumpOk(d) ==> am.vvNew == Rows(Index(d)) && Counted(m, am.vvNew, am.mapInfo)
  {
    if !SameCount(d) {
      PlacedAll(d);
    }
    for b := 0 to |d.vvIndex|
      invariant |am.vvNew| == NEW_BUCKET_COUNT
      invariant DumpOk(d) ==> PlacesRead(d, b, 0, am.vvNew) && Counted(m, am.vvNew, am.mapInfo)
    {
      for j := 0 to |d.vvIndex[b]|
        invariant |am.vvNew| == NEW_BUCKET_COUNT
        invariant DumpOk(d) ==> PlacesRead(d, b, j, am.vvNew) && Counted(m, am.vvNew, am.mapInfo)
      {
        ReadPlace(am, d, b, j, m);
      }
      if DumpOk(d) && SameCount(d) {
        RowDone(d, b, am.vvNew);
      }
    }
  }

  /** The state after the buckets are read as well. */
  lemma {:induction false} ReadEnds(d: Dump, m: Infos, s: Tables, s': Tables)
    requires DumpOk(d) && TriedRead(d, m, |d.vTried|, s)
    requires s.nNew == |d.vNew| && s.nTried == |d.vTried| && s' == s.(mapInfo := s'.mapInfo, vvNew := Rows(Index(d)))
    requires Counted(m, s'.vvNew, s'.mapInfo)
    ensures Consistent(d.buckets, s', Nobody) && ReadFrom(d, s')
  {
    ReadConsistent(d, m, s');
  }

  /** Clears the tables, takes the key, and reads the entries. */
  method ReadEntries(am: AddrMan, d: Dump) returns (nLost: nat, ghost m: Infos)
    modifies am
    ensures am.buckets == d.buckets && am.vvNew == Placed(d, |d.vNew|)
    ensures DumpOk(d) ==> nLost == 0 && TriedRead(d, m, |d.vTried|, am.Now())
    ensures am.nNew == |d.vNew| && am.nTried == |d.vTried| - nLost
  {
    am.buckets := d.buckets;
    am.nNew, am.nTried := |d.vNew|, |d.vTried|;
    am.nIdCount, am.mapInfo, am.mapAddr, am.vRandom := 0, map[], map[], [];
    am.vvTried := seq(TRIED_BUCKET_COUNT, _ => []);
    am.vvNew := seq(NEW_BUCKET_COUNT, _ => {});
    m := ReadNew(am, d);
    nLost, m := ReadTried(am, d, m);
    am.nTried := am.nTried - nLost;
  }

  /** Takes over a file. Nothing is lost from a file that was written for a consistent state, and the
      result is consistent. */
  method Read(am: AddrMan, d: Dump) returns (nLost: nat)
    modifies am
    ensures am.buckets == d.buckets
    ensures DumpOk(d) ==> nLost == 0 && am.Valid() && ReadFrom(d, am.Now())
  {
    ghost var m;
    nLost, m := ReadEntries(am, d);
    ghost var s := am.Now();
    ReadBuckets(am, d, m);
    if DumpOk(d) {
      ReadEnds(d, m, s, am.Now());
    }
  }

  // ---- what is written is read back ----

  /** The identifier that the entry at place i of the file had. */
  function WrittenId(newIds: seq<nat>, triedIds: seq<nat>, i: nat): nat
    requires i < |newIds| + |triedIds|
  {
    if i < |newIds| then newIds[i] else triedIds[i - |newIds|]
  }

  lemma {:induction false} WrittenAt(s: Tables, d: Dump, newIds: seq<nat>, triedIds: seq<nat>, i: nat)
    requires IsDump(s, d, newIds, triedIds) && i < |All(d)|
    ensures |All(d)| == |newIds| + |triedIds|
    ensures var id := WrittenId(newIds, triedIds, i);
      id in s.mapInfo && All(d)[i] == Rec(s.mapInfo[id]) && (s.mapInfo[id].fInTried <==> i >= |d.vNew|)
  {
    if i < |newIds| {
      MemberAt(newIds, i);
    } else {
      MemberAt(triedIds, i - |newIds|);
    }
  }

  /** Every entry is written. */
  lemma {:induction false} WrittenPlace(s: Tables, d: Dump, newIds: seq<nat>, triedIds: seq<nat>, id: nat) returns (i: nat)
    requires IsDump(s, d, newIds, triedIds) && id in s.mapInfo
    ensures i < |All(d)| == |newIds| + |triedIds| && WrittenId(newIds, triedIds, i) == id
  {
    if s.mapInfo[id].fInTried {
      i := MemberIndex(triedIds, id);
      i := |newIds| + i;
    } else {
      i := MemberIndex(newIds, id);
    }
  }

  lemma {:induction false} AddressesDiffer(s: Tables, d: Dump, newIds: seq<nat>, triedIds: seq<nat>, i: nat, j: nat)
    requires Consistent(d.buckets, s, Nobody) && IsDump(s, d, newIds, triedIds) && i < j < |All(d)|
    ensures All(d)[i].addr.ip != All(d)[j].addr.ip
  {
    WrittenAt(s, d, newIds, triedIds, i);
    WrittenAt(s, d, newIds, triedIds, j);
    var a, b := WrittenId(newIds, triedIds, i), WrittenId(newIds, triedIds, j);
    assert KeyOk(s.mapInfo, s.mapAddr, a) && KeyOk(s.mapInfo, s.mapAddr, b);
  }

  lemma {:induction false} RefCountSame(a: seq<set<nat>>, x: nat, b: seq<set<nat>>, y: nat)
    requires |a| == |b| && forall c :: 0 <= c < |a| ==> (x in a[c] <==> y in b[c])
    ensures RefCount(a, x) == RefCount(b, y)
  {
    if a != [] {
      RefCountSame(a[..|a| - 1], x, b[..|b| - 1], y);
    }
  }

  /** An entry is in a row exactly when it was in the bucket. */
  lemma {:induction false} RowSame(s: Tables, d: Dump, newIds: seq<nat>, triedIds: seq<nat>, b: nat, i: nat)
    requires IsDump(s, d, newIds, triedIds) && b < |s.vvNew| && i < |newIds|
    ensures i in Members(d.vvIndex[b]) <==> newIds[i] in s.vvNew[b]
  {
    assert IsIndex(newIds, s.vvNew[b], d.vvIndex[b]);
  }

  /** The tried entries of a bucket among the first m that are written. */
  function TriedIn(buckets: Buckets, mapInfo: Infos, ids: seq<nat>, k: nat): set<nat> {
    set id | id in Members(ids) && id in mapInfo && buckets.Tried(mapInfo[id]) == k
  }

  lemma {:induction false} BucketedSize(buckets: Buckets, mapInfo: Infos, ids: seq<nat>, records: seq<Record>, first: nat, k: nat)
    requires Increasing(ids) && AreRecords(mapInfo, ids, records)
    ensures |Bucketed(buckets, records, first, k)| == |TriedIn(buckets, mapInfo, ids, k)|
    decreases |ids|
  {
    if ids != [] {
      var last := |ids| - 1;
      BucketedSize(buckets, mapInfo, ids[..last], records[..last], first, k);
      NotBefore(ids, last);
      assert ids[..last] + [ids[last]] == ids;
      TriedInNext(buckets, mapInfo, ids[..last], ids[last], k);
      assert buckets.Tried(Info(records[last], 0, true, 0)) == buckets.Tried(mapInfo[ids[last]]);
    }
  }

  lemma {:induction false} TriedInNext(buckets: Buckets, mapInfo: Infos, ids: seq<nat>, id: nat, k: nat)
    requires id in mapInfo && id !in Members(ids)
    ensures |TriedIn(buckets, mapInfo, ids + [id], k)|
            == |TriedIn(buckets, mapInfo, ids, k)| + if buckets.Tried(mapInfo[id]) == k then 1 else 0
  {
    MembersSnoc(ids, id);
    assert TriedIn(buckets, mapInfo, ids + [id], k)
        == TriedIn(buckets, mapInfo, ids, k) + if buckets.Tried(mapInfo[id]) == k then {id} else {};
  }

  lemma {:induction false} WrittenFits(s: Tables, d: Dump, newIds: seq<nat>, triedIds: seq<nat>, k: nat)
    requires Consistent(d.buckets, s, Nobody) && IsDump(s, d, newIds, triedIds) && k < TRIED_BUCKET_COUNT
    ensures |Bucketed(d.buckets, d.vTried, |d.vNew|, k)| <= TRIED_BUCKET_SIZE
  {
    BucketedSize(d.buckets, s.mapInfo, triedIds, d.vTried, |d.vNew|, k);
    var ids := TriedIn(d.buckets, s.mapInfo, triedIds, k);
    forall id | id in ids ensures id in Members(s.vvTried[k]) {
      assert InTriedBucket(d.buckets, s.mapInfo, s.vvTried, id);
    }
    SmallerSet(ids, Members(s.vvTried[k]));
    MembersAtMost(s.vvTried[k]);
    assert TriedBucketOk(s.vvTried, k);
  }

  /** Nothing is lost from what is written for a consistent state. */
  lemma {:induction false} WrittenOk(s: Tables, d: Dump)
    requires Consistent(d.buckets, s, Nobody) && IsFile(s, d)
    ensures DumpOk(d)
  {
    var newIds, triedIds :| IsDump(s, d, newIds, triedIds);
    forall i, j | 0 <= i < j < |All(d)| ensures Differ(d, i, j) {
      AddressesDiffer(s, d, newIds, triedIds, i, j);
    }
    forall i | 0 <= i < |d.vNew|
      ensures d.vNew[i].nLastSuccess >= 0 && 1 <= RefCount(Rows(Index(d)), i) <= NEW_BUCKETS_PER_ADDRESS
    {
      MemberAt(newIds, i);
      assert TimesOk(s.mapInfo, newIds[i]) && RefsOk(s.mapInfo, s.vvNew, Nobody, newIds[i]);
      forall b | 0 <= b < |s.vvNew| ensures i in Rows(d.vvIndex)[b] <==> newIds[i] in s.vvNew[b] {
        RowSame(s, d, newIds, triedIds, b, i);
      }
      RefCountSame(Rows(d.vvIndex), i, s.vvNew, newIds[i]);
    }
    forall i | 0 <= i < |d.vTried| ensures d.vTried[i].nLastSuccess > 0 {
      MemberAt(triedIds, i);
      assert TimesOk(s.mapInfo, triedIds[i]);
    }
    forall b | 0 <= b < NEW_BUCKET_COUNT ensures RowOk(Index(d)[b], |d.vNew|) {
      assert IsIndex(newIds, s.vvNew[b], d.vvIndex[b]) && NewBucketOk(s.mapInfo, s.vvNew, b);
    }
    forall b, j | 0 <= b < |d.vvIndex| && 0 <= j < |d.vvIndex[b]| ensures d.vvIndex[b][j] < |All(d)| {
      assert RowOk(Index(d)[b], |d.vNew|);
    }
    forall k | 0 <= k < TRIED_BUCKET_COUNT ensures |Bucketed(d.buckets, d.vTried, |d.vNew|, k)| <= TRIED_BUCKET_SIZE {
      WrittenFits(s, d, newIds, triedIds, k);
    }
  }

  /** The same knowledge about an address, up to the identifier of its entry, its place in vRandom
      and the time of the last try. */
  ghost predicate SameAbout(s: Tables, s': Tables, ip: Ip) {
    && ip in s.mapAddr && ip in s'.mapAddr
    && var id, id' := s.mapAddr[ip], s'.mapAddr[ip];
    && id in s.mapInfo && id' in s'.mapInfo
    && s'.mapInfo[id'] == s.mapInfo[id].(nLastTry := 0, nRandomPos := s'.mapInfo[id'].nRandomPos)
    && |s'.vvNew| == |s.vvNew| && (forall b :: 0 <= b < |s.vvNew| ==> (id in s.vvNew[b] <==> id' in s'.vvNew[b]))
    && |s'.vvTried| == |s.vvTried| && (forall k :: 0 <= k < |s.vvTried| ==> (id in s.vvTried[k] <==> id' in s'.vvTried[k]))
  }

  /** Membership in a tried bucket is a matter of the entry alone. */
  lemma {:induction false} TriedMember(buckets: Buckets, m: Infos, vvTried: seq<seq<nat>>, id: nat, k: nat)
    requires TriedOk(buckets, m, vvTried) && id in m && k < |vvTried|
    ensures id in vvTried[k] <==> m[id].fInTried && buckets.Tried(m[id]) == k
  {
    assert InTriedBucket(buckets, m, vvTried, id);
    if id in vvTried[k] {
      var i :| 0 <= i < |vvTried[k]| && vvTried[k][i] == id;
      assert TriedSlotOk(buckets, m, vvTried, k, i);
    }
  }

  lemma {:induction false} EntrySame(s: Tables, d: Dump, newIds: seq<nat>, triedIds: seq<nat>, s': Tables, i: nat)
    requires Consistent(d.buckets, s, Nobody) && IsDump(s, d, newIds, triedIds)
    requires Consistent(d.buckets, s', Nobody) && ReadFrom(d, s') && i < |All(d)|
    ensures SameAbout(s, s', All(d)[i].addr.ip)
  {
    WrittenAt(s, d, newIds, triedIds, i);
    var id := WrittenId(newIds, triedIds, i);
    assert KeyOk(s.mapInfo, s.mapAddr, id) && KeyOk(s'.mapInfo, s'.mapAddr, i);
    assert s'.mapInfo[i] == ReadInfo(d, i).(nRefCount := RefCount(s'.vvNew, i));
    forall b | 0 <= b < |s.vvNew| ensures id in s.vvNew[b] <==> i in s'.vvNew[b] {
      if i < |newIds| {
        RowSame(s, d, newIds, triedIds, b, i);
      } else {
        NotInNew(d.buckets, s, b, id);
        NotInNew(d.buckets, s', b, i);
      }
    }
    RefCountSame(s.vvNew, id, s'.vvNew, i);
    assert RefsOk(s.mapInfo, s.vvNew, Nobody, id);
    forall k | 0 <= k < |s.vvTried| ensures id in s.vvTried[k] <==> i in s'.vvTried[k] {
      TriedMember(d.buckets, s.mapInfo, s.vvTried, id, k);
      TriedMember(d.buckets, s'.mapInfo, s'.vvTried, i, k);
    }
  }

  lemma {:induction false} NotInNew(buckets: Buckets, s: Tables, b: nat, id: nat)
    requires Consistent(buckets, s, Nobody) && id in s.mapInfo && s.mapInfo[id].fInTried && b < |s.vvNew|
    ensures id !in s.vvNew[b]
  {
    if id in s.vvNew[b] {
      InBucket(buckets, s, Nobody, b, id);
    }
  }

  lemma {:induction false} AddressSame(s: Tables, d: Dump, newIds: seq<nat>, triedIds: seq<nat>, s': Tables, ip: Ip)
    requires Consistent(d.buckets, s, Nobody) && IsDump(s, d, newIds, triedIds)
    requires Consistent(d.buckets, s', Nobody) && ReadFrom(d, s') && ip in s.mapAddr
    ensures SameAbout(s, s', ip)
  {
    assert TargetOk(s.mapInfo, s.mapAddr, ip);
    var i := WrittenPlace(s, d, newIds, triedIds, s.mapAddr[ip]);
    WrittenAt(s, d, newIds, triedIds, i);
    EntrySame(s, d, newIds, triedIds, s', i);
  }

  lemma {:induction false} AddressKnown(s: Tables, d: Dump, newIds: seq<nat>, triedIds: seq<nat>, s': Tables, ip: Ip)
    requires Consistent(d.buckets, s, Nobody) && IsDump(s, d, newIds, triedIds)
    requires Consistent(d.buckets, s', Nobody) && ReadFrom(d, s') && ip in s'.mapAddr
    ensures ip in s.mapAddr
  {
    assert TargetOk(s'.mapInfo, s'.mapAddr, ip);
    var i := s'.mapAddr[ip];
    assert s'.mapInfo[i].addr == All(d)[i].addr;
    EntrySame(s, d, newIds, triedIds, s', i);
  }

  /** Writing a consistent state and reading the file loses no address and nothing else that is
      written: each is in the same buckets of new addresses and in the same tried bucket as before. */
  lemma {:induction false} WriteRead(s: Tables, d: Dump, s': Tables)
    requires Consistent(d.buckets, s, Nobody) && IsFile(s, d)
    requires Consistent(d.buckets, s', Nobody) && ReadFrom(d, s')
    ensures s'.mapAddr.Keys == s.mapAddr.Keys
    ensures forall ip :: ip in s.mapAddr ==> SameAbout(s, s', ip)
  {
    var newIds, triedIds :| IsDump(s, d, newIds, triedIds);
    forall ip | ip in s.mapAddr ensures SameAbout(s, s', ip) {
      AddressSame(s, d, newIds, triedIds, s', ip);
    }
    forall ip | ip in s'.mapAddr ensures ip in s.mapAddr {
      AddressKnown(s, d, newIds, triedIds, s', ip);
    }
  }

  /** Writing one manager and reading the file into another: nothing is lost, and both know the same
      of every address and have the same buckets. */
  method CopyTo(am: AddrMan, copy: AddrMan) returns (nLost: nat)
    requires am.Valid() && copy != am
    modifies copy
    ensures nLost == 0 && copy.Valid() && copy.buckets == am.buckets
    ensures copy.mapAddr.Keys == am.mapAddr.Keys
    ensures forall ip :: ip in am.mapAddr ==> SameAbout(am.Now(), copy.Now(), ip)
  {
    var d := Write(am);
    WrittenOk(am.Now(), d);
    nLost := Read(copy, d);
    WriteRead(am.Now(), d, copy.Now());
  }

  // ---- files with another number of buckets ----

  predicate HomesFit(d: Dump) {
    forall b :: 0 <= b < NEW_BUCKET_COUNT ==> |AtHome(d, |d.vNew|, b)| <= NEW_BUCKET_SIZE
  }

  lemma {:induction false} RowsOkIff(d: Dump)
    requires !SameCount(d)
    ensures RowsOk(d) <==> HomesFit(d)
  {
    assert forall b :: 0 <= b < NEW_BUCKET_COUNT ==> Index(d)[b] == AtHome(d, |d.vNew|, b);
    if RowsOk(d) {
      forall b | 0 <= b < NEW_BUCKET_COUNT ensures |AtHome(d, |d.vNew|, b)| <= NEW_BUCKET_SIZE {
        assert RowOk(Index(d)[b], |d.vNew|);
      }
    }
  }

  /** Such a file loses nothing exactly if the key gives no bucket more than it holds. */
  lemma {:induction false} RehashedOkIff(d: Dump)
    requires !SameCount(d) && EntriesOk(d) && PlacesKnown(d) && TriedFit(d)
    ensures DumpOk(d) <==> HomesFit(d)
    ensures forall i :: 0 <= i < |d.vNew| ==> RefCount(Rows(Index(d)), i) == 1
  {
    PlacedAll(d);
    forall i | 0 <= i < |d.vNew| ensures RefCount(Rows(Index(d)), i) == 1 {
      OneHome(d, i, |d.vNew|);
    }
    RowsOkIff(d);
  }

  lemma {:induction false} OneHome(d: Dump, i: nat, n: nat)
    requires i < n <= |d.vNew| && !SameCount(d)
    ensures RefCount(Placed(d, n), i) == 1
    decreases n
  {
    var before, b := Placed(d, n - 1), Home(d, n - 1);
    assert n - 1 !in before[b];
    RefCountUpdate(before, b, before[b] + {n - 1}, i);
    if i == n - 1 {
      PlacedBelow(d, i, i);
    } else {
      OneHome(d, i, n - 1);
    }
  }
}
