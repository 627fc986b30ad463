/**
 The address manager (CAddrMan in src/addrman.h and src/addrman.cpp), updating its tables in place.
 Random choices are any value in their range.
 */
module AddrMan {
  import opened AddrTables
  import opened AddrChecks
  import opened Numbers
  import opened Sequences

  const HORIZON_DAYS := 30
  const RETRIES := 3
  const MAX_FAILURES := 10
  const MIN_FAIL_DAYS := 7
  const TRIED_ENTRIES_INSPECT_ON_EVICT := 4
  const GETADDR_MAX_PCT := 23
  const GETADDR_MAX := 2500

  /** An address as a peer reports it. */
  datatype Address = Address(addr: Service, nServices: Services, nTime: int, fRoutable: bool)

  /** An entry that was not tried in the last minute, and whose time lies more than ten minutes ahead,
      is not known, or lies more than thirty days back, or that was tried three times and never worked,
      or ten times without success in the last week. */
  predicate IsTerrible(info: AddrInfo, nNow: int) {
    && (info.nLastTry == 0 || nNow - info.nLastTry > 60)
    && (|| info.nTime - nNow > 600 || info.nTime == 0 || nNow - info.nTime > 2_592_000
        || (info.nAttempts >= 3 && info.nLastSuccess == 0)
        || (info.nAttempts >= 10 && nNow - info.nLastSuccess > 604_800))
  }

  method Terrible(info: AddrInfo, nNow: int) returns (fTerrible: bool)
    ensures fTerrible == IsTerrible(info, nNow)
  {
    if info.nLastTry != 0 && info.nLastTry >= nNow - 60 { return false; }
    if info.nTime > nNow + 10 * 60 { return true; }
    if info.nTime == 0 || nNow - info.nTime > HORIZON_DAYS * 86400 { return true; }
    if info.nLastSuccess == 0 && info.nAttempts >= RETRIES { return true; }
    if nNow - info.nLastSuccess > MIN_FAIL_DAYS * 86400 && info.nAttempts >= MAX_FAILURES { return true; }
    return false;
  }

  method GetRandInt(nMax: nat) returns (r: nat)
    requires nMax > 0
    ensures r < nMax
  {
    r :| r < nMax;
  }

  predicate Increasing(r: seq<nat>) {
    forall i, j :: 0 <= i < j < |r| ==> r[i] < r[j]
  }

  lemma {:induction false} MemberAt(r: seq<nat>, i: nat)
    requires i < |r|
    ensures r[i] in Members(r)
  {}

  lemma {:induction false} IncreasingSnoc(r: seq<nat>, id: nat)
    requires Increasing(r) && forall i :: 0 <= i < |r| ==> r[i] < id
    ensures Increasing(r + [id])
  {}

  predicate PartOrdered(ids: set<nat>, r: seq<nat>, rest: set<nat>) {
    Members(r) + rest == ids && Increasing(r) && AllBelow(Members(r), rest)
  }

  lemma {:induction false} OrderStep(ids: set<nat>, r: seq<nat>, rest: set<nat>, id: nat)
    requires PartOrdered(ids, r, rest) && id in rest && AtMostAll(id, rest)
    ensures PartOrdered(ids, r + [id], rest - {id})
  {
    MembersSnoc(r, id);
    forall i | 0 <= i < |r| ensures r[i] < id {
      MemberAt(r, i);
    }
    IncreasingSnoc(r, id);
    MoveMember(Members(r), rest, id);
  }

  lemma {:induction false} MoveMember(done: set<nat>, rest: set<nat>, id: nat)
    requires id in rest && AtMostAll(id, rest) && AllBelow(done, rest)
    ensures done + {id} + (rest - {id}) == done + rest
    ensures AllBelow(done + {id}, rest - {id})
  {
    forall x, y | x in done + {id} && y in rest - {id} ensures x < y {
      assert id <= y;
    }
  }

  /** The members of a bucket or table, as its iterator visits them. */
  method InOrder(ids: set<nat>) returns (r: seq<nat>)
    ensures Members(r) == ids && Increasing(r) && |r| == |ids|
  {
    r := [];
    var rest := ids;
    while rest != {}
      invariant PartOrdered(ids, r, rest) && |r| + |rest| == |ids|
      decreases |rest|
    {
      MinExists(rest);
      var id :| id in rest && AtMostAll(id, rest);
      OrderStep(ids, r, rest, id);
      r, rest := r + [id], rest - {id};
    }
  }

  predicate AllBelow(a: set<nat>, b: set<nat>) {
    forall x, y :: x in a && y in b ==> x < y
  }

  predicate AtMostAll(id: nat, s: set<nat>) {
    forall x :: x in s ==> id <= x
  }

  lemma {:induction false} MinExists(s: set<nat>)
    requires s != {}
    ensures exists m :: m in s && AtMostAll(m, s)
    decreases |s|
  {
    var a :| a in s;
    var rest := s - {a};
    if rest == {} {
      forall x | x in s ensures a <= x {
        assert x == a || x in rest;
      }
      assert AtMostAll(a, s);
    } else {
      MinExists(rest);
      var b :| b in rest && AtMostAll(b, rest);
      var m := if a < b then a else b;
      forall x | x in s ensures m <= x {
        assert x == a || x in rest;
      }
      assert m in s && AtMostAll(m, s);
    }
  }

  /** Only one entry is changed, and only by losing a reference, with the last of which it goes. */
  ghost predicate LosesAtMost(mapInfo: Infos, mapInfo': Infos, id: nat) {
    && id in mapInfo && !mapInfo[id].fInTried
    && mapInfo'.Keys == (if mapInfo[id].nRefCount == 1 then mapInfo.Keys - {id} else mapInfo.Keys)
    && (forall x :: x in mapInfo' && x != id ==> SameRecord(mapInfo[x], mapInfo'[x]))
    && (id in mapInfo' ==> mapInfo'[id] == mapInfo[id].(nRefCount := mapInfo[id].nRefCount - 1))
  }

  /** What is known about a member of a bucket of new addresses. */
  lemma {:induction false} InBucket(buckets: Buckets, s: Tables, pending: Pending, b: nat, id: nat)
    requires Consistent(buckets, s, pending) && b < NEW_BUCKET_COUNT && id in s.vvNew[b]
    ensures id in s.mapInfo && !s.mapInfo[id].fInTried && s.mapInfo[id].nRefCount >= 1
    ensures 0 <= s.mapInfo[id].nRandomPos < |s.vRandom| && s.vRandom[s.mapInfo[id].nRandomPos] == id
  {
    assert NewBucketOk(s.mapInfo, s.vvNew, b);
    assert RefsOk(s.mapInfo, s.vvNew, pending, id) && PosOk(s.mapInfo, s.vRandom, id);
    RefCountPositive(s.vvNew, id);
  }

  /** Going round the buckets from anywhere meets each. */
  lemma {:induction false} RoundMeetsAll(b: nat, nRnd: nat) returns (n: nat)
    requires b < NEW_BUCKET_COUNT && nRnd < NEW_BUCKET_COUNT
    ensures n < NEW_BUCKET_COUNT && (n + nRnd) % NEW_BUCKET_COUNT == b
  {
    n := if b >= nRnd then b - nRnd else b - nRnd + NEW_BUCKET_COUNT;
  }

  /** An entry that is not tried is in some bucket of new addresses. */
  lemma {:induction false} NewSomewhere(buckets: Buckets, s: Tables, id: nat) returns (b: nat)
    requires Consistent(buckets, s, Nobody) && id in s.mapInfo && !s.mapInfo[id].fInTried
    ensures b < NEW_BUCKET_COUNT && id in s.vvNew[b]
  {
    assert RefsOk(s.mapInfo, s.vvNew, Nobody, id);
    RefCountPositive(s.vvNew, id);
    b :| 0 <= b < |s.vvNew| && id in s.vvNew[b];
  }

  /** Some entry is known under exactly this address and port. */
  ghost predicate Known(s: Tables, addr: Service) {
    addr.ip in s.mapAddr && s.mapAddr[addr.ip] in s.mapInfo && s.mapInfo[s.mapAddr[addr.ip]].addr == addr
  }

  /** The entry of an address that was just added: as it was reported, in the bucket for it and for
      who reported it, and in no other. */
  ghost predicate IsAdded(s: Tables, buckets: Buckets, addr: Address, source: Ip, nTimePenalty: int) {
    && Known(s, addr.addr)
    && var id := s.mapAddr[addr.addr.ip];
    && SameRecord(s.mapInfo[id],
                  AddrInfo(addr.addr, addr.nServices, Max(0, addr.nTime - nTimePenalty), source, 0, 0, 0, 1, false, 0))
    && |s.vvNew| == NEW_BUCKET_COUNT && id in s.vvNew[buckets.newHash(addr.addr.ip, source) % NEW_BUCKET_COUNT]
  }

  /** The entry of an address that was known and is reported again: as Refreshed says, and with at
      most one reference more, which takes news and is from the bucket for who reported it. */
  ghost predicate IsReported(s: Tables, s': Tables, buckets: Buckets, addr: Address, source: Ip, nTimePenalty: int, nNow: int) {
    && addr.addr.ip in s.mapAddr && s.mapAddr[addr.addr.ip] in s.mapInfo && s.mapAddr[addr.addr.ip] in s'.mapInfo
    && var id := s.mapAddr[addr.addr.ip];
    && var info := Refreshed(s.mapInfo[id], addr, nTimePenalty, nNow);
    || s' == s.(mapInfo := s.mapInfo[id := info])
    || (&& IsNews(info, addr) && !info.fInTried && info.nRefCount < NEW_BUCKETS_PER_ADDRESS
        && SameRecord(info.(nRefCount := info.nRefCount + 1), s'.mapInfo[id])
        && |s.vvNew| == |s'.vvNew| == NEW_BUCKET_COUNT
        && id !in s.vvNew[buckets.New(info, source)] && id in s'.vvNew[buckets.New(info, source)])
  }

  /** An entry is in the bucket for it and a peer, with one reference more if it was not there. */
  ghost predicate GotBucket(buckets: Buckets, s: Tables, s': Tables, id: nat, source: Ip) {
    && id in s.mapInfo && id in s'.mapInfo && |s.vvNew| == |s'.vvNew| == NEW_BUCKET_COUNT
    && var info := s.mapInfo[id];
    && var b := buckets.New(info, source);
    && id in s'.vvNew[b]
    && if id in s.vvNew[b] then s' == s else SameRecord(info.(nRefCount := info.nRefCount + 1), s'.mapInfo[id])
  }

  lemma {:induction false} GotBucketReported(buckets: Buckets, s: Tables, s1: Tables, s': Tables, addr: Address, source: Ip,
                                             nTimePenalty: int, nNow: int)
    requires addr.addr.ip in s.mapAddr && s.mapAddr[addr.addr.ip] in s.mapInfo
    requires var id := s.mapAddr[addr.addr.ip];
      && var info := Refreshed(s.mapInfo[id], addr, nTimePenalty, nNow);
      && s1 == s.(mapInfo := s.mapInfo[id := info]) && GotBucket(buckets, s1, s', id, source)
      && IsNews(info, addr) && !info.fInTried && info.nRefCount < NEW_BUCKETS_PER_ADDRESS
    ensures IsReported(s, s', buckets, addr, source, nTimePenalty, nNow)
  {}

  /** Every entry but these two is as it was. */
  ghost predicate OthersStay(mapInfo: Infos, mapInfo': Infos, id: nat, victim: nat) {
    forall x :: x in mapInfo && x != id && x != victim ==> x in mapInfo' && SameRecord(mapInfo[x], mapInfo'[x])
  }

  /** An entry became tried; when its bucket was full, one entry of the bucket went back to the new
      addresses. Nothing else changed. */
  ghost predicate BecameTried(mapInfo: Infos, mapInfo': Infos, id: nat, bucket: seq<nat>) {
    && id in mapInfo
    && if |bucket| < TRIED_BUCKET_SIZE then mapInfo' == mapInfo[id := AsTried(mapInfo[id])]
       else exists evicted :: evicted in bucket && Exchanged(mapInfo, mapInfo', id, evicted)
  }

  ghost predicate Exchanged(mapInfo: Infos, mapInfo': Infos, id: nat, evicted: nat) {
    && id in mapInfo && evicted in mapInfo && id != evicted
    && mapInfo' == mapInfo[evicted := AsNew(mapInfo[evicted])][id := AsTried(mapInfo[id])]
  }

  /** The entry noted as working at nTime. */
  function Worked(info: AddrInfo, nTime: int): AddrInfo {
    info.(nLastSuccess := nTime, nLastTry := nTime, nTime := nTime, nAttempts := 0)
  }

  /** Whether entries at these places can be drawn from a bucket one after the other. */
  predicate Drawable(bucket: seq<nat>, places: seq<nat>) {
    |places| <= |bucket| && forall i :: 0 <= i < |places| ==> i <= places[i] < |bucket|
  }

  /** A bucket after the i-th draw exchanged the i-th place with places[i], for each i. */
  function Drawn(bucket: seq<nat>, places: seq<nat>): (r: seq<nat>)
    requires Drawable(bucket, places)
    ensures |r| == |bucket| && multiset(r) == multiset(bucket)
  {
    if places == [] then bucket
    else
      var i := |places| - 1;
      var before := Drawn(bucket, places[..i]);
      before[places[i] := before[i]][i := before[places[i]]]
  }

  /** One more draw. The entries drawn before stay where they are. */
  lemma {:induction false} DrawNext(bucket: seq<nat>, places: seq<nat>, nPos: nat)
    requires Drawable(bucket, places) && |places| <= nPos < |bucket|
    ensures Drawable(bucket, places + [nPos])
    ensures var i, d := |places|, Drawn(bucket, places);
      Drawn(bucket, places + [nPos]) == d[nPos := d[i]][i := d[nPos]]
  {
    assert (places + [nPos])[..|places|] == places;
  }

  /** Among the first n entries of a bucket, the one at place w is the first that was seen to work
      longest ago. */
  predicate IsOldest(mapInfo: Infos, bucket: seq<nat>, n: nat, w: nat) {
    && w < n <= |bucket| && (forall j :: 0 <= j < n ==> bucket[j] in mapInfo)
    && (forall j :: 0 <= j < n ==> mapInfo[bucket[w]].nLastSuccess <= mapInfo[bucket[j]].nLastSuccess)
    && forall j :: 0 <= j < w ==> mapInfo[bucket[w]].nLastSuccess < mapInfo[bucket[j]].nLastSuccess
  }

  /** A bucket as it was at first and as it is after draws; the oldest of the entries drawn is now at
      place w, and was at nOldestPos before its draw. */
  predicate Picked(mapInfo: Infos, start: seq<nat>, bucket: seq<nat>, places: seq<nat>, nOldestPos: nat, w: nat) {
    && Drawable(start, places) && bucket == Drawn(start, places)
    && w < |places| && nOldestPos == places[w] && IsOldest(mapInfo, bucket, |places|, w)
  }

  predicate Selected(mapInfo: Infos, start: seq<nat>, bucket: seq<nat>, places: seq<nat>, nOldest: int, nOldestPos: nat, w: nat) {
    if places == [] then nOldest == -1 && bucket == start
    else Picked(mapInfo, start, bucket, places, nOldestPos, w) && nOldest == bucket[w]
  }

  lemma {:induction false} SelectedNext(mapInfo: Infos, start: seq<nat>, bucket: seq<nat>, places: seq<nat>,
                                        nOldest: int, nOldestPos: nat, w: nat, nPos: nat)
    requires Selected(mapInfo, start, bucket, places, nOldest, nOldestPos, w) && |places| <= nPos < |bucket|
    requires bucket[nPos] in mapInfo
    ensures var i, nTemp := |places|, bucket[nPos];
      var better := nOldest == -1 || mapInfo[nTemp].nLastSuccess < mapInfo[nOldest].nLastSuccess;
      Selected(mapInfo, start, bucket[nPos := bucket[i]][i := nTemp], places + [nPos],
               if better then nTemp else nOldest, if better then nPos else nOldestPos, if better then i else w)
  {
    DrawNext(start, places, nPos);
    var i := |places|;
    OldestNext(mapInfo, bucket, bucket[nPos := bucket[i]][i := bucket[nPos]], i, w);
  }

  /** A place in a bucket holds the entry at place w only if it is place w. */
  lemma {:induction false} HoldsOldestIff(vvTried: seq<seq<nat>>, k: nat, nPos: nat, w: nat)
    requires k < |vvTried| && TriedBucketOk(vvTried, k) && nPos < |vvTried[k]| && w < |vvTried[k]|
    ensures vvTried[k][nPos] == vvTried[k][w] <==> nPos == w
  {}

  /** The place that SelectTried returns need not hold the entry that was seen to work longest ago:
      when that is drawn first, from the fifth place, and the next ones stay in place, the place that
      is returned holds the entry that was first, however recently that was seen to work. */
  lemma {:induction false} SelectsAnother(mapInfo: Infos, bucket: seq<nat>, places: seq<nat>)
    requires |bucket| >= 5 && forall i :: 0 <= i < |bucket| ==> bucket[i] in mapInfo
    requires forall i :: 0 <= i < 4 ==> mapInfo[bucket[4]].nLastSuccess < mapInfo[bucket[i]].nLastSuccess
    requires |places| == 4 && places[0] == 4 && forall i :: 1 <= i < 4 ==> places[i] == i
    ensures Drawable(bucket, places)
    ensures var drawn := Drawn(bucket, places);
      && IsOldest(mapInfo, drawn, 4, 0) && drawn[places[0]] == bucket[0]
      && mapInfo[drawn[0]].nLastSuccess < mapInfo[drawn[places[0]]].nLastSuccess
  {
    FirstDraw(bucket, places, 4);
    assert places[..4] == places;
    var drawn := Drawn(bucket, places);
    assert forall j :: 1 <= j < 4 ==> drawn[j] == bucket[j];
  }

  lemma {:induction false} DrawSame(bucket: seq<nat>, places: seq<nat>)
    requires Drawable(bucket, places) && |places| < |bucket|
    ensures Drawable(bucket, places + [|places|]) && Drawn(bucket, places + [|places|]) == Drawn(bucket, places)
  {
    DrawNext(bucket, places, |places|);
    var i, d := |places|, Drawn(bucket, places);
    assert d[i := d[i]][i := d[i]] == d;
  }

  /** Draws that leave entries in place change nothing. */
  lemma {:induction false} FirstDraw(bucket: seq<nat>, places: seq<nat>, k: nat)
    requires 1 <= k <= |places| <= |bucket| && places[0] < |bucket|
    requires forall i :: 1 <= i < |places| ==> places[i] == i
    ensures Drawable(bucket, places[..k])
    ensures Drawn(bucket, places[..k]) == bucket[places[0] := bucket[0]][0 := bucket[places[0]]]
  {
    ghost var front := places[..k - 1];
    assert places[..k] == front + [places[k - 1]];
    if k == 1 {
      DrawNext(bucket, front, places[0]);
    } else {
      FirstDraw(bucket, places, k - 1);
      DrawSame(bucket, front);
    }
  }

  /** Where an entry goes back to that leaves the tried addresses for another: to the bucket for it if
      that has room without the other, and else to one that the other leaves. */
  function RoomFor(buckets: Buckets, s: Tables, id: nat, nOrigin: nat, evicted: nat): nat
    requires evicted in s.mapInfo && |s.vvNew| == NEW_BUCKET_COUNT
  {
    var b := buckets.New(s.mapInfo[evicted], s.mapInfo[evicted].source);
    if |s.vvNew[b] - {id}| < NEW_BUCKET_SIZE then b else nOrigin
  }

  /** An entry was moved to the tried addresses: into its bucket, or when that was full, into the
      place that the oldest of the entries drawn was drawn from, instead of the entry that is there
      after the draws. */
  ghost predicate MovedToTried(buckets: Buckets, s: Tables, s': Tables, id: nat, nOrigin: nat, places: seq<nat>, w: nat) {
    && id in s.mapInfo && |s.vvTried| == TRIED_BUCKET_COUNT && |s.vvNew| == NEW_BUCKET_COUNT && nOrigin < NEW_BUCKET_COUNT
    && var k := buckets.Tried(s.mapInfo[id]);
    && if |s.vvTried[k]| < TRIED_BUCKET_SIZE then s' == Placed(s, id, k)
       else
         && Drawable(s.vvTried[k], places) && |places| == TRIED_ENTRIES_INSPECT_ON_EVICT
         && var bucket := Drawn(s.vvTried[k], places);
         && IsOldest(s.mapInfo, bucket, |places|, w)
         && bucket[places[w]] in s.mapInfo
         && s' == Replaced(s.(vvTried := s.vvTried[k := bucket]), id, k, places[w], RoomFor(buckets, s, id, nOrigin, bucket[places[w]]))
  }

  /** An entry and a place in a tried bucket that it can take. */
  predicate Evictable(s: Tables, id: nat, k: nat, pos: nat, nOrigin: nat) {
    && id in s.mapInfo && k < |s.vvTried| && pos < |s.vvTried[k]| && s.vvTried[k][pos] in s.mapInfo && s.vvTried[k][pos] != id
    && |s.vvNew| == NEW_BUCKET_COUNT && nOrigin < |s.vvNew|
  }

  /** The state after an entry that was taken out of all buckets takes a place in a tried bucket, from
      which another goes back to the new addresses. */
  function Evicted(buckets: Buckets, s: Tables, id: nat, k: nat, pos: nat, nOrigin: nat): Tables
    requires Evictable(s, id, k, pos, nOrigin)
  {
    var evicted := s.vvTried[k][pos];
    var tried: seq<nat> := s.vvTried[k][pos := id];
    var home := buckets.New(s.mapInfo[evicted], s.mapInfo[evicted].source);
    var b := if |s.vvNew[home]| < NEW_BUCKET_SIZE then home else nOrigin;
    s.(mapInfo := s.mapInfo[evicted := AsNew(s.mapInfo[evicted])][id := s.mapInfo[id].(fInTried := true)],
       vvNew := s.vvNew[b := s.vvNew[b] + {evicted}], vvTried := s.vvTried[k := tried], nNew := s.nNew + 1)
  }

  /** What the assignments of MakeTried come to: s' is the state in the middle of it. */
  lemma {:induction false} EvictedIsReplaced(buckets: Buckets, s: Tables, s': Tables, id: nat, k: nat, pos: nat, nOrigin: nat)
    requires Consistent(buckets, s, Nobody) && id in s.mapInfo && !s.mapInfo[id].fInTried && s.mapInfo[id].nLastSuccess > 0
    requires k == buckets.Tried(s.mapInfo[id]) && pos < |s.vvTried[k]| && nOrigin < NEW_BUCKET_COUNT && id in s.vvNew[nOrigin]
    requires s' == s.(mapInfo := s.mapInfo[id := s.mapInfo[id].(nRefCount := 0)], vvNew := Without(s.vvNew, id), nNew := s.nNew - 1)
    ensures Evictable(s', id, k, pos, nOrigin)
    ensures var b := RoomFor(buckets, s, id, nOrigin, s.vvTried[k][pos]);
      && Evicted(buckets, s', id, k, pos, nOrigin) == Replaced(s, id, k, pos, b)
      && Consistent(buckets, Replaced(s, id, k, pos, b), Nobody)
  {
    var evicted := s.vvTried[k][pos];
    assert TriedSlotOk(buckets, s.mapInfo, s.vvTried, k, pos);
    assert NewBucketOk(s.mapInfo, s.vvNew, nOrigin);
    ReplacedKeeps(buckets, s, id, k, pos, RoomFor(buckets, s, id, nOrigin, evicted));
    ReplacedInfos(s.mapInfo, id, evicted);
  }

  lemma {:induction false} MovedBecomes(buckets: Buckets, s: Tables, s': Tables, id: nat, nOrigin: nat, places: seq<nat>, w: nat)
    requires Consistent(buckets, s, Nobody) && MovedToTried(buckets, s, s', id, nOrigin, places, w)
    requires !s.mapInfo[id].fInTried
    ensures s'.mapInfo.Keys == s.mapInfo.Keys && s'.mapInfo[id] == AsTried(s.mapInfo[id])
    ensures BecameTried(s.mapInfo, s'.mapInfo, id, s.vvTried[buckets.Tried(s.mapInfo[id])])
  {
    var k := buckets.Tried(s.mapInfo[id]);
    if |s.vvTried[k]| >= TRIED_BUCKET_SIZE {
      var evicted := Drawn(s.vvTried[k], places)[places[w]];
      assert evicted in multiset(s.vvTried[k]);
      var i :| 0 <= i < |s.vvTried[k]| && s.vvTried[k][i] == evicted;
      assert TriedSlotOk(buckets, s.mapInfo, s.vvTried, k, i);
      assert Exchanged(s.mapInfo, s'.mapInfo, id, evicted);
    }
  }

  /** Of the members at some places of a bucket, in order, one that was seen longest ago. */
  ghost predicate OldestAt(mapInfo: Infos, bucket: set<nat>, vNew: seq<nat>, n: seq<nat>, nOldest: nat) {
    && Members(vNew) == bucket && Increasing(vNew) && (forall k :: 0 <= k < |n| ==> n[k] < |vNew| && vNew[n[k]] in mapInfo)
    && (exists k :: 0 <= k < |n| && nOldest == vNew[n[k]])
    && nOldest in mapInfo && forall k :: 0 <= k < |n| ==> mapInfo[nOldest].nTime <= mapInfo[vNew[n[k]]].nTime
  }

  lemma {:induction false} OldestNext(mapInfo: Infos, before: seq<nat>, after: seq<nat>, i: nat, w: nat)
    requires i < |after| == |before| && after[i] in mapInfo && forall j :: 0 <= j < i ==> after[j] == before[j]
    requires i > 0 ==> IsOldest(mapInfo, before, i, w)
    ensures var better := i == 0 || mapInfo[after[i]].nLastSuccess < mapInfo[before[w]].nLastSuccess;
      IsOldest(mapInfo, after, i + 1, if better then i else w)
  {}

  /** The entries at the first places of vRandom, in order; they are distinct. */
  ghost predicate Chosen(s: Tables, vAddr: seq<AddrInfo>) {
    && |vAddr| <= |s.vRandom|
    && forall n :: 0 <= n < |vAddr| ==> s.vRandom[n] in s.mapInfo && vAddr[n] == s.mapInfo[s.vRandom[n]] && vAddr[n].nRandomPos == n
  }

  lemma {:induction false} ChosenStay(buckets: Buckets, s: Tables, p: nat, q: nat, vAddr: seq<AddrInfo>)
    requires Consistent(buckets, s, Nobody) && Chosen(s, vAddr) && |vAddr| <= p <= q < |s.vRandom|
    ensures s.vRandom[p] in s.mapInfo && s.vRandom[q] in s.mapInfo
    ensures Chosen(Swapped(s, p, q), vAddr)
  {
    assert SlotOk(s.mapInfo, s.vRandom, p) && SlotOk(s.mapInfo, s.vRandom, q);
    var s' := Swapped(s, p, q);
    forall n | 0 <= n < |vAddr|
      ensures s'.vRandom[n] in s'.mapInfo && vAddr[n] == s'.mapInfo[s'.vRandom[n]] && vAddr[n].nRandomPos == n
    {
      assert SlotOk(s.mapInfo, s.vRandom, n);
    }
  }

  // ---- the checks of Check_ ----

  function TriedAmong(mapInfo: Infos, ids: set<nat>): set<nat>
    requires ids <= mapInfo.Keys
  {
    set id | id in ids && mapInfo[id].fInTried
  }

  lemma {:induction false} CountSizes(mapInfo: Infos)
    ensures |RefCounts(mapInfo, mapInfo.Keys)| == |NewIds(mapInfo)|
    ensures TriedAmong(mapInfo, mapInfo.Keys) == TriedIds(mapInfo)
  {
    assert RefCounts(mapInfo, mapInfo.Keys).Keys == NewIds(mapInfo);
  }

  lemma {:induction false} NotBefore(r: seq<nat>, j: nat)
    requires Increasing(r) && j < |r|
    ensures r[j] !in Members(r[..j])
  {
    assert forall i :: 0 <= i < j ==> r[..j][i] < r[j];
  }

  lemma {:induction false} MemberIndex(r: seq<nat>, x: nat) returns (i: nat)
    requires x in Members(r)
    ensures i < |r| && r[i] == x
  {
    i :| 0 <= i < |r| && r[i] == x;
  }

  lemma {:induction false} AmongStep(mapInfo: Infos, ids: set<nat>, id: nat)
    requires ids <= mapInfo.Keys && id in mapInfo
    ensures TriedAmong(mapInfo, ids + {id}) == if mapInfo[id].fInTried then TriedAmong(mapInfo, ids) + {id} else TriedAmong(mapInfo, ids)
    ensures RefCounts(mapInfo, ids + {id})
            == if mapInfo[id].fInTried then RefCounts(mapInfo, ids) else RefCounts(mapInfo, ids)[id := mapInfo[id].nRefCount]
  {}

  lemma {:induction false} ReplacedInfos(m: Infos, id: nat, evicted: nat)
    requires id in m && evicted in m && id != evicted
    ensures var m0 := m[id := m[id].(nRefCount := 0)];
      m0[evicted := AsNew(m0[evicted])][id := m0[id].(fInTried := true)] == m[evicted := AsNew(m[evicted])][id := AsTried(m[id])]
  {}

  /** Whether the time of an entry lies so long before a report that the report is taken: an hour for
      one of the last day, or else a day, and the penalty. */
  predicate Overdue(nTime: int, addr: Address, nTimePenalty: int, nNow: int) {
    addr.nTime != 0 && (nTime == 0 || addr.nTime - nTime > (if nNow - addr.nTime < 86_400 then 3_600 else 86_400) + nTimePenalty)
  }

  /** An entry after a report of its address. */
  function Refreshed(info: AddrInfo, addr: Address, nTimePenalty: int, nNow: int): AddrInfo {
    info.(nTime := if Overdue(info.nTime, addr, nTimePenalty, nNow) then Max(0, addr.nTime - nTimePenalty) else info.nTime,
          nServices := info.nServices + addr.nServices)
  }

  /** What a report changes in an entry: services are added, the time is moved to that of the report
      less the penalty when it lies too long before it, and there is one reference more only for news
      of an entry that is not tried and has fewer than four. */
  ghost predicate TakesReport(info: AddrInfo, info': AddrInfo, addr: Address, nTimePenalty: int, nNow: int) {
    && info'.nServices == info.nServices + addr.nServices
    && (if addr.nTime != 0
           && (|| info.nTime == 0
               || (nNow - addr.nTime < 24 * 3600 && addr.nTime - info.nTime > 3600 + nTimePenalty)
               || (nNow - addr.nTime >= 24 * 3600 && addr.nTime - info.nTime > 24 * 3600 + nTimePenalty))
        then info'.nTime >= 0 && info'.nTime >= addr.nTime - nTimePenalty && (info'.nTime == 0 || info'.nTime == addr.nTime - nTimePenalty)
        else info'.nTime == info.nTime)
    && (|| info'.nRefCount == info.nRefCount
        || (&& info'.nRefCount == info.nRefCount + 1 <= 4 && !info.fInTried
            && addr.nTime != 0 && (info'.nTime == 0 || addr.nTime > info'.nTime)))
    && info'.addr == info.addr && info'.source == info.source && info'.fInTried == info.fInTried
    && info'.nLastSuccess == info.nLastSuccess && info'.nLastTry == info.nLastTry && info'.nAttempts == info.nAttempts
  }

  lemma {:induction false} ReportTaken(s: Tables, s': Tables, buckets: Buckets, addr: Address, source: Ip, nTimePenalty: int, nNow: int)
    requires IsReported(s, s', buckets, addr, source, nTimePenalty, nNow)
    ensures var id := s.mapAddr[addr.addr.ip];
      TakesReport(s.mapInfo[id], s'.mapInfo[id], addr, nTimePenalty, nNow)
  {}

  lemma {:induction false} LosesNoTried(mapInfo: Infos, mapInfo': Infos, victim: nat)
    requires LosesAtMost(mapInfo, mapInfo', victim)
    ensures TriedStay(mapInfo, mapInfo')
    ensures forall id :: id in mapInfo && id != victim ==> id in mapInfo' && SameRecord(mapInfo[id], mapInfo'[id])
  {}

  predicate IsNews(info: AddrInfo, addr: Address) {
    addr.nTime != 0 && (info.nTime == 0 || addr.nTime > info.nTime)
  }

  /** One in how many times an entry with some references gets another: each halves the chance. */
  method ChanceFactor(nRefCount: int) returns (nFactor: nat)
    ensures nFactor == Pow2(if nRefCount < 0 then 0 else nRefCount)
  {
    nFactor := 1;
    for n := 0 to if nRefCount < 0 then 0 else nRefCount
      invariant nFactor == Pow2(n)
    {
      nFactor := nFactor * 2;
    }
  }

  /** Whether an entry gets another bucket: never when it is tried, has the most references, or
      nothing is new about it, and else by a chance that halves with each reference. */
  method WantsMore(info: AddrInfo, addr: Address) returns (more: bool)
    requires info.nRefCount <= NEW_BUCKETS_PER_ADDRESS
    ensures more ==> IsNews(info, addr) && !info.fInTried && info.nRefCount < NEW_BUCKETS_PER_ADDRESS
    ensures IsNews(info, addr) && !info.fInTried && info.nRefCount == 0 ==> more
  {
    if addr.nTime == 0 || (info.nTime != 0 && addr.nTime <= info.nTime) {
      return false;
    }
    if info.fInTried || info.nRefCount == NEW_BUCKETS_PER_ADDRESS {
      return false;
    }
    var nFactor := ChanceFactor(info.nRefCount);
    if nFactor > 1 {
      var r := GetRandInt(nFactor);
      return r == 0;
    }
    return true;
  }

  /** No tried entry is lost. */
  ghost predicate TriedStay(mapInfo: Infos, mapInfo': Infos) {
    forall id :: id in mapInfo && mapInfo[id].fInTried ==> id in mapInfo' && mapInfo'[id].fInTried && mapInfo'[id].addr == mapInfo[id].addr
  }

  /** What an update of one entry does not touch, whatever happens afterwards. */
  lemma {:induction false} RefreshedStays(m: Infos, id: nat, info: AddrInfo, m': Infos, victim: nat)
    requires id in m && info.addr == m[id].addr && info.fInTried == m[id].fInTried
    requires TriedStay(m[id := info], m') && OthersStay(m[id := info], m', id, victim)
    ensures TriedStay(m, m') && OthersStay(m, m', id, victim)
  {}

  class AddrMan {
    var buckets: Buckets
    var nIdCount: nat
    var mapInfo: Infos
    var mapAddr: map<Ip, nat>
    var vRandom: seq<nat>
    var nTried: int
    var vvTried: seq<seq<nat>>
    var nNew: int
    var vvNew: seq<set<nat>>

    ghost function Now(): Tables
      reads this
    {
      Tables(nIdCount, mapInfo, mapAddr, vRandom, nTried, vvTried, nNew, vvNew)
    }

    ghost predicate Valid()
      reads this
    {
      Consistent(buckets, Now(), Nobody)
    }

    constructor (buckets: Buckets)
      ensures this.buckets == buckets && Valid() && mapInfo == map[]
    {
      this.buckets := buckets;
      nIdCount, mapInfo, mapAddr, vRandom := 0, map[], map[], [];
      nTried, nNew := 0, 0;
      vvTried := seq(TRIED_BUCKET_COUNT, _ => []);
      vvNew := seq(NEW_BUCKET_COUNT, _ => {});
      assert TriedIds(map[]) == {} && NewIds(map[]) == {};
    }

    /** Finds an entry by its address, whatever the port. */
    method Find(addr: Ip) returns (found: bool, nId: nat)
      ensures found <==> addr in mapAddr && mapAddr[addr] in mapInfo
      ensures found ==> nId == mapAddr[addr]
    {
      if addr !in mapAddr {
        return false, 0;
      }
      nId := mapAddr[addr];
      found := nId in mapInfo;
    }

    /** The fields of an entry that no other table depends on. */
    method Update(nId: nat, info: AddrInfo, ghost pending: Pending)
      requires Consistent(buckets, Now(), pending) && nId in mapInfo
      requires SameLinks(mapInfo[nId], info) && info.nRandomPos == mapInfo[nId].nRandomPos
      requires info.nLastTry >= 0 && info.nLastSuccess >= 0 && (info.fInTried ==> info.nLastSuccess != 0)
      modifies `mapInfo
      ensures Consistent(buckets, Now(), pending) && mapInfo == old(mapInfo)[nId := info]
    {
      TouchKeeps(buckets, Now(), nId, info, pending);
      mapInfo := mapInfo[nId := info];
    }

    /** Exchanges two places of vRandom. The assertions of the source hold. */
    method SwapRandom(nRndPos1: nat, nRndPos2: nat, ghost pending: Pending)
      requires Consistent(buckets, Now(), pending) && nRndPos1 < |vRandom| && nRndPos2 < |vRandom|
      modifies `mapInfo, `vRandom
      ensures old(vRandom[nRndPos1]) in old(mapInfo) && old(vRandom[nRndPos2]) in old(mapInfo)
      ensures Now() == Swapped(old(Now()), nRndPos1, nRndPos2)
      ensures Consistent(buckets, Now(), pending) && SameRecords(old(mapInfo), mapInfo)
      ensures multiset(vRandom) == multiset(old(vRandom))
      ensures vRandom[nRndPos2] == old(vRandom[nRndPos1]) && vRandom[nRndPos1] == old(vRandom[nRndPos2])
    {
      SwapKeeps(buckets, Now(), nRndPos1, nRndPos2, pending);
      SwappedRecords(Now(), nRndPos1, nRndPos2);
      if nRndPos1 != nRndPos2 {
        Exchange(nRndPos1, nRndPos2);
      }
    }

    method Exchange(nRndPos1: nat, nRndPos2: nat)
      requires nRndPos1 < |vRandom| && nRndPos2 < |vRandom| && nRndPos1 != nRndPos2
      requires vRandom[nRndPos1] in mapInfo && vRandom[nRndPos2] in mapInfo
      modifies `mapInfo, `vRandom
      ensures Now() == Swapped(old(Now()), nRndPos1, nRndPos2)
    {
      var nId1, nId2 := vRandom[nRndPos1], vRandom[nRndPos2];
      assert nId1 in mapInfo && nId2 in mapInfo;
      mapInfo := mapInfo[nId1 := mapInfo[nId1].(nRandomPos := nRndPos2)];
      mapInfo := mapInfo[nId2 := mapInfo[nId2].(nRandomPos := nRndPos1)];
      vRandom := vRandom[nRndPos1 := nId2];
      vRandom := vRandom[nRndPos2 := nId1];
    }

    /** Forgets the last entry of vRandom, whose last reference is in a bucket. */
    method ForgetLast(nUBucket: nat, nId: nat, ghost pending: Pending)
      requires Consistent(buckets, Now(), pending) && nUBucket < NEW_BUCKET_COUNT
      requires nId in vvNew[nUBucket] && pending != Pending(nId)
      requires nId in mapInfo && mapInfo[nId].nRefCount == 1 && vRandom != [] && vRandom[|vRandom| - 1] == nId
      modifies `mapInfo, `mapAddr, `vRandom, `nNew, `vvNew
      ensures Now() == Deleted(old(Now()), nUBucket, nId)
      ensures Consistent(buckets, Now(), pending)
    {
      DeleteKeeps(buckets, Now(), nUBucket, nId, pending);
      vRandom := vRandom[..|vRandom| - 1];
      mapAddr := mapAddr - {mapInfo[nId].addr.ip};
      mapInfo := mapInfo - {nId};
      nNew := nNew - 1;
      vvNew := vvNew[nUBucket := vvNew[nUBucket] - {nId}];
    }

    /** Forgets an entry whose last reference is in a bucket. */
    method Forget(nUBucket: nat, nId: nat, ghost pending: Pending)
      requires Consistent(buckets, Now(), pending) && nUBucket < NEW_BUCKET_COUNT
      requires nId in vvNew[nUBucket] && pending != Pending(nId)
      requires nId in mapInfo && mapInfo[nId].nRefCount == 1
      modifies `mapInfo, `mapAddr, `vRandom, `nNew, `vvNew
      ensures Consistent(buckets, Now(), pending)
      ensures vvNew == old(vvNew)[nUBucket := old(vvNew[nUBucket]) - {nId}]
      ensures mapInfo.Keys == old(mapInfo.Keys) - {nId}
      ensures forall x :: x in mapInfo ==> SameRecord(old(mapInfo[x]), mapInfo[x])
    {
      InBucket(buckets, Now(), pending, nUBucket, nId);
      SwapRandom(mapInfo[nId].nRandomPos, |vRandom| - 1, pending);
      assert SameRecord(old(mapInfo[nId]), mapInfo[nId]);
      ForgetLast(nUBucket, nId, pending);
    }

    /** Takes an entry out of a bucket of new addresses, and forgets it when that was its last one. */
    method RemoveNew(nUBucket: nat, nId: nat, ghost pending: Pending)
      requires Consistent(buckets, Now(), pending) && nUBucket < NEW_BUCKET_COUNT
      requires nId in vvNew[nUBucket] && pending != Pending(nId)
      modifies `mapInfo, `mapAddr, `vRandom, `nNew, `vvNew
      ensures Consistent(buckets, Now(), pending)
      ensures vvNew == old(vvNew)[nUBucket := old(vvNew[nUBucket]) - {nId}]
      ensures LosesAtMost(old(mapInfo), mapInfo, nId)
    {
      InBucket(buckets, Now(), pending, nUBucket, nId);
      if mapInfo[nId].nRefCount == 1 {
        Forget(nUBucket, nId, pending);
      } else {
        LeaveKeeps(buckets, Now(), nUBucket, nId, pending);
        ghost var s := Unreferenced(Now(), nUBucket, nId);
        mapInfo := mapInfo[nId := mapInfo[nId].(nRefCount := mapInfo[nId].nRefCount - 1)];
        vvNew := vvNew[nUBucket := vvNew[nUBucket] - {nId}];
        assert Now() == s;
      }
    }

    /** Whether a bucket of new addresses holds a terrible entry. */
    method FindTerrible(nUBucket: nat, nNow: int, ghost pending: Pending) returns (found: bool, nId: nat)
      requires Consistent(buckets, Now(), pending) && nUBucket < NEW_BUCKET_COUNT
      ensures found ==> nId in vvNew[nUBucket] && nId in mapInfo && IsTerrible(mapInfo[nId], nNow)
      ensures !found ==> forall id :: id in vvNew[nUBucket] ==> id in mapInfo && !IsTerrible(mapInfo[id], nNow)
    {
      var vNew := InOrder(vvNew[nUBucket]);
      for i := 0 to |vNew|
        invariant forall id :: id in Members(vNew[..i]) ==> id in mapInfo && !IsTerrible(mapInfo[id], nNow)
      {
        MemberAt(vNew, i);
        InBucket(buckets, Now(), pending, nUBucket, vNew[i]);
        assert vNew[..i + 1][..i] == vNew[..i];
        var fTerrible := Terrible(mapInfo[vNew[i]], nNow);
        if fTerrible {
          return true, vNew[i];
        }
      }
      assert vNew[..|vNew|] == vNew;
      return false, 0;
    }

    /** The entry seen longest ago among four random ones of a bucket. */
    method PickOldest(nUBucket: nat, ghost pending: Pending) returns (nOldest: nat, ghost vNew: seq<nat>, ghost n: seq<nat>)
      requires Consistent(buckets, Now(), pending) && nUBucket < NEW_BUCKET_COUNT && vvNew[nUBucket] != {}
      ensures nOldest in vvNew[nUBucket] && |n| == 4 && OldestAt(mapInfo, vvNew[nUBucket], vNew, n, nOldest)
    {
      var inOrder := InOrder(vvNew[nUBucket]);
      vNew := inOrder;
      forall i | 0 <= i < |vNew| ensures vNew[i] in vvNew[nUBucket] && vNew[i] in mapInfo {
        MemberAt(vNew, i);
        InBucket(buckets, Now(), pending, nUBucket, vNew[i]);
      }
      var n0 := GetRandInt(|inOrder|);
      var n1 := GetRandInt(|inOrder|);
      var n2 := GetRandInt(|inOrder|);
      var n3 := GetRandInt(|inOrder|);
      n := [n0, n1, n2, n3];
      nOldest := OldestOf(inOrder, [n0, n1, n2, n3]);
    }

    /** The entry seen longest ago among those at some places of a bucket. */
    method OldestOf(vNew: seq<nat>, n: seq<nat>) returns (nOldest: nat)
      requires forall i :: 0 <= i < |vNew| ==> vNew[i] in mapInfo
      requires n != [] && forall k :: 0 <= k < |n| ==> n[k] < |vNew|
      ensures exists k :: 0 <= k < |n| && nOldest == vNew[n[k]]
      ensures nOldest in mapInfo && forall k :: 0 <= k < |n| ==> mapInfo[nOldest].nTime <= mapInfo[vNew[n[k]]].nTime
    {
      var oldest: int := -1;
      for nI := 0 to |vNew|
        invariant oldest == -1 ==> forall k :: 0 <= k < |n| ==> n[k] >= nI
        invariant oldest != -1 ==> oldest in mapInfo && exists k :: 0 <= k < |n| && oldest == vNew[n[k]]
        invariant oldest != -1 ==> forall k :: 0 <= k < |n| && n[k] < nI ==> mapInfo[oldest].nTime <= mapInfo[vNew[n[k]]].nTime
      {
        if nI in n && (oldest == -1 || mapInfo[vNew[nI]].nTime < mapInfo[oldest].nTime) {
          oldest := vNew[nI];
        }
      }
      assert n[0] < |vNew|;
      nOldest := oldest;
    }

    /** Makes room in a bucket of new addresses: a terrible entry goes, or the oldest of a few. */
    method ShrinkNew(nUBucket: nat, nNow: int, ghost pending: Pending)
      returns (r: int, ghost victim: nat, ghost vNew: seq<nat>, ghost n: seq<nat>)
      requires Consistent(buckets, Now(), pending) && nUBucket < NEW_BUCKET_COUNT
      requires vvNew[nUBucket] != {} && (pending.Pending? ==> pending.id !in vvNew[nUBucket])
      modifies `mapInfo, `mapAddr, `vRandom, `nNew, `vvNew
      ensures Consistent(buckets, Now(), pending)
      ensures victim in old(vvNew[nUBucket]) && vvNew == old(vvNew)[nUBucket := old(vvNew[nUBucket]) - {victim}]
      ensures LosesAtMost(old(mapInfo), mapInfo, victim)
      ensures r == 0 ==> victim in old(mapInfo) && IsTerrible(old(mapInfo[victim]), nNow)
      ensures r != 0 ==> forall id :: id in old(vvNew[nUBucket]) ==> id in old(mapInfo) && !IsTerrible(old(mapInfo[id]), nNow)
      ensures r != 0 ==> |n| == 4 && OldestAt(old(mapInfo), old(vvNew[nUBucket]), vNew, n, victim)
    {
      var found, nId := FindTerrible(nUBucket, nNow, pending);
      vNew, n := [], [];
      if found {
        victim := nId;
        RemoveNew(nUBucket, nId, pending);
        r := 0;
        return;
      }
      var nOldest;
      nOldest, vNew, n := PickOldest(nUBucket, pending);
      victim := nOldest;
      RemoveNew(nUBucket, nOldest, pending);
      r := 1;
    }

    // ---- tried addresses ----

    /** A place in a tried bucket whose entry may be replaced. Random entries are drawn to the first
        places, and the place that is returned is where the one that was seen to work longest ago was
        before its exchange. */
    method SelectTried(nKBucket: nat) returns (nOldestPos: nat, ghost places: seq<nat>, ghost w: nat)
      requires TriedOk(buckets, mapInfo, vvTried) && nKBucket < TRIED_BUCKET_COUNT && vvTried[nKBucket] != []
      modifies `vvTried
      ensures TriedOk(buckets, mapInfo, vvTried) && vvTried == old(vvTried)[nKBucket := vvTried[nKBucket]]
      ensures Picked(mapInfo, old(vvTried[nKBucket]), vvTried[nKBucket], places, nOldestPos, w)
      ensures |places| == if |vvTried[nKBucket]| < TRIED_ENTRIES_INSPECT_ON_EVICT then |vvTried[nKBucket]| else TRIED_ENTRIES_INSPECT_ON_EVICT
      ensures multiset(vvTried[nKBucket]) == multiset(old(vvTried[nKBucket])) && nOldestPos < |vvTried[nKBucket]|
      ensures vvTried[nKBucket][nOldestPos] == vvTried[nKBucket][w] <==> nOldestPos == w
    {
      var nOldest: int := -1;
      nOldestPos, places, w := 0, [], 0;
      var i := 0;
      while i < TRIED_ENTRIES_INSPECT_ON_EVICT && i < |vvTried[nKBucket]|
        invariant TriedOk(buckets, mapInfo, vvTried) && vvTried == old(vvTried)[nKBucket := vvTried[nKBucket]]
        invariant 0 <= i == |places| <= TRIED_ENTRIES_INSPECT_ON_EVICT
        invariant Selected(mapInfo, old(vvTried[nKBucket]), vvTried[nKBucket], places, nOldest, nOldestPos, w)
      {
        nOldest, nOldestPos, places, w := DrawOldest(nKBucket, i, nOldest, nOldestPos, old(vvTried[nKBucket]), places, w);
        i := i + 1;
      }
      HoldsOldestIff(vvTried, nKBucket, nOldestPos, w);
    }

    /** One round of the loop of SelectTried. */
    method DrawOldest(nKBucket: nat, i: nat, nOldest: int, nOldestPos: nat, ghost start: seq<nat>, ghost places: seq<nat>, ghost w: nat)
      returns (nOldest': int, nOldestPos': nat, ghost places': seq<nat>, ghost w': nat)
      requires TriedOk(buckets, mapInfo, vvTried) && nKBucket < TRIED_BUCKET_COUNT && i == |places| < |vvTried[nKBucket]|
      requires Selected(mapInfo, start, vvTried[nKBucket], places, nOldest, nOldestPos, w)
      modifies `vvTried
      ensures TriedOk(buckets, mapInfo, vvTried) && vvTried == old(vvTried)[nKBucket := vvTried[nKBucket]]
      ensures |places'| == i + 1 && Selected(mapInfo, start, vvTried[nKBucket], places', nOldest', nOldestPos', w')
    {
      nOldest', nOldestPos', w' := nOldest, nOldestPos, w;
      var nPos := GetRandInt(|vvTried[nKBucket]| - i);
      nPos := nPos + i;
      places' := places + [nPos];
      ghost var before := vvTried[nKBucket];
      var nTemp := Draw(nKBucket, i, nPos);
      SelectedNext(mapInfo, start, before, places, nOldest, nOldestPos, w, nPos);
      if nOldest == -1 || mapInfo[nTemp].nLastSuccess < mapInfo[nOldest].nLastSuccess {
        nOldest', nOldestPos', w' := nTemp, nPos, i;
      }
    }

    /** One draw. */
    method Draw(nKBucket: nat, i: nat, nPos: nat) returns (nTemp: nat)
      requires TriedOk(buckets, mapInfo, vvTried) && nKBucket < TRIED_BUCKET_COUNT && i <= nPos < |vvTried[nKBucket]|
      modifies `vvTried
      ensures TriedOk(buckets, mapInfo, vvTried)
      ensures vvTried == old(vvTried)[nKBucket := vvTried[nKBucket]]
      ensures vvTried[nKBucket] == old(vvTried[nKBucket])[nPos := old(vvTried[nKBucket][i])][i := old(vvTried[nKBucket][nPos])]
      ensures nTemp == old(vvTried[nKBucket][nPos]) && nTemp in mapInfo
    {
      nTemp := vvTried[nKBucket][nPos];
      assert TriedSlotOk(buckets, mapInfo, vvTried, nKBucket, nPos);
      TriedSwapKeeps(buckets, mapInfo, vvTried, nKBucket, nPos, i);
      vvTried := TriedSwap(vvTried, nKBucket, nPos, i);
    }

    /** The first loop of MakeTried: takes the entry out of all buckets of new addresses, counting
        the references down to none. */
    method LeaveAllNew(nId: nat)
      requires Valid() && nId in mapInfo && !mapInfo[nId].fInTried
      modifies `mapInfo, `vvNew
      ensures vvNew == Without(old(vvNew), nId)
      ensures mapInfo == old(mapInfo)[nId := old(mapInfo[nId]).(nRefCount := 0)]
    {
      assert RefsOk(mapInfo, vvNew, Nobody, nId);
      for b := 0 to |vvNew|
        invariant |vvNew| == |old(vvNew)|
        invariant forall c :: 0 <= c < b ==> vvNew[c] == old(vvNew)[c] - {nId}
        invariant forall c :: b <= c < |vvNew| ==> vvNew[c] == old(vvNew)[c]
        invariant nId in mapInfo
        invariant mapInfo == old(mapInfo)[nId := old(mapInfo[nId]).(nRefCount := mapInfo[nId].nRefCount)]
        invariant mapInfo[nId].nRefCount == RefCount(old(vvNew), nId) - RefCount(old(vvNew)[..b], nId)
      {
        assert old(vvNew)[..b + 1][..b] == old(vvNew)[..b];
        if nId in vvNew[b] {
          vvNew := vvNew[b := vvNew[b] - {nId}];
          mapInfo := mapInfo[nId := mapInfo[nId].(nRefCount := mapInfo[nId].nRefCount - 1)];
        }
      }
      assert old(vvNew)[..|vvNew|] == old(vvNew);
    }

    /** Moves an entry from the new to the tried addresses. When its tried bucket is full, another
        entry goes back to the new addresses, for which there is always room: in the bucket for it, or
        else in one that the entry has just left. */
    method MakeTried(nId: nat, nOrigin: nat) returns (ghost places: seq<nat>, ghost w: nat)
      requires Valid() && nOrigin < NEW_BUCKET_COUNT && nId in vvNew[nOrigin]
      requires nId in mapInfo && mapInfo[nId].nLastSuccess > 0
      modifies `mapInfo, `vvNew, `vvTried, `nNew, `nTried
      ensures Valid()
      ensures MovedToTried(buckets, old(Now()), Now(), nId, nOrigin, places, w)
    {
      ghost var s := Now();
      InBucket(buckets, s, Nobody, nOrigin, nId);
      LeaveAllNew(nId);
      nNew := nNew - 1;
      assert mapInfo[nId].nRefCount == 0;
      var nKBucket := buckets.Tried(mapInfo[nId]);
      places, w := [], 0;
      if |vvTried[nKBucket]| < TRIED_BUCKET_SIZE {
        PlaceTried(nId, nKBucket, s);
      } else {
        places, w := ReplaceTried(nId, nKBucket, nOrigin, s);
      }
    }

    /** The state in the middle of MakeTried: the entry is in no bucket any more. */
    ghost predicate Between(s: Tables, nId: nat, nKBucket: nat)
      reads this
    {
      && Consistent(buckets, s, Nobody) && nId in s.mapInfo && !s.mapInfo[nId].fInTried && s.mapInfo[nId].nLastSuccess > 0
      && nKBucket == buckets.Tried(s.mapInfo[nId])
      && Now() == s.(mapInfo := s.mapInfo[nId := s.mapInfo[nId].(nRefCount := 0)], vvNew := Without(s.vvNew, nId),
                     nNew := s.nNew - 1, vvTried := vvTried)
    }

    /** The end of MakeTried for a bucket with room. */
    method PlaceTried(nId: nat, nKBucket: nat, ghost s: Tables)
      requires Between(s, nId, nKBucket) && vvTried == s.vvTried && |vvTried[nKBucket]| < TRIED_BUCKET_SIZE
      modifies `mapInfo, `vvTried, `nTried
      ensures Valid() && Now() == Placed(s, nId, nKBucket)
    {
      PlacedKeeps(buckets, s, nId);
      vvTried := vvTried[nKBucket := vvTried[nKBucket] + [nId]];
      nTried := nTried + 1;
      mapInfo := mapInfo[nId := mapInfo[nId].(fInTried := true)];
      assert Now() == Placed(s, nId, nKBucket);
    }

    /** The end of MakeTried for a full bucket. */
    method ReplaceTried(nId: nat, nKBucket: nat, nOrigin: nat, ghost s: Tables) returns (ghost places: seq<nat>, ghost w: nat)
      requires Between(s, nId, nKBucket) && vvTried == s.vvTried && |vvTried[nKBucket]| >= TRIED_BUCKET_SIZE
      requires nOrigin < NEW_BUCKET_COUNT && nId in s.vvNew[nOrigin]
      modifies `mapInfo, `vvNew, `vvTried, `nNew
      ensures Valid()
      ensures MovedToTried(buckets, s, Now(), nId, nOrigin, places, w)
    {
      TriedTouch(buckets, s.mapInfo, mapInfo, vvTried);
      var nPos;
      nPos, places, w := SelectTried(nKBucket);
      TriedTouch(buckets, mapInfo, s.mapInfo, vvTried);
      assert IsOldest(s.mapInfo, vvTried[nKBucket], |places|, w);
      EvictAndPlace(nId, nKBucket, nPos, nOrigin, s);
    }

    /** Exchanges an entry with the one at a place of its tried bucket. */
    method EvictAndPlace(nId: nat, nKBucket: nat, nPos: nat, nOrigin: nat, ghost s: Tables)
      requires Between(s, nId, nKBucket) && nOrigin < NEW_BUCKET_COUNT && nId in s.vvNew[nOrigin]
      requires TriedOk(buckets, s.mapInfo, vvTried) && nPos < |vvTried[nKBucket]|
      modifies `mapInfo, `vvNew, `vvTried, `nNew
      ensures Valid()
      ensures var evicted := old(vvTried[nKBucket][nPos]);
        && evicted in s.mapInfo
        && Now() == Replaced(s.(vvTried := old(vvTried)), nId, nKBucket, nPos, RoomFor(buckets, s, nId, nOrigin, evicted))
    {
      EvictedIsReplaced(buckets, s.(vvTried := vvTried), Now(), nId, nKBucket, nPos, nOrigin);
      Evict(nId, nKBucket, nPos, nOrigin);
    }

    method Evict(nId: nat, nKBucket: nat, nPos: nat, nOrigin: nat)
      requires Evictable(Now(), nId, nKBucket, nPos, nOrigin)
      modifies `mapInfo, `vvNew, `vvTried, `nNew
      ensures Now() == Evicted(buckets, old(Now()), nId, nKBucket, nPos, nOrigin)
    {
      var evicted := vvTried[nKBucket][nPos];
      var nUBucket := buckets.New(mapInfo[evicted], mapInfo[evicted].source);
      mapInfo := mapInfo[evicted := mapInfo[evicted].(fInTried := false, nRefCount := 1)];
      var b := nOrigin;
      if |vvNew[nUBucket]| < NEW_BUCKET_SIZE {
        b := nUBucket;
      }
      var vTried: seq<nat> := vvTried[nKBucket][nPos := nId];
      vvNew := vvNew[b := vvNew[b] + {evicted}];
      nNew := nNew + 1;
      vvTried := vvTried[nKBucket := vTried];
      mapInfo := mapInfo[nId := mapInfo[nId].(fInTried := true)];
    }

    // ---- what the rest of the node calls ----

    /** Some bucket of new addresses that holds an entry, looking from a random one on. */
    method FindBucket(nId: nat) returns (nUBucket: nat)
      requires Valid() && nId in mapInfo && !mapInfo[nId].fInTried
      ensures nUBucket < NEW_BUCKET_COUNT && nId in vvNew[nUBucket]
    {
      ghost var b := NewSomewhere(buckets, Now(), nId);
      var nRnd := GetRandInt(NEW_BUCKET_COUNT);
      ghost var m := RoundMeetsAll(b, nRnd);
      var n := 0;
      while nId !in vvNew[(n + nRnd) % NEW_BUCKET_COUNT]
        invariant 0 <= n <= m < NEW_BUCKET_COUNT
        decreases m - n
      {
        n := n + 1;
      }
      nUBucket := (n + nRnd) % NEW_BUCKET_COUNT;
    }

    /** The entry that works is noted and tried; it is moved only if it was not tried before. */
    ghost predicate GoodOf(s: Tables, s': Tables, id: nat, nTime: int)
      reads `buckets
    {
      && id in s.mapInfo && id in s'.mapInfo && |s.vvTried| == TRIED_BUCKET_COUNT
      && var noted := s.mapInfo[id := Worked(s.mapInfo[id], nTime)];
      && s'.mapInfo[id] == AsTried(noted[id])
      && if s.mapInfo[id].fInTried then s' == s.(mapInfo := noted)
         else BecameTried(noted, s'.mapInfo, id, s.vvTried[buckets.Tried(s.mapInfo[id])])
    }

    /** Notes that an address works, and moves it to the tried addresses if it is not there. */
    method Good_(addr: Service, nTime: int)
      requires Valid() && nTime > 0
      modifies `mapInfo, `vvNew, `vvTried, `nNew, `nTried
      ensures Valid() && mapInfo.Keys == old(mapInfo.Keys)
      ensures if Known(old(Now()), addr)
              then GoodOf(old(Now()), Now(), mapAddr[addr.ip], nTime)
              else Now() == old(Now())
    {
      var found, nId := Find(addr.ip);
      if !found || mapInfo[nId].addr != addr {
        return;
      }
      assert RefsOk(mapInfo, vvNew, Nobody, nId);
      Update(nId, mapInfo[nId].(nLastSuccess := nTime, nLastTry := nTime, nTime := nTime, nAttempts := 0), Nobody);
      if mapInfo[nId].fInTried {
        return;
      }
      MoveToTried(nId);
    }

    /** The second half of Good_, for an entry that is not tried. */
    method MoveToTried(nId: nat)
      requires Valid() && nId in mapInfo && !mapInfo[nId].fInTried && mapInfo[nId].nLastSuccess > 0
      modifies `mapInfo, `vvNew, `vvTried, `nNew, `nTried
      ensures Valid() && mapInfo.Keys == old(mapInfo.Keys) && mapInfo[nId] == AsTried(old(mapInfo[nId]))
      ensures BecameTried(old(mapInfo), mapInfo, nId, old(vvTried)[buckets.Tried(old(mapInfo[nId]))])
    {
      var nUBucket := FindBucket(nId);
      ghost var s := Now();
      ghost var places, w := MakeTried(nId, nUBucket);
      MovedBecomes(buckets, s, Now(), nId, nUBucket, places, w);
    }

    /** Notes a connection attempt. */
    method Attempt_(addr: Service, nTime: int)
      requires Valid() && nTime >= 0
      modifies `mapInfo
      ensures Valid()
      ensures if Known(old(Now()), addr)
              then mapInfo == old(mapInfo)[mapAddr[addr.ip] := old(mapInfo[mapAddr[addr.ip]]).(nLastTry := nTime, nAttempts := old(mapInfo[mapAddr[addr.ip]]).nAttempts + 1)]
              else mapInfo == old(mapInfo)
    {
      var found, nId := Find(addr.ip);
      if !found || mapInfo[nId].addr != addr {
        return;
      }
      assert TimesOk(mapInfo, nId);
      Update(nId, mapInfo[nId].(nLastTry := nTime, nAttempts := mapInfo[nId].nAttempts + 1), Nobody);
    }

    /** Notes that an address is connected, at most every twenty minutes. */
    method Connected_(addr: Service, nTime: int)
      requires Valid()
      modifies `mapInfo
      ensures Valid()
      ensures if Known(old(Now()), addr) && nTime - old(mapInfo[mapAddr[addr.ip]]).nTime > 20 * 60
              then mapInfo == old(mapInfo)[mapAddr[addr.ip] := old(mapInfo[mapAddr[addr.ip]]).(nTime := nTime)]
              else mapInfo == old(mapInfo)
    {
      var found, nId := Find(addr.ip);
      if !found || mapInfo[nId].addr != addr {
        return;
      }
      if nTime - mapInfo[nId].nTime > 20 * 60 {
        assert TimesOk(mapInfo, nId);
        Update(nId, mapInfo[nId].(nTime := nTime), Nobody);
      }
    }

    /** A new entry, which is in no bucket yet. */
    method Create(addr: Address, source: Ip) returns (nId: nat)
      modifies `nIdCount, `mapInfo, `mapAddr, `vRandom
      ensures nId == old(nIdCount)
      ensures Now() == Created(old(Now()), AddrInfo(addr.addr, addr.nServices, addr.nTime, source, 0, 0, 0, 0, false, |old(vRandom)|)).(nNew := nNew)
    {
      nId := nIdCount;
      nIdCount := nIdCount + 1;
      mapInfo := mapInfo[nId := AddrInfo(addr.addr, addr.nServices, addr.nTime, source, 0, 0, 0, 0, false, -1)];
      mapAddr := mapAddr[addr.addr.ip := nId];
      mapInfo := mapInfo[nId := mapInfo[nId].(nRandomPos := |vRandom|)];
      vRandom := vRandom + [nId];
    }

    /** Updates an entry from a report, and decides by chance whether it may get another bucket. */
    method Refresh(nId: nat, addr: Address, nTimePenalty: int, nNow: int) returns (more: bool)
      requires Valid() && nId in mapInfo && mapInfo[nId].addr.ip == addr.addr.ip
      modifies `mapInfo
      ensures Valid() && mapInfo == old(mapInfo)[nId := Refreshed(old(mapInfo[nId]), addr, nTimePenalty, nNow)]
      ensures more ==> !mapInfo[nId].fInTried && mapInfo[nId].nRefCount < NEW_BUCKETS_PER_ADDRESS
      ensures more ==> IsNews(mapInfo[nId], addr)
    {
      assert TimesOk(mapInfo, nId) && RefsOk(mapInfo, vvNew, Nobody, nId);
      var info := mapInfo[nId];
      var fCurrentlyOnline := nNow - addr.nTime < 24 * 60 * 60;
      var nUpdateInterval := if fCurrentlyOnline then 60 * 60 else 24 * 60 * 60;
      if addr.nTime != 0 && (info.nTime == 0 || info.nTime < addr.nTime - nUpdateInterval - nTimePenalty) {
        info := info.(nTime := Max(0, addr.nTime - nTimePenalty));
      }
      info := info.(nServices := info.nServices + addr.nServices);
      Update(nId, info, Nobody);
      more := WantsMore(info, addr);
    }

    /** Puts an entry into one more bucket, first making room in it. */
    method PutNew(nId: nat, nUBucket: nat, nNow: int) returns (ghost victim: nat)
      requires nId in mapInfo && nUBucket < NEW_BUCKET_COUNT == |vvNew| && nId !in vvNew[nUBucket]
      requires Consistent(buckets, Now().(mapInfo := mapInfo[nId := mapInfo[nId].(nRefCount := mapInfo[nId].nRefCount + 1)]), Pending(nId))
      modifies `mapInfo, `mapAddr, `vRandom, `nNew, `vvNew
      ensures Valid() && TriedStay(old(mapInfo), mapInfo) && OthersStay(old(mapInfo), mapInfo, nId, victim)
      ensures nId in mapInfo && nId in vvNew[nUBucket]
      ensures SameRecord(old(mapInfo[nId]).(nRefCount := old(mapInfo[nId]).nRefCount + 1), mapInfo[nId])
    {
      mapInfo := mapInfo[nId := mapInfo[nId].(nRefCount := mapInfo[nId].nRefCount + 1)];
      victim := MakeRoom(nId, nUBucket, nNow);
      EnterKeeps(buckets, Now(), nUBucket, nId);
      vvNew := vvNew[nUBucket := vvNew[nUBucket] + {nId}];
    }

    /** Shrinks a bucket that is full, for an entry that is about to enter it. */
    method MakeRoom(nId: nat, nUBucket: nat, nNow: int) returns (ghost victim: nat)
      requires Consistent(buckets, Now(), Pending(nId)) && nId in mapInfo
      requires nUBucket < NEW_BUCKET_COUNT && nId !in vvNew[nUBucket]
      modifies `mapInfo, `mapAddr, `vRandom, `nNew, `vvNew
      ensures Consistent(buckets, Now(), Pending(nId)) && TriedStay(old(mapInfo), mapInfo)
      ensures OthersStay(old(mapInfo), mapInfo, nId, victim)
      ensures nId !in vvNew[nUBucket] && |vvNew[nUBucket]| < NEW_BUCKET_SIZE
      ensures nId in mapInfo && SameRecord(old(mapInfo[nId]), mapInfo[nId])
    {
      assert NewBucketOk(mapInfo, vvNew, nUBucket);
      victim := nId;
      if |vvNew[nUBucket]| == NEW_BUCKET_SIZE {
        var r;
        ghost var vNew, n;
        r, victim, vNew, n := ShrinkNew(nUBucket, nNow, Pending(nId));
        LosesNoTried(old(mapInfo), mapInfo, victim);
      }
    }

    /** Adds an address that was reported, or notes the report if it is known already. */
    method Add_(addr: Address, source: Ip, nTimePenalty: int, nNow: int) returns (fNew: bool)
      requires Valid()
      modifies `nIdCount, `mapInfo, `mapAddr, `vRandom, `nNew, `vvNew
      ensures Valid()
      ensures fNew == (addr.fRoutable && addr.addr.ip !in old(mapAddr))
      ensures fNew ==> IsAdded(Now(), buckets, addr, source, nTimePenalty)
      ensures TriedStay(old(mapInfo), mapInfo)
      ensures !addr.fRoutable ==> Now() == old(Now())
      ensures addr.fRoutable && !fNew ==> IsReported(old(Now()), Now(), buckets, addr, source, nTimePenalty, nNow)
      ensures addr.fRoutable && !fNew ==>
                TakesReport(old(mapInfo[mapAddr[addr.addr.ip]]), mapInfo[old(mapAddr[addr.addr.ip])], addr, nTimePenalty, nNow)
      ensures addr.fRoutable ==>
                addr.addr.ip in mapAddr && exists victim :: OthersStay(old(mapInfo), mapInfo, mapAddr[addr.addr.ip], victim)
    {
      if !addr.fRoutable {
        return false;
      }
      var found, nId := Find(addr.addr.ip);
      assert addr.addr.ip in mapAddr ==> TargetOk(mapInfo, mapAddr, addr.addr.ip);
      if found {
        ghost var s := Now();
        ghost var victim := AddKnown(nId, addr, source, nTimePenalty, nNow);
        ReportTaken(s, Now(), buckets, addr, source, nTimePenalty, nNow);
        return false;
      }
      ghost var victim := AddUnknown(addr, source, nTimePenalty, nNow);
      return true;
    }

    /** Updates an entry that is known. */
    method AddKnown(nId: nat, addr: Address, source: Ip, nTimePenalty: int, nNow: int) returns (ghost victim: nat)
      requires Valid() && nId in mapInfo && addr.addr.ip in mapAddr && nId == mapAddr[addr.addr.ip]
      modifies `nIdCount, `mapInfo, `mapAddr, `vRandom, `nNew, `vvNew
      ensures Valid() && TriedStay(old(mapInfo), mapInfo) && OthersStay(old(mapInfo), mapInfo, nId, victim)
      ensures addr.addr.ip in mapAddr && mapAddr[addr.addr.ip] == nId
      ensures IsReported(old(Now()), Now(), buckets, addr, source, nTimePenalty, nNow)
    {
      assert TargetOk(mapInfo, mapAddr, addr.addr.ip);
      victim := nId;
      ghost var s, info := Now(), Refreshed(mapInfo[nId], addr, nTimePenalty, nNow);
      var more := Refresh(nId, addr, nTimePenalty, nNow);
      assert Now() == s.(mapInfo := s.mapInfo[nId := info]);
      RefreshedStays(s.mapInfo, nId, info, mapInfo, nId);
      if more {
        ghost var s1 := Now();
        victim := AddBucket(nId, source, nNow);
        GotBucketReported(buckets, s, s1, Now(), addr, source, nTimePenalty, nNow);
        RefreshedStays(s.mapInfo, nId, info, mapInfo, victim);
        assert KeyOk(mapInfo, mapAddr, nId);
      }
    }

    /** Puts an entry in the bucket for it and a peer that reported it, if it is not there yet. */
    method AddBucket(nId: nat, source: Ip, nNow: int) returns (ghost victim: nat)
      requires Valid() && nId in mapInfo && !mapInfo[nId].fInTried && mapInfo[nId].nRefCount < NEW_BUCKETS_PER_ADDRESS
      modifies `mapInfo, `mapAddr, `vRandom, `nNew, `vvNew
      ensures Valid() && TriedStay(old(mapInfo), mapInfo) && OthersStay(old(mapInfo), mapInfo, nId, victim)
      ensures GotBucket(buckets, old(Now()), Now(), nId, source)
    {
      victim := nId;
      var nUBucket := buckets.New(mapInfo[nId], source);
      if nId !in vvNew[nUBucket] {
        BumpKeeps(buckets, Now(), nId);
        victim := PutNew(nId, nUBucket, nNow);
      }
    }

    /** Adds an address that is not known. */
    method AddUnknown(addr: Address, source: Ip, nTimePenalty: int, nNow: int) returns (ghost victim: nat)
      requires Valid() && addr.addr.ip !in mapAddr
      modifies `nIdCount, `mapInfo, `mapAddr, `vRandom, `nNew, `vvNew
      ensures Valid() && Known(Now(), addr.addr) && TriedStay(old(mapInfo), mapInfo)
      ensures IsAdded(Now(), buckets, addr, source, nTimePenalty)
      ensures OthersStay(old(mapInfo), mapInfo, mapAddr[addr.addr.ip], victim)
    {
      ghost var s := Now();
      var nId := CreateAged(addr, source, nTimePenalty);
      var nUBucket := buckets.New(mapInfo[nId], source);
      assert nId !in vvNew[nUBucket] by { assert NewBucketOk(s.mapInfo, s.vvNew, nUBucket); }
      victim := PutNew(nId, nUBucket, nNow);
      assert KeyOk(mapInfo, mapAddr, nId);
    }

    /** An entry for an address as it was reported, which is in no bucket yet. */
    method CreateAged(addr: Address, source: Ip, nTimePenalty: int) returns (nId: nat)
      requires Valid() && addr.addr.ip !in mapAddr
      modifies `nIdCount, `mapInfo, `mapAddr, `vRandom, `nNew, `vvNew
      ensures nId !in old(mapInfo) && nId in mapInfo && vvNew == old(vvNew)
      ensures Consistent(buckets, Now().(mapInfo := mapInfo[nId := mapInfo[nId].(nRefCount := mapInfo[nId].nRefCount + 1)]), Pending(nId))
      ensures SameRecord(mapInfo[nId], AddrInfo(addr.addr, addr.nServices, Max(0, addr.nTime - nTimePenalty), source, 0, 0, 0, 0, false, 0))
      ensures mapInfo == old(mapInfo)[nId := mapInfo[nId]]
    {
      ghost var s := Now();
      nId := Create(addr, source);
      mapInfo := mapInfo[nId := mapInfo[nId].(nTime := Max(0, mapInfo[nId].nTime - nTimePenalty))];
      nNew := nNew + 1;
      ghost var info := mapInfo[nId].(nRefCount := 1);
      CreateKeeps(buckets, s, info);
      assert Now().(mapInfo := mapInfo[nId := info]) == Created(s, info);
    }

    /** A random selection of at most 23 percent of the addresses and at most 2500, without
        repetition. */
    method GetAddr_() returns (vAddr: seq<AddrInfo>)
      requires Valid()
      modifies `mapInfo, `vRandom
      ensures Valid() && SameRecords(old(mapInfo), mapInfo) && multiset(vRandom) == multiset(old(vRandom))
      ensures |vAddr| <= 2500 && 100 * |vAddr| <= 23 * |vRandom| && (|vAddr| == 2500 || 23 * |vRandom| < 100 * (|vAddr| + 1))
      ensures Chosen(Now(), vAddr)
    {
      var nNodes: nat := GETADDR_MAX_PCT * |vRandom| / 100;
      if nNodes > GETADDR_MAX {
        nNodes := GETADDR_MAX;
      }
      vAddr := [];
      for n := 0 to nNodes
        invariant Valid() && SameRecords(old(mapInfo), mapInfo)
        invariant multiset(vRandom) == multiset(old(vRandom)) && |vRandom| == |old(vRandom)| && |vAddr| == n
        invariant Chosen(Now(), vAddr)
      {
        var info := TakeRandom(n, vAddr);
        vAddr := vAddr + [info];
      }
    }

    /** Moves a random entry from place n on to place n. */
    method TakeRandom(n: nat, ghost vAddr: seq<AddrInfo>) returns (info: AddrInfo)
      requires Valid() && Chosen(Now(), vAddr) && |vAddr| == n < |vRandom|
      modifies `mapInfo, `vRandom
      ensures Valid() && SameRecords(old(mapInfo), mapInfo)
      ensures multiset(vRandom) == multiset(old(vRandom)) && |vRandom| == |old(vRandom)|
      ensures Chosen(Now(), vAddr + [info])
    {
      var nRndPos := GetRandInt(|vRandom| - n);
      nRndPos := nRndPos + n;
      ChosenStay(buckets, Now(), n, nRndPos, vAddr);
      SwapRandom(n, nRndPos, Nobody);
      assert SlotOk(mapInfo, vRandom, n);
      info := mapInfo[vRandom[n]];
    }

    /** What Check_ finds wrong with one entry. */
    method CheckEntry(n: nat) returns (err: int)
      requires n in mapInfo
      ensures err == 0 <==> EntryPasses(Now(), n)
    {
      var info := mapInfo[n];
      if info.fInTried {
        if info.nLastSuccess == 0 { return -1; }
        if info.nRefCount != 0 { return -2; }
      } else {
        if info.nRefCount < 0 || info.nRefCount > NEW_BUCKETS_PER_ADDRESS { return -3; }
        if info.nRefCount == 0 { return -4; }
      }
      var nId := if info.addr.ip in mapAddr then mapAddr[info.addr.ip] else 0;
      if nId != n { return -5; }
      if info.nRandomPos < 0 || info.nRandomPos >= |vRandom| || vRandom[info.nRandomPos] != n { return -14; }
      if info.nLastTry < 0 { return -6; }
      if info.nLastSuccess < 0 { return -8; }
      return 0;
    }

    /** The loop of Check_ over the entries. */
    method CheckInfos() returns (err: int, setTried: set<nat>, mapNew: map<nat, int>)
      ensures err == 0 <==> EntriesPass(Now(), mapInfo.Keys)
      ensures err == 0 ==> setTried == TriedIds(mapInfo) && mapNew == RefCounts(mapInfo, mapInfo.Keys)
    {
      setTried, mapNew := {}, map[];
      var ids := InOrder(mapInfo.Keys);
      for i := 0 to |ids|
        invariant Members(ids[..i]) <= mapInfo.Keys && EntriesPass(Now(), Members(ids[..i]))
        invariant setTried == TriedAmong(mapInfo, Members(ids[..i]))
        invariant mapNew == RefCounts(mapInfo, Members(ids[..i]))
      {
        MemberAt(ids, i);
        MembersNext(ids, i);
        AmongStep(mapInfo, Members(ids[..i]), ids[i]);
        err := CheckEntry(ids[i]);
        if err != 0 {
          return;
        }
        if mapInfo[ids[i]].fInTried {
          setTried := setTried + {ids[i]};
        } else {
          mapNew := mapNew[ids[i] := mapInfo[ids[i]].nRefCount];
        }
      }
      assert ids[..|ids|] == ids;
      err := 0;
    }

    /** The loop of Check_ over the tried buckets. */
    method CheckTried(tried: set<nat>) returns (err: int, setTried: set<nat>)
      ensures err == 0 <==> multiset(Flat(vvTried)) <= multiset(tried)
      ensures err == 0 ==> multiset(Flat(vvTried)) + multiset(setTried) == multiset(tried)
    {
      setTried := tried;
      assert vvTried[..0] == [] && vvTried[..|vvTried|] == vvTried;
      for n := 0 to |vvTried|
        invariant Remaining(tried, setTried, Flat(vvTried[..n]))
      {
        err, setTried := CheckTriedBucket(n, tried, setTried);
        if err != 0 { return; }
      }
      err := 0;
    }

    method CheckTriedBucket(n: nat, ghost tried: set<nat>, left: set<nat>) returns (err: int, setTried: set<nat>)
      requires n < |vvTried| && Remaining(tried, left, Flat(vvTried[..n]))
      ensures if err == 0 then Remaining(tried, setTried, Flat(vvTried[..n + 1]))
              else !(multiset(Flat(vvTried)) <= multiset(tried))
    {
      setTried := left;
      MetBucket(vvTried, n);
      for j := 0 to |vvTried[n]|
        invariant Remaining(tried, setTried, Met(vvTried, n, j))
      {
        MetNext(vvTried, n, j);
        var id := vvTried[n][j];
        RemainingNext(tried, setTried, Met(vvTried, n, j), id);
        if id !in setTried {
          MetPart(vvTried, n, j + 1);
          return -11, setTried;
        }
        setTried := setTried - {id};
      }
      err := 0;
    }

    /** The loop of Check_ over the buckets of new addresses. */
    method CheckNew(counts: map<nat, int>) returns (err: int, mapNew: map<nat, int>)
      requires forall id :: id in counts ==> counts[id] > 0
      ensures err == 0 <==> EnoughCounted(counts, vvNew)
      ensures err == 0 ==> Left(counts, mapNew, vvNew, |vvNew|, {})
    {
      mapNew := counts;
      LeftStart(counts, vvNew);
      for n := 0 to |vvNew|
        invariant Left(counts, mapNew, vvNew, n, {})
      {
        err, mapNew := CheckNewBucket(n, counts, mapNew);
        if err != 0 { return; }
      }
      LeftEnd(counts, mapNew, vvNew);
      err := 0;
    }

    method CheckNewBucket(n: nat, ghost counts: map<nat, int>, left: map<nat, int>) returns (err: int, mapNew: map<nat, int>)
      requires n < |vvNew| && Left(counts, left, vvNew, n, {})
      ensures if err == 0 then Left(counts, mapNew, vvNew, n + 1, {}) else !EnoughCounted(counts, vvNew)
    {
      mapNew := left;
      var ids := InOrder(vvNew[n]);
      for j := 0 to |ids|
        invariant Left(counts, mapNew, vvNew, n, Members(ids[..j]))
      {
        MemberAt(ids, j);
        assert ids[..j + 1][..j] == ids[..j];
        NotBefore(ids, j);
        LeftNext(counts, mapNew, vvNew, n, Members(ids[..j]), ids[j]);
        if ids[j] !in mapNew { return -12, mapNew; }
        if mapNew[ids[j]] - 1 == 0 {
          mapNew := mapNew - {ids[j]};
        } else {
          mapNew := mapNew[ids[j] := mapNew[ids[j]] - 1];
        }
      }
      assert ids[..|ids|] == ids;
      LeftBucket(counts, mapNew, vvNew, n);
      err := 0;
    }

    /** The repository's own consistency check. It finds nothing wrong in a consistent state, and
        nothing in any other state exactly if all it asks holds. */
    method Check_() returns (err: int)
      ensures err == 0 <==> ChecksPass(Now())
      ensures Valid() ==> err == 0
    {
      if Valid() { ConsistentPasses(buckets, Now()); }
      err := CheckTables();
    }

    method CheckTables() returns (err: int)
      ensures err == 0 <==> ChecksPass(Now())
    {
      if |vRandom| != nTried + nNew { return -7; }
      var setTried, mapNew;
      err, setTried, mapNew := CheckInfos();
      if err != 0 { return; }
      CountSizes(mapInfo);
      if |setTried| != nTried { return -9; }
      if |mapNew| != nNew { return -10; }
      err, setTried := CheckTried(setTried);
      if err != 0 { return; }
      ghost var counts := mapNew;
      err, mapNew := CheckNew(mapNew);
      if err != 0 { return; }
      LeftEnd(counts, mapNew, vvNew);
      if |setTried| != 0 { return -13; }
      if |mapNew| != 0 { return -15; }
    }
  }
}
