/**
 The tables of the address manager (CAddrMan in src/addrman.h) and what keeps them consistent: the
 conditions that Check_ in src/addrman.cpp tests, and those the code relies on besides.
 */
module AddrTables {
  const TRIED_BUCKET_COUNT := 64
  const TRIED_BUCKET_SIZE := 64
  const NEW_BUCKET_COUNT := 256
  const NEW_BUCKET_SIZE := 64
  const NEW_BUCKETS_PER_ADDRESS := 4

  type Ip = nat

  /** The bits that are set in the services a node offers. */
  type Services = set<nat>

  /** An address with its port. */
  datatype Service = Service(ip: Ip, port: nat)

  datatype AddrInfo = AddrInfo(
    addr: Service, nServices: Services, nTime: int, source: Ip, nLastSuccess: int, nLastTry: int, nAttempts: int,
    nRefCount: int, fInTried: bool, nRandomPos: int)

  type Infos = map<nat, AddrInfo>

  /** The keyed hashes that choose buckets: any functions. */
  datatype Buckets = Buckets(triedHash: Service -> nat, newHash: (Ip, Ip) -> nat) {
    function Tried(info: AddrInfo): (b: nat)
      ensures b < TRIED_BUCKET_COUNT
    {
      triedHash(info.addr) % TRIED_BUCKET_COUNT
    }

    function New(info: AddrInfo, source: Ip): (b: nat)
      ensures b < NEW_BUCKET_COUNT
    {
      newHash(info.addr.ip, source) % NEW_BUCKET_COUNT
    }
  }

  // ---- how often an entry occurs in the buckets of new addresses ----

  function RefCount(vvNew: seq<set<nat>>, id: nat): nat {
    if vvNew == [] then 0
    else RefCount(vvNew[..|vvNew| - 1], id) + if id in vvNew[|vvNew| - 1] then 1 else 0
  }

  function One(b: bool): nat {
    if b then 1 else 0
  }

  lemma {:induction false} RefCountUpdate(vvNew: seq<set<nat>>, b: nat, ids: set<nat>, id: nat)
    requires b < |vvNew|
    ensures RefCount(vvNew[b := ids], id) == RefCount(vvNew, id) - One(id in vvNew[b]) + One(id in ids)
  {
    var last := |vvNew| - 1;
    if b == last {
      assert vvNew[b := ids][..last] == vvNew[..last];
    } else {
      assert vvNew[b := ids][..last] == vvNew[..last][b := ids];
      RefCountUpdate(vvNew[..last], b, ids, id);
    }
  }

  lemma {:induction false} RefCountPositive(vvNew: seq<set<nat>>, id: nat)
    ensures RefCount(vvNew, id) > 0 <==> exists b :: 0 <= b < |vvNew| && id in vvNew[b]
  {
    if vvNew != [] {
      var front := vvNew[..|vvNew| - 1];
      RefCountPositive(front, id);
      if b :| 0 <= b < |front| && id in front[b] {
        assert id in vvNew[b];
      }
      if b :| 0 <= b < |vvNew| && id in vvNew[b] {
        assert b == |front| || id in front[b];
      }
    }
  }

  // ---- consistency ----

  predicate PosOk(mapInfo: Infos, vRandom: seq<nat>, id: nat)
    requires id in mapInfo
  {
    0 <= mapInfo[id].nRandomPos < |vRandom| && vRandom[mapInfo[id].nRandomPos] == id
  }

  predicate SlotOk(mapInfo: Infos, vRandom: seq<nat>, p: nat)
    requires p < |vRandom|
  {
    vRandom[p] in mapInfo && mapInfo[vRandom[p]].nRandomPos == p
  }

  /** vRandom holds each entry once, at the position noted in it. */
  ghost predicate RandomOk(mapInfo: Infos, vRandom: seq<nat>) {
    && (forall id {:trigger PosOk(mapInfo, vRandom, id)} :: id in mapInfo ==> PosOk(mapInfo, vRandom, id))
    && (forall p {:trigger SlotOk(mapInfo, vRandom, p)} :: 0 <= p < |vRandom| ==> SlotOk(mapInfo, vRandom, p))
  }

  predicate KeyOk(mapInfo: Infos, mapAddr: map<Ip, nat>, id: nat)
    requires id in mapInfo
  {
    mapInfo[id].addr.ip in mapAddr && mapAddr[mapInfo[id].addr.ip] == id
  }

  predicate TargetOk(mapInfo: Infos, mapAddr: map<Ip, nat>, ip: Ip)
    requires ip in mapAddr
  {
    mapAddr[ip] in mapInfo && mapInfo[mapAddr[ip]].addr.ip == ip
  }

  /** mapAddr finds every entry by its address, and nothing else. */
  ghost predicate AddrOk(mapInfo: Infos, mapAddr: map<Ip, nat>) {
    && (forall id {:trigger KeyOk(mapInfo, mapAddr, id)} :: id in mapInfo ==> KeyOk(mapInfo, mapAddr, id))
    && (forall ip {:trigger TargetOk(mapInfo, mapAddr, ip)} :: ip in mapAddr ==> TargetOk(mapInfo, mapAddr, ip))
  }

  /** The entry that Add_ is about to put into one more bucket than it is in, if any. */
  datatype Pending = Nobody | Pending(id: nat)

  predicate RefsOk(mapInfo: Infos, vvNew: seq<set<nat>>, pending: Pending, id: nat)
    requires id in mapInfo
  {
    && mapInfo[id].nRefCount == RefCount(vvNew, id) + One(pending == Pending(id))
    && if mapInfo[id].fInTried then mapInfo[id].nRefCount == 0
       else 1 <= mapInfo[id].nRefCount <= NEW_BUCKETS_PER_ADDRESS
  }

  predicate NewBucketOk(mapInfo: Infos, vvNew: seq<set<nat>>, b: nat)
    requires b < |vvNew|
  {
    vvNew[b] <= mapInfo.Keys && |vvNew[b]| <= NEW_BUCKET_SIZE
  }

  /** Reference counts say in how many buckets of new addresses an entry is; those of tried
      addresses are in none, and others in one to four. */
  ghost predicate NewOk(mapInfo: Infos, vvNew: seq<set<nat>>, pending: Pending) {
    && |vvNew| == NEW_BUCKET_COUNT
    && (forall id {:trigger RefsOk(mapInfo, vvNew, pending, id)} :: id in mapInfo ==> RefsOk(mapInfo, vvNew, pending, id))
    && (forall b {:trigger NewBucketOk(mapInfo, vvNew, b)} :: 0 <= b < |vvNew| ==> NewBucketOk(mapInfo, vvNew, b))
  }

  predicate InTriedBucket(buckets: Buckets, mapInfo: Infos, vvTried: seq<seq<nat>>, id: nat)
    requires id in mapInfo && |vvTried| == TRIED_BUCKET_COUNT
  {
    mapInfo[id].fInTried ==> id in vvTried[buckets.Tried(mapInfo[id])]
  }

  predicate TriedSlotOk(buckets: Buckets, mapInfo: Infos, vvTried: seq<seq<nat>>, b: nat, i: nat)
    requires b < |vvTried| && i < |vvTried[b]|
  {
    var id := vvTried[b][i];
    id in mapInfo && mapInfo[id].fInTried && buckets.Tried(mapInfo[id]) == b
  }

  predicate TriedBucketOk(vvTried: seq<seq<nat>>, b: nat)
    requires b < |vvTried|
  {
    |vvTried[b]| <= TRIED_BUCKET_SIZE && forall i, j :: 0 <= i < j < |vvTried[b]| ==> vvTried[b][i] != vvTried[b][j]
  }

  /** Each entry marked as tried is once in the bucket for it, and nothing else is in the buckets. */
  ghost predicate TriedOk(buckets: Buckets, mapInfo: Infos, vvTried: seq<seq<nat>>) {
    && |vvTried| == TRIED_BUCKET_COUNT
    && (forall id {:trigger InTriedBucket(buckets, mapInfo, vvTried, id)} ::
          id in mapInfo ==> InTriedBucket(buckets, mapInfo, vvTried, id))
    && (forall b, i {:trigger TriedSlotOk(buckets, mapInfo, vvTried, b, i)} ::
          0 <= b < |vvTried| && 0 <= i < |vvTried[b]| ==> TriedSlotOk(buckets, mapInfo, vvTried, b, i))
    && (forall b {:trigger TriedBucketOk(vvTried, b)} :: 0 <= b < |vvTried| ==> TriedBucketOk(vvTried, b))
  }

  predicate TimesOk(mapInfo: Infos, id: nat)
    requires id in mapInfo
  {
    && mapInfo[id].nLastTry >= 0 && mapInfo[id].nLastSuccess >= 0
    && (mapInfo[id].fInTried ==> mapInfo[id].nLastSuccess != 0)
  }

  function TriedIds(mapInfo: Infos): set<nat> {
    set id | id in mapInfo && mapInfo[id].fInTried
  }

  function NewIds(mapInfo: Infos): set<nat> {
    set id | id in mapInfo && !mapInfo[id].fInTried
  }

  /** All fields but the key. */
  datatype Tables = Tables(
    nIdCount: nat, mapInfo: Infos, mapAddr: map<Ip, nat>, vRandom: seq<nat>, nTried: int, vvTried: seq<seq<nat>>,
    nNew: int, vvNew: seq<set<nat>>)

  ghost predicate CountsOk(s: Tables) {
    && s.nTried == |TriedIds(s.mapInfo)|
    && s.nNew == |NewIds(s.mapInfo)|
    && |s.vRandom| == s.nTried + s.nNew
    && (forall id :: id in s.mapInfo ==> id < s.nIdCount)
    && (forall id {:trigger TimesOk(s.mapInfo, id)} :: id in s.mapInfo ==> TimesOk(s.mapInfo, id))
  }

  ghost predicate Consistent(buckets: Buckets, s: Tables, pending: Pending) {
    && RandomOk(s.mapInfo, s.vRandom)
    && AddrOk(s.mapInfo, s.mapAddr)
    && NewOk(s.mapInfo, s.vvNew, pending)
    && TriedOk(buckets, s.mapInfo, s.vvTried)
    && CountsOk(s)
  }

  // ---- changes that leave the links between the tables alone ----

  /** The same entry as far as the other tables are concerned. */
  predicate SameLinks(a: AddrInfo, b: AddrInfo) {
    a.addr == b.addr && a.nRefCount == b.nRefCount && a.fInTried == b.fInTried
  }

  ghost predicate SameEntries(mapInfo: Infos, mapInfo': Infos) {
    mapInfo.Keys == mapInfo'.Keys && forall id :: id in mapInfo ==> SameLinks(mapInfo[id], mapInfo'[id])
  }

  lemma {:induction false} TriedTouch(buckets: Buckets, m: Infos, m': Infos, vvTried: seq<seq<nat>>)
    requires TriedOk(buckets, m, vvTried) && m.Keys == m'.Keys
    requires forall id :: id in m ==> m'[id].addr == m[id].addr && m'[id].fInTried == m[id].fInTried
    ensures TriedOk(buckets, m', vvTried)
  {
    forall id | id in m' ensures InTriedBucket(buckets, m', vvTried, id) {
      assert InTriedBucket(buckets, m, vvTried, id);
    }
    forall b, i | 0 <= b < |vvTried| && 0 <= i < |vvTried[b]| ensures TriedSlotOk(buckets, m', vvTried, b, i) {
      assert TriedSlotOk(buckets, m, vvTried, b, i);
    }
  }

  lemma {:induction false} SameEntriesKeep(buckets: Buckets, s: Tables, mapInfo': Infos, pending: Pending)
    requires AddrOk(s.mapInfo, s.mapAddr) && NewOk(s.mapInfo, s.vvNew, pending) && TriedOk(buckets, s.mapInfo, s.vvTried)
    requires SameEntries(s.mapInfo, mapInfo')
    ensures AddrOk(mapInfo', s.mapAddr) && NewOk(mapInfo', s.vvNew, pending) && TriedOk(buckets, mapInfo', s.vvTried)
    ensures TriedIds(mapInfo') == TriedIds(s.mapInfo) && NewIds(mapInfo') == NewIds(s.mapInfo)
  {
    var m := s.mapInfo;
    forall id | id in m ensures KeyOk(mapInfo', s.mapAddr, id) {
      assert KeyOk(m, s.mapAddr, id);
    }
    forall ip | ip in s.mapAddr ensures TargetOk(mapInfo', s.mapAddr, ip) {
      assert TargetOk(m, s.mapAddr, ip);
    }
    forall id | id in m ensures RefsOk(mapInfo', s.vvNew, pending, id) {
      assert RefsOk(m, s.vvNew, pending, id);
    }
    forall b | 0 <= b < |s.vvNew| ensures NewBucketOk(mapInfo', s.vvNew, b) {
      assert NewBucketOk(m, s.vvNew, b);
    }
    TriedTouch(buckets, m, mapInfo', s.vvTried);
  }

  /** Updating times, services or attempts of an entry. */
  lemma {:induction false} TouchKeeps(buckets: Buckets, s: Tables, id: nat, info: AddrInfo, pending: Pending)
    requires Consistent(buckets, s, pending) && id in s.mapInfo
    requires SameLinks(s.mapInfo[id], info) && info.nRandomPos == s.mapInfo[id].nRandomPos
    requires info.nLastTry >= 0 && info.nLastSuccess >= 0 && (info.fInTried ==> info.nLastSuccess != 0)
    ensures Consistent(buckets, s.(mapInfo := s.mapInfo[id := info]), pending)
  {
    var m, m' := s.mapInfo, s.mapInfo[id := info];
    SameEntriesKeep(buckets, s, m', pending);
    RandomTouch(m, m', s.vRandom);
    forall x | x in m' ensures TimesOk(m', x) {
      assert TimesOk(m, x);
    }
  }

  lemma {:induction false} RandomTouch(m: Infos, m': Infos, vRandom: seq<nat>)
    requires RandomOk(m, vRandom) && m.Keys == m'.Keys
    requires forall id :: id in m ==> m'[id].nRandomPos == m[id].nRandomPos
    ensures RandomOk(m', vRandom)
  {
    forall id | id in m' ensures PosOk(m', vRandom, id) {
      assert PosOk(m, vRandom, id);
    }
    forall p | 0 <= p < |vRandom| ensures SlotOk(m', vRandom, p) {
      assert SlotOk(m, vRandom, p);
    }
  }

  // ---- SwapRandom ----

  /** Two entries of vRandom exchanged. */
  function Swapped(s: Tables, p: nat, q: nat): Tables
    requires p < |s.vRandom| && q < |s.vRandom| && s.vRandom[p] in s.mapInfo && s.vRandom[q] in s.mapInfo
  {
    if p == q then s
    else
      var a, b := s.vRandom[p], s.vRandom[q];
      s.(mapInfo := Moved(Moved(s.mapInfo, a, q), b, p), vRandom := s.vRandom[p := b][q := a])
  }

  /** The same entry, wherever it is in vRandom. */
  predicate SameRecord(a: AddrInfo, b: AddrInfo) {
    a.(nRandomPos := 0) == b.(nRandomPos := 0)
  }

  predicate SameRecords(mapInfo: Infos, mapInfo': Infos) {
    mapInfo'.Keys == mapInfo.Keys && forall x :: x in mapInfo ==> SameRecord(mapInfo[x], mapInfo'[x])
  }

  lemma {:induction false} SwappedRecords(s: Tables, p: nat, q: nat)
    requires p < |s.vRandom| && q < |s.vRandom| && s.vRandom[p] in s.mapInfo && s.vRandom[q] in s.mapInfo
    ensures SameRecords(s.mapInfo, Swapped(s, p, q).mapInfo) && multiset(Swapped(s, p, q).vRandom) == multiset(s.vRandom)
  {
    SwappedMultiset(s.vRandom, p, q);
    SlotsMoved(s.mapInfo, s.vRandom[p], q);
    if p != q {
      SlotsMoved(Moved(s.mapInfo, s.vRandom[p], q), s.vRandom[q], p);
    }
  }

  lemma {:induction false} SwappedMultiset(r: seq<nat>, p: nat, q: nat)
    requires p < |r| && q < |r|
    ensures multiset(r[p := r[q]][q := r[p]]) == multiset(r)
  {}

  lemma {:induction false} SlotsMoved(mapInfo: Infos, id: nat, p: nat)
    requires id in mapInfo
    ensures SameRecords(mapInfo, Moved(mapInfo, id, p))
  {}

  function Moved(mapInfo: Infos, id: nat, p: nat): Infos
    requires id in mapInfo
  {
    mapInfo[id := mapInfo[id].(nRandomPos := p)]
  }

  lemma {:induction false} SwapKeepsRandom(m: Infos, vRandom: seq<nat>, p: nat, q: nat)
    requires RandomOk(m, vRandom) && p < |vRandom| && q < |vRandom| && p != q
    ensures vRandom[p] in m && vRandom[q] in m && vRandom[p] != vRandom[q]
    ensures RandomOk(Moved(Moved(m, vRandom[p], q), vRandom[q], p), vRandom[p := vRandom[q]][q := vRandom[p]])
  {
    assert SlotOk(m, vRandom, p) && SlotOk(m, vRandom, q);
    var a, b := vRandom[p], vRandom[q];
    var m', r' := Moved(Moved(m, a, q), b, p), vRandom[p := b][q := a];
    forall id | id in m' ensures PosOk(m', r', id) {
      assert PosOk(m, vRandom, id);
    }
    forall k | 0 <= k < |r'| ensures SlotOk(m', r', k) {
      assert SlotOk(m, vRandom, k);
    }
  }

  lemma {:induction false} SwapKeeps(buckets: Buckets, s: Tables, p: nat, q: nat, pending: Pending)
    requires Consistent(buckets, s, pending) && p < |s.vRandom| && q < |s.vRandom|
    ensures s.vRandom[p] in s.mapInfo && s.vRandom[q] in s.mapInfo
    ensures Consistent(buckets, Swapped(s, p, q), pending)
    ensures SameEntries(s.mapInfo, Swapped(s, p, q).mapInfo)
    ensures Swapped(s, p, q).vRandom[q] == s.vRandom[p] && Swapped(s, p, q).vRandom[p] == s.vRandom[q]
  {
    assert SlotOk(s.mapInfo, s.vRandom, p) && SlotOk(s.mapInfo, s.vRandom, q);
    if p != q {
      SwapKeepsRandom(s.mapInfo, s.vRandom, p, q);
      var m' := Swapped(s, p, q).mapInfo;
      SameEntriesKeep(buckets, s, m', pending);
      forall x | x in m' ensures TimesOk(m', x) {
        assert TimesOk(s.mapInfo, x);
      }
    }
  }

  // ---- entering and leaving buckets of new addresses ----

  lemma {:induction false} PutBucket(m: Infos, vvNew: seq<set<nat>>, b: nat, ids: set<nat>, pending: Pending, pending': Pending, m': Infos)
    requires NewOk(m, vvNew, pending) && b < |vvNew| && ids <= m'.Keys && |ids| <= NEW_BUCKET_SIZE
    requires forall c :: 0 <= c < |vvNew| && c != b ==> vvNew[c] <= m'.Keys
    requires forall id :: id in m' ==> RefsOk(m', vvNew[b := ids], pending', id)
    ensures NewOk(m', vvNew[b := ids], pending')
  {
    var vvNew' := vvNew[b := ids];
    forall c | 0 <= c < |vvNew'| ensures NewBucketOk(m', vvNew', c) {
      assert NewBucketOk(m, vvNew, c);
    }
  }

  /** The pending entry enters a bucket with room. */
  lemma {:induction false} EnterKeeps(buckets: Buckets, s: Tables, b: nat, id: nat)
    requires Consistent(buckets, s, Pending(id)) && b < NEW_BUCKET_COUNT && id in s.mapInfo
    requires id !in s.vvNew[b] && |s.vvNew[b]| < NEW_BUCKET_SIZE
    ensures Consistent(buckets, s.(vvNew := s.vvNew[b := s.vvNew[b] + {id}]), Nobody)
  {
    var ids := s.vvNew[b] + {id};
    forall x | x in s.mapInfo ensures RefsOk(s.mapInfo, s.vvNew[b := ids], Nobody, x) {
      assert RefsOk(s.mapInfo, s.vvNew, Pending(id), x);
      RefCountUpdate(s.vvNew, b, ids, x);
    }
    assert NewBucketOk(s.mapInfo, s.vvNew, b);
    forall c | 0 <= c < |s.vvNew| && c != b ensures s.vvNew[c] <= s.mapInfo.Keys {
      assert NewBucketOk(s.mapInfo, s.vvNew, c);
    }
    PutBucket(s.mapInfo, s.vvNew, b, ids, Pending(id), Nobody, s.mapInfo);
  }

  /** An entry with room for another reference becomes pending. */
  lemma {:induction false} BumpKeeps(buckets: Buckets, s: Tables, id: nat)
    requires Consistent(buckets, s, Nobody) && id in s.mapInfo
    requires !s.mapInfo[id].fInTried && s.mapInfo[id].nRefCount < NEW_BUCKETS_PER_ADDRESS
    ensures Consistent(buckets, s.(mapInfo := s.mapInfo[id := s.mapInfo[id].(nRefCount := s.mapInfo[id].nRefCount + 1)]), Pending(id))
  {
    var m := s.mapInfo;
    var info := m[id].(nRefCount := m[id].nRefCount + 1);
    var m' := m[id := info];
    ReRef(buckets, s, id, info);
    forall x | x in m' ensures RefsOk(m', s.vvNew, Pending(id), x) {
      assert RefsOk(m, s.vvNew, Nobody, x);
    }
    forall c | 0 <= c < |s.vvNew| ensures NewBucketOk(m', s.vvNew, c) {
      assert NewBucketOk(m, s.vvNew, c);
    }
  }

  /** Another reference count only matters to the buckets of new addresses. */
  lemma {:induction false} ReRef(buckets: Buckets, s: Tables, id: nat, info: AddrInfo)
    requires RandomOk(s.mapInfo, s.vRandom) && AddrOk(s.mapInfo, s.mapAddr) && TriedOk(buckets, s.mapInfo, s.vvTried) && CountsOk(s)
    requires id in s.mapInfo && info == s.mapInfo[id].(nRefCount := info.nRefCount)
    ensures var m' := s.mapInfo[id := info];
      RandomOk(m', s.vRandom) && AddrOk(m', s.mapAddr) && TriedOk(buckets, m', s.vvTried) && CountsOk(s.(mapInfo := m'))
  {
    var m, m' := s.mapInfo, s.mapInfo[id := info];
    RandomTouch(m, m', s.vRandom);
    TriedTouch(buckets, m, m', s.vvTried);
    forall x | x in m' ensures KeyOk(m', s.mapAddr, x) && TimesOk(m', x) {
      assert KeyOk(m, s.mapAddr, x) && TimesOk(m, x);
    }
    forall ip | ip in s.mapAddr ensures TargetOk(m', s.mapAddr, ip) {
      assert TargetOk(m, s.mapAddr, ip);
    }
    assert TriedIds(m') == TriedIds(m) && NewIds(m') == NewIds(m);
  }

  /** An entry with other references leaves a bucket. */
  function Unreferenced(s: Tables, b: nat, id: nat): Tables
    requires b < |s.vvNew| && id in s.mapInfo
  {
    s.(mapInfo := s.mapInfo[id := s.mapInfo[id].(nRefCount := s.mapInfo[id].nRefCount - 1)],
       vvNew := s.vvNew[b := s.vvNew[b] - {id}])
  }

  lemma {:induction false} LeaveKeeps(buckets: Buckets, s: Tables, b: nat, id: nat, pending: Pending)
    requires Consistent(buckets, s, pending) && b < NEW_BUCKET_COUNT && id in s.vvNew[b] && pending != Pending(id)
    requires id in s.mapInfo && s.mapInfo[id].nRefCount > 1
    ensures Consistent(buckets, Unreferenced(s, b, id), pending)
  {
    var m, s' := s.mapInfo, Unreferenced(s, b, id);
    var ids := s.vvNew[b] - {id};
    ReRef(buckets, s, id, s'.mapInfo[id]);
    forall x | x in s'.mapInfo ensures RefsOk(s'.mapInfo, s'.vvNew, pending, x) {
      assert RefsOk(m, s.vvNew, pending, x);
      RefCountUpdate(s.vvNew, b, ids, x);
    }
    assert NewBucketOk(m, s.vvNew, b);
    forall c | 0 <= c < |s.vvNew| && c != b ensures s.vvNew[c] <= s'.mapInfo.Keys {
      assert NewBucketOk(m, s.vvNew, c);
    }
    PutBucket(m, s.vvNew, b, ids, pending, pending, s'.mapInfo);
  }

  // ---- a new entry, a deleted entry ----

  /** The state with a new entry, which is counted as referenced but is in no bucket yet. */
  function Created(s: Tables, info: AddrInfo): Tables {
    var id := s.nIdCount;
    s.(nIdCount := id + 1, mapInfo := s.mapInfo[id := info], mapAddr := s.mapAddr[info.addr.ip := id],
       vRandom := s.vRandom + [id], nNew := s.nNew + 1)
  }

  lemma {:induction false} NotReferenced(m: Infos, vvNew: seq<set<nat>>, pending: Pending, id: nat)
    requires NewOk(m, vvNew, pending) && id !in m
    ensures RefCount(vvNew, id) == 0
  {
    RefCountPositive(vvNew, id);
    forall b | 0 <= b < |vvNew| ensures id !in vvNew[b] {
      assert NewBucketOk(m, vvNew, b);
    }
  }

  lemma {:induction false} CreateKeepsLinks(s: Tables, info: AddrInfo)
    requires RandomOk(s.mapInfo, s.vRandom) && AddrOk(s.mapInfo, s.mapAddr)
    requires s.nIdCount !in s.mapInfo && info.addr.ip !in s.mapAddr && info.nRandomPos == |s.vRandom|
    ensures RandomOk(Created(s, info).mapInfo, Created(s, info).vRandom)
    ensures AddrOk(Created(s, info).mapInfo, Created(s, info).mapAddr)
  {
    var s' := Created(s, info);
    forall x | x in s'.mapInfo ensures PosOk(s'.mapInfo, s'.vRandom, x) && KeyOk(s'.mapInfo, s'.mapAddr, x) {
      if x != s.nIdCount {
        assert PosOk(s.mapInfo, s.vRandom, x) && KeyOk(s.mapInfo, s.mapAddr, x);
      }
    }
    forall p | 0 <= p < |s'.vRandom| ensures SlotOk(s'.mapInfo, s'.vRandom, p) {
      if p < |s.vRandom| {
        assert SlotOk(s.mapInfo, s.vRandom, p);
      }
    }
    forall ip | ip in s'.mapAddr ensures TargetOk(s'.mapInfo, s'.mapAddr, ip) {
      if ip != info.addr.ip {
        assert TargetOk(s.mapInfo, s.mapAddr, ip);
      }
    }
  }

  lemma {:induction false} CreateKeeps(buckets: Buckets, s: Tables, info: AddrInfo)
    requires Consistent(buckets, s, Nobody) && info.addr.ip !in s.mapAddr
    requires info.nRandomPos == |s.vRandom| && info.nRefCount == 1 && !info.fInTried
    requires info.nLastTry >= 0 && info.nLastSuccess >= 0
    ensures Consistent(buckets, Created(s, info), Pending(s.nIdCount))
  {
    var id, m, s' := s.nIdCount, s.mapInfo, Created(s, info);
    var m' := s'.mapInfo;
    CreateKeepsLinks(s, info);
    NotReferenced(m, s.vvNew, Nobody, id);
    forall x | x in m' ensures RefsOk(m', s.vvNew, Pending(id), x) && TimesOk(m', x) && InTriedBucket(buckets, m', s.vvTried, x) {
      if x != id {
        assert RefsOk(m, s.vvNew, Nobody, x) && TimesOk(m, x) && InTriedBucket(buckets, m, s.vvTried, x);
      }
    }
    forall b | 0 <= b < |s.vvNew| ensures NewBucketOk(m', s.vvNew, b) {
      assert NewBucketOk(m, s.vvNew, b);
    }
    forall b, i | 0 <= b < |s.vvTried| && 0 <= i < |s.vvTried[b]| ensures TriedSlotOk(buckets, m', s.vvTried, b, i) {
      assert TriedSlotOk(buckets, m, s.vvTried, b, i);
    }
    assert TriedIds(m') == TriedIds(m) && NewIds(m') == NewIds(m) + {id};
  }

  /** The state without an entry that was only in bucket b and is last in vRandom. */
  function Deleted(s: Tables, b: nat, id: nat): Tables
    requires b < |s.vvNew| && id in s.mapInfo && s.vRandom != []
  {
    s.(mapInfo := s.mapInfo - {id}, mapAddr := s.mapAddr - {s.mapInfo[id].addr.ip},
       vRandom := s.vRandom[..|s.vRandom| - 1], nNew := s.nNew - 1, vvNew := s.vvNew[b := s.vvNew[b] - {id}])
  }

  lemma {:induction false} DeleteKeepsLinks(s: Tables, b: nat, id: nat)
    requires RandomOk(s.mapInfo, s.vRandom) && AddrOk(s.mapInfo, s.mapAddr)
    requires b < |s.vvNew| && id in s.mapInfo && s.vRandom != [] && s.vRandom[|s.vRandom| - 1] == id
    ensures RandomOk(Deleted(s, b, id).mapInfo, Deleted(s, b, id).vRandom)
    ensures AddrOk(Deleted(s, b, id).mapInfo, Deleted(s, b, id).mapAddr)
  {
    var s' := Deleted(s, b, id);
    assert PosOk(s.mapInfo, s.vRandom, id) && KeyOk(s.mapInfo, s.mapAddr, id);
    assert SlotOk(s.mapInfo, s.vRandom, |s.vRandom| - 1);
    forall x | x in s'.mapInfo ensures PosOk(s'.mapInfo, s'.vRandom, x) && KeyOk(s'.mapInfo, s'.mapAddr, x) {
      assert PosOk(s.mapInfo, s.vRandom, x) && KeyOk(s.mapInfo, s.mapAddr, x);
    }
    forall p | 0 <= p < |s'.vRandom| ensures SlotOk(s'.mapInfo, s'.vRandom, p) {
      assert SlotOk(s.mapInfo, s.vRandom, p);
    }
    forall ip | ip in s'.mapAddr ensures TargetOk(s'.mapInfo, s'.mapAddr, ip) {
      assert TargetOk(s.mapInfo, s.mapAddr, ip);
    }
  }

  lemma {:induction false} DeleteKeeps(buckets: Buckets, s: Tables, b: nat, id: nat, pending: Pending)
    requires Consistent(buckets, s, pending) && b < NEW_BUCKET_COUNT && id in s.vvNew[b] && pending != Pending(id)
    requires id in s.mapInfo && s.mapInfo[id].nRefCount == 1
    requires s.vRandom != [] && s.vRandom[|s.vRandom| - 1] == id
    ensures Consistent(buckets, Deleted(s, b, id), pending)
  {
    var m, s' := s.mapInfo, Deleted(s, b, id);
    var m', ids := s'.mapInfo, s.vvNew[b] - {id};
    DeleteKeepsLinks(s, b, id);
    assert RefsOk(m, s.vvNew, pending, id);
    RefCountUpdate(s.vvNew, b, ids, id);
    forall c | 0 <= c < |s.vvNew| && c != b ensures s.vvNew[c] <= m'.Keys {
      assert NewBucketOk(m, s.vvNew, c);
      RefCountPositive(s'.vvNew, id);
      assert s'.vvNew[c] == s.vvNew[c];
    }
    forall x | x in m' ensures RefsOk(m', s'.vvNew, pending, x) && TimesOk(m', x) && InTriedBucket(buckets, m', s.vvTried, x) {
      assert RefsOk(m, s.vvNew, pending, x) && TimesOk(m, x) && InTriedBucket(buckets, m, s.vvTried, x);
      RefCountUpdate(s.vvNew, b, ids, x);
    }
    assert NewBucketOk(m, s.vvNew, b);
    PutBucket(m, s.vvNew, b, ids, pending, pending, m');
    forall c, i | 0 <= c < |s.vvTried| && 0 <= i < |s.vvTried[c]| ensures TriedSlotOk(buckets, m', s.vvTried, c, i) {
      assert TriedSlotOk(buckets, m, s.vvTried, c, i);
    }
    assert TriedIds(m') == TriedIds(m) && NewIds(m') == NewIds(m) - {id};
  }

  // ---- moving an entry to the tried addresses ----

  /** The buckets of new addresses without an entry. */
  function Without(vvNew: seq<set<nat>>, id: nat): (r: seq<set<nat>>)
    ensures |r| == |vvNew| && forall b :: 0 <= b < |r| ==> r[b] == vvNew[b] - {id}
  {
    seq(|vvNew|, b requires 0 <= b < |vvNew| => vvNew[b] - {id})
  }

  lemma {:induction false} RefCountWithout(vvNew: seq<set<nat>>, id: nat, x: nat)
    ensures RefCount(Without(vvNew, id), x) == if x == id then 0 else RefCount(vvNew, x)
  {
    if vvNew != [] {
      var front := vvNew[..|vvNew| - 1];
      assert Without(vvNew, id)[..|front|] == Without(front, id);
      RefCountWithout(front, id, x);
    }
  }

  /** The entry marked as tried. */
  function AsTried(info: AddrInfo): AddrInfo {
    info.(nRefCount := 0, fInTried := true)
  }

  /** The entry marked as new, in one bucket. */
  function AsNew(info: AddrInfo): AddrInfo {
    info.(nRefCount := 1, fInTried := false)
  }

  /** The state with an entry moved to a tried bucket with room. */
  function Placed(s: Tables, id: nat, k: nat): Tables
    requires id in s.mapInfo && k < |s.vvTried|
  {
    s.(mapInfo := s.mapInfo[id := AsTried(s.mapInfo[id])], vvNew := Without(s.vvNew, id),
       vvTried := s.vvTried[k := s.vvTried[k] + [id]], nNew := s.nNew - 1, nTried := s.nTried + 1)
  }

  /** The state with an entry moved to a tried bucket in place of another, which goes to bucket b
      of the new addresses. */
  function Replaced(s: Tables, id: nat, k: nat, pos: nat, b: nat): Tables
    requires id in s.mapInfo && k < |s.vvTried| && pos < |s.vvTried[k]| && s.vvTried[k][pos] in s.mapInfo && b < |s.vvNew|
  {
    var evicted := s.vvTried[k][pos];
    var tried: seq<nat> := s.vvTried[k][pos := id];
    s.(mapInfo := s.mapInfo[evicted := AsNew(s.mapInfo[evicted])][id := AsTried(s.mapInfo[id])],
       vvNew := Without(s.vvNew, id)[b := s.vvNew[b] - {id} + {evicted}],
       vvTried := s.vvTried[k := tried])
  }

  /** The marks do not matter to vRandom and mapAddr. */
  lemma {:induction false} RemarkKeepsLinks(s: Tables, m': Infos)
    requires RandomOk(s.mapInfo, s.vRandom) && AddrOk(s.mapInfo, s.mapAddr) && s.mapInfo.Keys == m'.Keys
    requires forall id :: id in m' ==> m'[id].addr == s.mapInfo[id].addr && m'[id].nRandomPos == s.mapInfo[id].nRandomPos
    ensures RandomOk(m', s.vRandom) && AddrOk(m', s.mapAddr)
  {
    RandomTouch(s.mapInfo, m', s.vRandom);
    forall x | x in m' ensures KeyOk(m', s.mapAddr, x) {
      assert KeyOk(s.mapInfo, s.mapAddr, x);
    }
    forall ip | ip in s.mapAddr ensures TargetOk(m', s.mapAddr, ip) {
      assert TargetOk(s.mapInfo, s.mapAddr, ip);
    }
  }

  lemma {:induction false} PlacedKeepsNew(s: Tables, id: nat)
    requires NewOk(s.mapInfo, s.vvNew, Nobody) && id in s.mapInfo
    ensures NewOk(s.mapInfo[id := AsTried(s.mapInfo[id])], Without(s.vvNew, id), Nobody)
  {
    var m, vvNew := s.mapInfo, Without(s.vvNew, id);
    var m' := m[id := AsTried(m[id])];
    forall x | x in m' ensures RefsOk(m', vvNew, Nobody, x) {
      assert RefsOk(m, s.vvNew, Nobody, x);
      RefCountWithout(s.vvNew, id, x);
    }
    forall b | 0 <= b < |vvNew| ensures NewBucketOk(m', vvNew, b) {
      assert NewBucketOk(m, s.vvNew, b);
      SmallerSet(vvNew[b], s.vvNew[b]);
    }
  }

  lemma {:induction false} SmallerSet<T>(a: set<T>, b: set<T>)
    requires a <= b
    ensures |a| <= |b|
  {
    assert b == a + (b - a);
  }

  lemma {:induction false} PlacedKeepsTried(buckets: Buckets, s: Tables, id: nat)
    requires TriedOk(buckets, s.mapInfo, s.vvTried) && id in s.mapInfo && !s.mapInfo[id].fInTried
    requires |s.vvTried[buckets.Tried(s.mapInfo[id])]| < TRIED_BUCKET_SIZE
    ensures var k := buckets.Tried(s.mapInfo[id]);
      TriedOk(buckets, s.mapInfo[id := AsTried(s.mapInfo[id])], s.vvTried[k := s.vvTried[k] + [id]])
  {
    var m, k := s.mapInfo, buckets.Tried(s.mapInfo[id]);
    var m', vvTried := m[id := AsTried(m[id])], s.vvTried[k := s.vvTried[k] + [id]];
    forall x | x in m' ensures InTriedBucket(buckets, m', vvTried, x) {
      assert InTriedBucket(buckets, m, s.vvTried, x);
      assert id in vvTried[k];
    }
    forall b, i | 0 <= b < |vvTried| && 0 <= i < |vvTried[b]| ensures TriedSlotOk(buckets, m', vvTried, b, i) {
      if i < |s.vvTried[b]| {
        assert TriedSlotOk(buckets, m, s.vvTried, b, i);
      }
    }
    forall b | 0 <= b < |vvTried| ensures TriedBucketOk(vvTried, b) {
      assert TriedBucketOk(s.vvTried, b);
      forall i | 0 <= i < |s.vvTried[b]| ensures s.vvTried[b][i] != id {
        assert TriedSlotOk(buckets, m, s.vvTried, b, i);
      }
    }
  }

  lemma {:induction false} PlacedKeeps(buckets: Buckets, s: Tables, id: nat)
    requires Consistent(buckets, s, Nobody) && id in s.mapInfo && !s.mapInfo[id].fInTried && s.mapInfo[id].nLastSuccess > 0
    requires |s.vvTried[buckets.Tried(s.mapInfo[id])]| < TRIED_BUCKET_SIZE
    ensures Consistent(buckets, Placed(s, id, buckets.Tried(s.mapInfo[id])), Nobody)
  {
    var m, m' := s.mapInfo, s.mapInfo[id := AsTried(s.mapInfo[id])];
    RemarkKeepsLinks(s, m');
    PlacedKeepsNew(s, id);
    PlacedKeepsTried(buckets, s, id);
    forall x | x in m' ensures TimesOk(m', x) {
      assert TimesOk(m, x);
    }
    PlacedCounts(m, id);
  }

  /** One new entry becomes tried. */
  lemma {:induction false} PlacedCounts(m: Infos, id: nat)
    requires id in m && !m[id].fInTried
    ensures var m' := m[id := AsTried(m[id])];
      |TriedIds(m')| == |TriedIds(m)| + 1 && |NewIds(m')| == |NewIds(m)| - 1
  {
    var m' := m[id := AsTried(m[id])];
    assert TriedIds(m') == TriedIds(m) + {id} && NewIds(m') == NewIds(m) - {id};
  }

  lemma {:induction false} ReplacedKeepsNew(s: Tables, id: nat, evicted: nat, b: nat)
    requires NewOk(s.mapInfo, s.vvNew, Nobody) && id in s.mapInfo && evicted in s.mapInfo && id != evicted
    requires s.mapInfo[evicted].fInTried && b < |s.vvNew| && |s.vvNew[b] - {id}| < NEW_BUCKET_SIZE
    ensures NewOk(s.mapInfo[evicted := AsNew(s.mapInfo[evicted])][id := AsTried(s.mapInfo[id])],
                  Without(s.vvNew, id)[b := s.vvNew[b] - {id} + {evicted}], Nobody)
  {
    var m, without := s.mapInfo, Without(s.vvNew, id);
    var m' := m[evicted := AsNew(m[evicted])][id := AsTried(m[id])];
    var ids := s.vvNew[b] - {id} + {evicted};
    var vvNew := without[b := ids];
    assert RefsOk(m, s.vvNew, Nobody, evicted);
    RefCountPositive(s.vvNew, evicted);
    forall x | x in m' ensures RefsOk(m', vvNew, Nobody, x) {
      assert RefsOk(m, s.vvNew, Nobody, x);
      RefCountWithout(s.vvNew, id, x);
      RefCountUpdate(without, b, ids, x);
    }
    forall c | 0 <= c < |vvNew| ensures NewBucketOk(m', vvNew, c) {
      assert NewBucketOk(m, s.vvNew, c);
      SmallerSet(without[c], s.vvNew[c]);
    }
  }

  lemma {:induction false} ReplacedKeepsTried(buckets: Buckets, s: Tables, id: nat, k: nat, pos: nat)
    requires TriedOk(buckets, s.mapInfo, s.vvTried) && id in s.mapInfo && !s.mapInfo[id].fInTried
    requires k == buckets.Tried(s.mapInfo[id]) && pos < |s.vvTried[k]|
    requires s.vvTried[k][pos] in s.mapInfo
    ensures var evicted := s.vvTried[k][pos];
      var tried: seq<nat> := s.vvTried[k][pos := id];
      TriedOk(buckets, s.mapInfo[evicted := AsNew(s.mapInfo[evicted])][id := AsTried(s.mapInfo[id])], s.vvTried[k := tried])
  {
    var m, evicted := s.mapInfo, s.vvTried[k][pos];
    var tried: seq<nat> := s.vvTried[k][pos := id];
    var m', vvTried := m[evicted := AsNew(m[evicted])][id := AsTried(m[id])], s.vvTried[k := tried];
    assert TriedSlotOk(buckets, m, s.vvTried, k, pos);
    assert TriedBucketOk(s.vvTried, k);
    forall x | x in m' ensures InTriedBucket(buckets, m', vvTried, x) {
      assert InTriedBucket(buckets, m, s.vvTried, x);
      assert tried[pos] == id;
      if x != id && x != evicted && m[x].fInTried && buckets.Tried(m[x]) == k {
        var i :| 0 <= i < |s.vvTried[k]| && s.vvTried[k][i] == x;
        assert tried[i] == x;
      }
    }
    forall b, i | 0 <= b < |vvTried| && 0 <= i < |vvTried[b]| ensures TriedSlotOk(buckets, m', vvTried, b, i) {
      assert TriedSlotOk(buckets, m, s.vvTried, b, i);
    }
    forall b | 0 <= b < |vvTried| ensures TriedBucketOk(vvTried, b) {
      assert TriedBucketOk(s.vvTried, b);
      forall i | 0 <= i < |s.vvTried[b]| ensures s.vvTried[b][i] != id {
        assert TriedSlotOk(buckets, m, s.vvTried, b, i);
      }
    }
  }

  /** One entry becomes tried and another new. */
  lemma {:induction false} TradeCounts(m: Infos, id: nat, evicted: nat)
    requires id in m && evicted in m && !m[id].fInTried && m[evicted].fInTried
    ensures var m' := m[evicted := AsNew(m[evicted])][id := AsTried(m[id])];
      |TriedIds(m')| == |TriedIds(m)| && |NewIds(m')| == |NewIds(m)|
  {
    var m' := m[evicted := AsNew(m[evicted])][id := AsTried(m[id])];
    assert TriedIds(m') == TriedIds(m) - {evicted} + {id};
    TradeMember(TriedIds(m), evicted, id);
    NewIdsTrade(m, id, evicted);
  }

  lemma {:induction false} NewIdsTrade(m: Infos, id: nat, evicted: nat)
    requires id in m && evicted in m && !m[id].fInTried && m[evicted].fInTried
    ensures |NewIds(m[evicted := AsNew(m[evicted])][id := AsTried(m[id])])| == |NewIds(m)|
  {
    assert NewIds(m[evicted := AsNew(m[evicted])][id := AsTried(m[id])]) == NewIds(m) - {id} + {evicted};
    TradeMember(NewIds(m), id, evicted);
  }

  lemma {:induction false} TradeMember(s: set<nat>, x: nat, y: nat)
    requires x in s && y !in s
    ensures |s - {x} + {y}| == |s|
  {}

  lemma {:induction false} ReplacedKeeps(buckets: Buckets, s: Tables, id: nat, k: nat, pos: nat, b: nat)
    requires Consistent(buckets, s, Nobody) && id in s.mapInfo && !s.mapInfo[id].fInTried && s.mapInfo[id].nLastSuccess > 0
    requires k == buckets.Tried(s.mapInfo[id]) && pos < |s.vvTried[k]|
    requires b < NEW_BUCKET_COUNT && |s.vvNew[b] - {id}| < NEW_BUCKET_SIZE
    ensures s.vvTried[k][pos] in s.mapInfo && s.mapInfo[s.vvTried[k][pos]].fInTried
    ensures Consistent(buckets, Replaced(s, id, k, pos, b), Nobody)
  {
    var m, evicted := s.mapInfo, s.vvTried[k][pos];
    assert TriedSlotOk(buckets, m, s.vvTried, k, pos);
    var m' := m[evicted := AsNew(m[evicted])][id := AsTried(m[id])];
    RemarkKeepsLinks(s, m');
    ReplacedKeepsNew(s, id, evicted, b);
    ReplacedKeepsTried(buckets, s, id, k, pos);
    forall x | x in m' ensures TimesOk(m', x) {
      assert TimesOk(m, x);
    }
    TradeCounts(m, id, evicted);
  }

  /** Exchanging two places of a tried bucket. */
  function TriedSwap(vvTried: seq<seq<nat>>, k: nat, i: nat, j: nat): seq<seq<nat>>
    requires k < |vvTried| && i < |vvTried[k]| && j < |vvTried[k]|
  {
    var tried: seq<nat> := vvTried[k][i := vvTried[k][j]][j := vvTried[k][i]];
    vvTried[k := tried]
  }

  lemma {:induction false} TriedSwapKeeps(buckets: Buckets, m: Infos, vvTried: seq<seq<nat>>, k: nat, i: nat, j: nat)
    requires TriedOk(buckets, m, vvTried) && k < |vvTried| && i < |vvTried[k]| && j < |vvTried[k]|
    ensures TriedOk(buckets, m, TriedSwap(vvTried, k, i, j))
  {
    var vvTried', tried := TriedSwap(vvTried, k, i, j), TriedSwap(vvTried, k, i, j)[k];
    forall x | x in m ensures InTriedBucket(buckets, m, vvTried', x) {
      assert InTriedBucket(buckets, m, vvTried, x);
      if m[x].fInTried && buckets.Tried(m[x]) == k {
        var n :| 0 <= n < |vvTried[k]| && vvTried[k][n] == x;
        assert tried[if n == i then j else if n == j then i else n] == x;
      }
    }
    forall b, n | 0 <= b < |vvTried'| && 0 <= n < |vvTried'[b]| ensures TriedSlotOk(buckets, m, vvTried', b, n) {
      assert TriedSlotOk(buckets, m, vvTried, b, if b == k && n == i then j else if b == k && n == j then i else n);
    }
    forall b | 0 <= b < |vvTried'| ensures TriedBucketOk(vvTried', b) {
      assert TriedBucketOk(vvTried, b);
    }
  }
}
