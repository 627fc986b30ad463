/**
 Which blocks are to be asked for or were asked for, and from which peer (MarkBlockAsReceived,
 AddBlockToQueue, MarkBlockAsInFlight, FinalizeNode and the getdata loop of SendMessages in
 src/main.cpp). An iterator into a list of a peer is modelled by the hash it points to.
 */
module BlockDownload {
  import opened Core
  import opened Sequences

  const MAX_BLOCKS_IN_TRANSIT_PER_PEER := 128
  const MAX_BLOCKS_QUEUED := 5000

  type NodeId = int

  datatype QueuedBlock = QueuedBlock(hash: Hash, nTime: int, nQueuedBefore: int)

  datatype NodeState = NodeState(
    vBlocksInFlight: seq<QueuedBlock>, nBlocksInFlight: int, vBlocksToDownload: seq<Hash>, nBlocksToDownload: int,
    nLastBlockReceive: int)

  const NEW_NODE := NodeState([], 0, [], 0, 0)

  type Nodes = map<NodeId, NodeState>

  function Hashes(queue: seq<QueuedBlock>): (r: seq<Hash>)
    ensures |r| == |queue| && forall i :: 0 <= i < |r| ==> r[i] == queue[i].hash
  {
    seq(|queue|, i requires 0 <= i < |queue| => queue[i].hash)
  }

  predicate Distinct(s: seq<Hash>) {
    forall i, j :: 0 <= i < j < |s| ==> s[i] != s[j]
  }

  // ---- lists and maps that agree ----

  /** The list that a peer has in one of the two tables. */
  function ListOf(nodes: Nodes, fInFlight: bool, n: NodeId): seq<Hash>
    requires n in nodes
  {
    if fInFlight then Hashes(nodes[n].vBlocksInFlight) else nodes[n].vBlocksToDownload
  }

  function CountOf(nodes: Nodes, fInFlight: bool, n: NodeId): int
    requires n in nodes
  {
    if fInFlight then nodes[n].nBlocksInFlight else nodes[n].nBlocksToDownload
  }

  /** The list of a peer has each hash once, the map leads back from each to the peer, and the
      counter is right. */
  predicate ListOk(nodes: Nodes, fInFlight: bool, table: map<Hash, NodeId>, n: NodeId)
    requires n in nodes
  {
    var list := ListOf(nodes, fInFlight, n);
    && Distinct(list) && CountOf(nodes, fInFlight, n) == |list|
    && forall i :: 0 <= i < |list| ==> list[i] in table && table[list[i]] == n
  }

  predicate EntryOk(nodes: Nodes, fInFlight: bool, table: map<Hash, NodeId>, h: Hash)
    requires h in table
  {
    table[h] in nodes && h in ListOf(nodes, fInFlight, table[h])
  }

  /** The lists of all peers and the map hold the same. */
  ghost predicate Agree(nodes: Nodes, fInFlight: bool, table: map<Hash, NodeId>) {
    && (forall n {:trigger ListOk(nodes, fInFlight, table, n)} :: n in nodes ==> ListOk(nodes, fInFlight, table, n))
    && (forall h {:trigger EntryOk(nodes, fInFlight, table, h)} :: h in table ==> EntryOk(nodes, fInFlight, table, h))
  }

  /** Where the table is not concerned, a change of the peers does not matter. */
  lemma {:induction false} AgreeSame(nodes: Nodes, nodes': Nodes, fInFlight: bool, table: map<Hash, NodeId>)
    requires Agree(nodes, fInFlight, table) && nodes.Keys == nodes'.Keys
    requires forall n :: n in nodes ==> ListOf(nodes', fInFlight, n) == ListOf(nodes, fInFlight, n)
    requires forall n :: n in nodes ==> CountOf(nodes', fInFlight, n) == CountOf(nodes, fInFlight, n)
    ensures Agree(nodes', fInFlight, table)
  {
    forall n | n in nodes' ensures ListOk(nodes', fInFlight, table, n) {
      assert ListOk(nodes, fInFlight, table, n);
    }
    forall h | h in table ensures EntryOk(nodes', fInFlight, table, h) {
      assert EntryOk(nodes, fInFlight, table, h);
    }
  }

  /** A hash enters the list of one peer. */
  lemma {:induction false} AgreeEnter(nodes: Nodes, nodes': Nodes, fInFlight: bool, table: map<Hash, NodeId>, n: NodeId, h: Hash)
    requires Agree(nodes, fInFlight, table) && nodes.Keys == nodes'.Keys && n in nodes && h !in table
    requires ListOf(nodes', fInFlight, n) == ListOf(nodes, fInFlight, n) + [h]
    requires CountOf(nodes', fInFlight, n) == CountOf(nodes, fInFlight, n) + 1
    requires forall m :: m in nodes && m != n ==>
               ListOf(nodes', fInFlight, m) == ListOf(nodes, fInFlight, m) && CountOf(nodes', fInFlight, m) == CountOf(nodes, fInFlight, m)
    ensures Agree(nodes', fInFlight, table[h := n])
  {
    var table' := table[h := n];
    forall m | m in nodes' ensures ListOk(nodes', fInFlight, table', m) {
      assert ListOk(nodes, fInFlight, table, m);
    }
    forall x | x in table' ensures EntryOk(nodes', fInFlight, table', x) {
      if x != h {
        assert EntryOk(nodes, fInFlight, table, x);
        assert x in ListOf(nodes, fInFlight, table[x]);
      } else {
        var list := ListOf(nodes', fInFlight, n);
        assert list[|list| - 1] == h;
      }
    }
  }

  /** A list without the element at place i. */
  function Erased<T>(s: seq<T>, i: nat): (r: seq<T>)
    requires i < |s|
    ensures |r| == |s| - 1 && forall k :: 0 <= k < |r| ==> r[k] == s[if k < i then k else k + 1]
  {
    s[..i] + s[i + 1..]
  }

  /** A hash leaves the list of one peer. */
  lemma {:induction false} AgreeLeave(nodes: Nodes, nodes': Nodes, fInFlight: bool, table: map<Hash, NodeId>, n: NodeId, i: nat)
    requires Agree(nodes, fInFlight, table) && nodes.Keys == nodes'.Keys && n in nodes
    requires i < |ListOf(nodes, fInFlight, n)|
    requires ListOf(nodes', fInFlight, n) == Erased(ListOf(nodes, fInFlight, n), i)
    requires CountOf(nodes', fInFlight, n) == CountOf(nodes, fInFlight, n) - 1
    requires forall m :: m in nodes && m != n ==>
               ListOf(nodes', fInFlight, m) == ListOf(nodes, fInFlight, m) && CountOf(nodes', fInFlight, m) == CountOf(nodes, fInFlight, m)
    ensures Agree(nodes', fInFlight, table - {ListOf(nodes, fInFlight, n)[i]})
  {
    var list := ListOf(nodes, fInFlight, n);
    var h, list' := list[i], ListOf(nodes', fInFlight, n);
    var table' := table - {h};
    assert ListOk(nodes, fInFlight, table, n);
    forall m | m in nodes' ensures ListOk(nodes', fInFlight, table', m) {
      assert ListOk(nodes, fInFlight, table, m);
    }
    forall x | x in table' ensures EntryOk(nodes', fInFlight, table', x) {
      assert EntryOk(nodes, fInFlight, table, x);
      if table[x] == n {
        var k :| 0 <= k < |list| && list[k] == x;
        assert list'[if k < i then k else k - 1] == x;
      }
    }
  }

  // ---- the state ----

  datatype Tracker = Tracker(nodes: Nodes, mapBlocksInFlight: map<Hash, NodeId>, mapBlocksToDownload: map<Hash, NodeId>)

  /** Every hash is queued or in flight at one peer at most, and lists, counters and maps agree. */
  ghost predicate Consistent(s: Tracker) {
    && Agree(s.nodes, true, s.mapBlocksInFlight) && Agree(s.nodes, false, s.mapBlocksToDownload)
    && s.mapBlocksInFlight.Keys !! s.mapBlocksToDownload.Keys
  }

  /** No peer has more blocks in flight than allowed. */
  predicate Limited(s: Tracker) {
    forall n :: n in s.nodes ==> s.nodes[n].nBlocksInFlight <= MAX_BLOCKS_IN_TRANSIT_PER_PEER
  }

  /** A hash is in the lists of at most one peer, and in one of its lists only. */
  lemma {:induction false} AtMostOnePeer(s: Tracker, n: NodeId, m: NodeId, f: bool, g: bool, h: Hash)
    requires Consistent(s) && n in s.nodes && m in s.nodes
    requires h in ListOf(s.nodes, f, n) && h in ListOf(s.nodes, g, m)
    ensures n == m && f == g
  {
    assert ListOk(s.nodes, f, if f then s.mapBlocksInFlight else s.mapBlocksToDownload, n);
    assert ListOk(s.nodes, g, if g then s.mapBlocksInFlight else s.mapBlocksToDownload, m);
  }

  /** The first place of a hash in a list. */
  function PlaceOf(s: seq<Hash>, h: Hash): (i: nat)
    requires h in s
    ensures i < |s| && s[i] == h
  {
    if s[0] == h then 0 else 1 + PlaceOf(s[1..], h)
  }

  // ---- what the operations do ----

  /** A hash leaves the queue that it is in. */
  function Unqueued(s: Tracker, h: Hash): Tracker {
    if h in s.mapBlocksToDownload && s.mapBlocksToDownload[h] in s.nodes
       && h in s.nodes[s.mapBlocksToDownload[h]].vBlocksToDownload then
      var n := s.mapBlocksToDownload[h];
      var state := s.nodes[n];
      var list := Erased(state.vBlocksToDownload, PlaceOf(state.vBlocksToDownload, h));
      s.(nodes := s.nodes[n := state.(vBlocksToDownload := list, nBlocksToDownload := state.nBlocksToDownload - 1)],
         mapBlocksToDownload := s.mapBlocksToDownload - {h})
    else s
  }

  /** A hash is not in flight any more; the peer that delivered it is noted as active. */
  function Landed(s: Tracker, h: Hash, nodeFrom: NodeId, nNow: int): Tracker {
    if h in s.mapBlocksInFlight && s.mapBlocksInFlight[h] in s.nodes
       && h in Hashes(s.nodes[s.mapBlocksInFlight[h]].vBlocksInFlight) then
      var n := s.mapBlocksInFlight[h];
      var state := s.nodes[n];
      var list := Erased(state.vBlocksInFlight, PlaceOf(Hashes(state.vBlocksInFlight), h));
      var time := if n == nodeFrom then nNow else state.nLastBlockReceive;
      s.(nodes := s.nodes[n := state.(vBlocksInFlight := list, nBlocksInFlight := state.nBlocksInFlight - 1, nLastBlockReceive := time)],
         mapBlocksInFlight := s.mapBlocksInFlight - {h})
    else s
  }

  /** A hash is asked for from a peer. */
  function TakenOff(s: Tracker, n: NodeId, h: Hash, nNow: int): Tracker
    requires n in s.nodes
  {
    var state := s.nodes[n];
    var entry := QueuedBlock(h, nNow, state.nBlocksInFlight);
    var time := if state.nBlocksInFlight == 0 then nNow else state.nLastBlockReceive;
    s.(nodes := s.nodes[n := state.(vBlocksInFlight := state.vBlocksInFlight + [entry], nBlocksInFlight := state.nBlocksInFlight + 1, nLastBlockReceive := time)],
       mapBlocksInFlight := s.mapBlocksInFlight[h := n])
  }

  /** A hash is queued at a peer. */
  function Enqueued(s: Tracker, n: NodeId, h: Hash): Tracker
    requires n in s.nodes
  {
    var state := s.nodes[n];
    s.(nodes := s.nodes[n := state.(vBlocksToDownload := state.vBlocksToDownload + [h], nBlocksToDownload := state.nBlocksToDownload + 1)],
       mapBlocksToDownload := s.mapBlocksToDownload[h := n])
  }

  lemma {:induction false} UnqueuedKeeps(s: Tracker, h: Hash)
    requires Consistent(s)
    ensures Consistent(Unqueued(s, h)) && h !in Unqueued(s, h).mapBlocksToDownload
    ensures Unqueued(s, h).mapBlocksToDownload == s.mapBlocksToDownload - {h}
    ensures Limited(s) ==> Limited(Unqueued(s, h))
  {
    if h in s.mapBlocksToDownload {
      assert EntryOk(s.nodes, false, s.mapBlocksToDownload, h);
      var n := s.mapBlocksToDownload[h];
      AgreeLeave(s.nodes, Unqueued(s, h).nodes, false, s.mapBlocksToDownload, n, PlaceOf(s.nodes[n].vBlocksToDownload, h));
      AgreeSame(s.nodes, Unqueued(s, h).nodes, true, s.mapBlocksInFlight);
    }
  }

  lemma {:induction false} LandedKeeps(s: Tracker, h: Hash, nodeFrom: NodeId, nNow: int)
    requires Consistent(s)
    ensures Consistent(Landed(s, h, nodeFrom, nNow)) && h !in Landed(s, h, nodeFrom, nNow).mapBlocksInFlight
    ensures Landed(s, h, nodeFrom, nNow).mapBlocksInFlight == s.mapBlocksInFlight - {h}
    ensures Limited(s) ==> Limited(Landed(s, h, nodeFrom, nNow))
  {
    if h in s.mapBlocksInFlight {
      assert EntryOk(s.nodes, true, s.mapBlocksInFlight, h);
      var n, s' := s.mapBlocksInFlight[h], Landed(s, h, nodeFrom, nNow);
      var i := PlaceOf(Hashes(s.nodes[n].vBlocksInFlight), h);
      assert Hashes(Erased(s.nodes[n].vBlocksInFlight, i)) == Erased(Hashes(s.nodes[n].vBlocksInFlight), i);
      AgreeLeave(s.nodes, s'.nodes, true, s.mapBlocksInFlight, n, i);
      AgreeSame(s.nodes, s'.nodes, false, s.mapBlocksToDownload);
    }
  }

  lemma {:induction false} TakenOffKeeps(s: Tracker, n: NodeId, h: Hash, nNow: int)
    requires Consistent(s) && n in s.nodes && h !in s.mapBlocksInFlight && h !in s.mapBlocksToDownload
    ensures Consistent(TakenOff(s, n, h, nNow))
    ensures Hashes(TakenOff(s, n, h, nNow).nodes[n].vBlocksInFlight) == Hashes(s.nodes[n].vBlocksInFlight) + [h]
  {
    var s' := TakenOff(s, n, h, nNow);
    assert Hashes(s'.nodes[n].vBlocksInFlight) == Hashes(s.nodes[n].vBlocksInFlight) + [h];
    AgreeEnter(s.nodes, s'.nodes, true, s.mapBlocksInFlight, n, h);
    AgreeSame(s.nodes, s'.nodes, false, s.mapBlocksToDownload);
  }

  lemma {:induction false} EnqueuedKeeps(s: Tracker, n: NodeId, h: Hash)
    requires Consistent(s) && n in s.nodes && h !in s.mapBlocksInFlight && h !in s.mapBlocksToDownload
    ensures Consistent(Enqueued(s, n, h)) && (Limited(s) ==> Limited(Enqueued(s, n, h)))
  {
    var s' := Enqueued(s, n, h);
    AgreeEnter(s.nodes, s'.nodes, false, s.mapBlocksToDownload, n, h);
    AgreeSame(s.nodes, s'.nodes, true, s.mapBlocksInFlight);
  }

  /** A peer is new. */
  lemma {:induction false} InitializedKeeps(s: Tracker, n: NodeId)
    requires Consistent(s) && n !in s.nodes
    ensures Consistent(s.(nodes := s.nodes[n := NEW_NODE])) && (Limited(s) ==> Limited(s.(nodes := s.nodes[n := NEW_NODE])))
  {
    var nodes' := s.nodes[n := NEW_NODE];
    AgreeNew(s.nodes, true, s.mapBlocksInFlight, n);
    AgreeNew(s.nodes, false, s.mapBlocksToDownload, n);
  }

  lemma {:induction false} AgreeNew(nodes: Nodes, fInFlight: bool, table: map<Hash, NodeId>, n: NodeId)
    requires Agree(nodes, fInFlight, table) && n !in nodes
    ensures Agree(nodes[n := NEW_NODE], fInFlight, table)
  {
    var nodes' := nodes[n := NEW_NODE];
    forall m | m in nodes' ensures ListOk(nodes', fInFlight, table, m) {
      if m != n {
        assert ListOk(nodes, fInFlight, table, m);
      }
    }
    forall h | h in table ensures EntryOk(nodes', fInFlight, table, h) {
      assert EntryOk(nodes, fInFlight, table, h);
    }
  }

  /** A peer leaves, and the entries of the map for its list go with it. */
  lemma {:induction false} AgreeGone(nodes: Nodes, fInFlight: bool, table: map<Hash, NodeId>, n: NodeId)
    requires Agree(nodes, fInFlight, table) && n in nodes
    ensures Agree(nodes - {n}, fInFlight, table - Members(ListOf(nodes, fInFlight, n)))
    ensures forall h :: h in table - Members(ListOf(nodes, fInFlight, n)) <==> h in table && table[h] != n
  {
    var list := ListOf(nodes, fInFlight, n);
    var nodes', table' := nodes - {n}, table - Members(list);
    assert ListOk(nodes, fInFlight, table, n);
    forall h | h in table ensures h in list <==> table[h] == n {
      assert EntryOk(nodes, fInFlight, table, h);
    }
    forall m | m in nodes' ensures ListOk(nodes', fInFlight, table', m) {
      assert ListOk(nodes, fInFlight, table, m);
    }
    forall h | h in table' ensures EntryOk(nodes', fInFlight, table', h) {
      assert EntryOk(nodes, fInFlight, table, h);
    }
  }

  // ---- the operations ----

  class Downloads {
    var mapNodeState: Nodes
    var mapBlocksInFlight: map<Hash, NodeId>
    var mapBlocksToDownload: map<Hash, NodeId>

    function Now(): Tracker
      reads this
    {
      Tracker(mapNodeState, mapBlocksInFlight, mapBlocksToDownload)
    }

    ghost predicate Valid()
      reads this
    {
      Consistent(Now()) && Limited(Now())
    }

    constructor ()
      ensures Valid() && mapNodeState == map[]
    {
      mapNodeState, mapBlocksInFlight, mapBlocksToDownload := map[], map[], map[];
    }

    /** A peer connects; a peer that is known keeps its state. */
    method InitializeNode(nodeid: NodeId)
      requires Valid()
      modifies this
      ensures Valid()
      ensures Now() == if nodeid in old(mapNodeState) then old(Now()) else old(Now()).(nodes := old(mapNodeState)[nodeid := NEW_NODE])
    {
      if nodeid !in mapNodeState {
        InitializedKeeps(Now(), nodeid);
        mapNodeState := mapNodeState[nodeid := NEW_NODE];
      }
    }

    /** A known peer disconnects; exactly its hashes are forgotten. */
    method FinalizeNode(nodeid: NodeId)
      requires Valid() && nodeid in mapNodeState
      modifies this
      ensures Valid() && mapNodeState == old(mapNodeState) - {nodeid}
      ensures forall h :: h in mapBlocksInFlight <==> h in old(mapBlocksInFlight) && old(mapBlocksInFlight)[h] != nodeid
      ensures forall h :: h in mapBlocksToDownload <==> h in old(mapBlocksToDownload) && old(mapBlocksToDownload)[h] != nodeid
    {
      var state := mapNodeState[nodeid];
      AgreeGone(mapNodeState, true, mapBlocksInFlight, nodeid);
      AgreeGone(mapNodeState, false, mapBlocksToDownload, nodeid);
      mapBlocksInFlight := EraseAll(mapBlocksInFlight, Hashes(state.vBlocksInFlight));
      mapBlocksToDownload := EraseAll(mapBlocksToDownload, state.vBlocksToDownload);
      mapNodeState := mapNodeState - {nodeid};
    }

    /** A block was received, or is not to be asked for any more: it is queued and in flight nowhere. */
    method MarkBlockAsReceived(hash: Hash, nodeFrom: NodeId, nNow: int)
      requires Consistent(Now())
      modifies this
      ensures Consistent(Now()) && (old(Limited(Now())) ==> Limited(Now())) && mapNodeState.Keys == old(mapNodeState.Keys)
      ensures Now() == Landed(Unqueued(old(Now()), hash), hash, nodeFrom, nNow)
      ensures mapBlocksInFlight == old(mapBlocksInFlight) - {hash} && mapBlocksToDownload == old(mapBlocksToDownload) - {hash}
    {
      UnqueuedKeeps(Now(), hash);
      LandedKeeps(Unqueued(Now(), hash), hash, nodeFrom, nNow);
      if hash in mapBlocksToDownload {
        assert EntryOk(mapNodeState, false, mapBlocksToDownload, hash);
        var n := mapBlocksToDownload[hash];
        var state := mapNodeState[n];
        state := state.(vBlocksToDownload := Erased(state.vBlocksToDownload, PlaceOf(state.vBlocksToDownload, hash)));
        state := state.(nBlocksToDownload := state.nBlocksToDownload - 1);
        mapNodeState := mapNodeState[n := state];
        mapBlocksToDownload := mapBlocksToDownload - {hash};
      }
      Land(hash, nodeFrom, nNow);
    }

    /** The second half of MarkBlockAsReceived. */
    method Land(hash: Hash, nodeFrom: NodeId, nNow: int)
      requires Consistent(Now())
      modifies `mapNodeState, `mapBlocksInFlight
      ensures Now() == Landed(old(Now()), hash, nodeFrom, nNow)
    {
      if hash in mapBlocksInFlight {
        assert EntryOk(mapNodeState, true, mapBlocksInFlight, hash);
        var n := mapBlocksInFlight[hash];
        var state := mapNodeState[n];
        state := state.(vBlocksInFlight := Erased(state.vBlocksInFlight, PlaceOf(Hashes(state.vBlocksInFlight), hash)));
        state := state.(nBlocksInFlight := state.nBlocksInFlight - 1);
        if n == nodeFrom {
          state := state.(nLastBlockReceive := nNow);
        }
        mapNodeState := mapNodeState[n := state];
        mapBlocksInFlight := mapBlocksInFlight - {hash};
      }
    }

    /** Queues a hash at a known peer, unless it is queued or in flight anywhere. A peer with too many
        hashes queued is punished. */
    method AddBlockToQueue(nodeid: NodeId, hash: Hash) returns (added: bool, nMisbehaving: nat)
      requires Valid()
      modifies this
      ensures Valid()
      ensures added <==> hash !in old(mapBlocksToDownload) && hash !in old(mapBlocksInFlight) && nodeid in old(mapNodeState)
      ensures Now() == if added then Enqueued(old(Now()), nodeid, hash) else old(Now())
      ensures nMisbehaving == if added && |mapNodeState[nodeid].vBlocksToDownload| > 5000 then 10 else 0
    {
      nMisbehaving := 0;
      if hash in mapBlocksToDownload || hash in mapBlocksInFlight {
        return false, nMisbehaving;
      }
      if nodeid !in mapNodeState {
        return false, nMisbehaving;
      }
      EnqueuedKeeps(Now(), nodeid, hash);
      assert ListOk(mapNodeState, false, mapBlocksToDownload, nodeid);
      var state := mapNodeState[nodeid];
      state := state.(vBlocksToDownload := state.vBlocksToDownload + [hash], nBlocksToDownload := state.nBlocksToDownload + 1);
      mapNodeState := mapNodeState[nodeid := state];
      if state.nBlocksToDownload > MAX_BLOCKS_QUEUED {
        nMisbehaving := 10;
      }
      mapBlocksToDownload := mapBlocksToDownload[hash := nodeid];
      return true, nMisbehaving;
    }

    /** Notes that a hash was asked for from a known peer, and nowhere else. */
    method MarkBlockAsInFlight(nodeid: NodeId, hash: Hash, nNow: int)
      requires Consistent(Now()) && nodeid in mapNodeState
      modifies this
      ensures Consistent(Now()) && mapNodeState.Keys == old(mapNodeState.Keys)
      ensures Now() == TakenOff(Landed(Unqueued(old(Now()), hash), hash, -1, nNow), nodeid, hash, nNow)
    {
      MarkBlockAsReceived(hash, -1, nNow);
      TakenOffKeeps(Now(), nodeid, hash, nNow);
      var state := mapNodeState[nodeid];
      var newentry := QueuedBlock(hash, nNow, state.nBlocksInFlight);
      if state.nBlocksInFlight == 0 {
        state := state.(nLastBlockReceive := nNow);
      }
      state := state.(vBlocksInFlight := state.vBlocksInFlight + [newentry]);
      state := state.(nBlocksInFlight := state.nBlocksInFlight + 1);
      mapNodeState := mapNodeState[nodeid := state];
      mapBlocksInFlight := mapBlocksInFlight[hash := nodeid];
    }

    /** One round of the getdata loop. */
    method RequestFront(pto: NodeId, nNow: int) returns (hash: Hash)
      requires Valid() && pto in mapNodeState && mapNodeState[pto].vBlocksToDownload != []
      requires mapNodeState[pto].nBlocksInFlight < MAX_BLOCKS_IN_TRANSIT_PER_PEER
      modifies this
      ensures Valid() && mapNodeState.Keys == old(mapNodeState.Keys)
      ensures Asked(old(mapNodeState[pto]), mapNodeState[pto], [hash])
      ensures forall n :: n in mapNodeState && n != pto ==> mapNodeState[n] == old(mapNodeState[n])
    {
      hash := mapNodeState[pto].vBlocksToDownload[0];
      FrontMoves(Now(), pto, nNow);
      MarkBlockAsInFlight(pto, hash, nNow);
    }

    /** The getdata loop for one peer: asks for queued blocks in order, as many as may be in flight.
        They are too few for a message of their own, which the source sends for every 1000. */
    method SendGetData(pto: NodeId, fDisconnect: bool, nNow: int) returns (vGetData: seq<Hash>)
      requires Valid() && pto in mapNodeState
      modifies this
      ensures Valid() && mapNodeState.Keys == old(mapNodeState.Keys)
      ensures var queue, n := old(mapNodeState[pto].vBlocksToDownload), old(mapNodeState[pto].nBlocksInFlight);
        |vGetData| == (if fDisconnect then 0 else if |queue| <= MAX_BLOCKS_IN_TRANSIT_PER_PEER - n then |queue| else MAX_BLOCKS_IN_TRANSIT_PER_PEER - n)
      ensures Asked(old(mapNodeState[pto]), mapNodeState[pto], vGetData)
      ensures forall n :: n in mapNodeState && n != pto ==> mapNodeState[n] == old(mapNodeState[n])
    {
      vGetData := [];
      ghost var state := mapNodeState[pto];
      assert ListOk(mapNodeState, false, mapBlocksToDownload, pto) && ListOk(mapNodeState, true, mapBlocksInFlight, pto);
      while !fDisconnect && mapNodeState[pto].nBlocksToDownload != 0
            && mapNodeState[pto].nBlocksInFlight < MAX_BLOCKS_IN_TRANSIT_PER_PEER
        invariant Valid() && mapNodeState.Keys == old(mapNodeState.Keys)
        invariant Asked(state, mapNodeState[pto], vGetData)
        invariant mapNodeState[pto].nBlocksToDownload == |mapNodeState[pto].vBlocksToDownload|
        invariant fDisconnect ==> vGetData == []
        invariant forall n :: n in mapNodeState && n != pto ==> mapNodeState[n] == old(mapNodeState[n])
        decreases |mapNodeState[pto].vBlocksToDownload|
      {
        ghost var before := mapNodeState[pto];
        var hash := RequestFront(pto, nNow);
        AskedMore(state, before, mapNodeState[pto], vGetData, hash);
        vGetData := vGetData + [hash];
        assert |vGetData| <= MAX_BLOCKS_IN_TRANSIT_PER_PEER < 1000;
      }
    }
  }

  /** The first blocks of the queue of a peer went to the end of its blocks in flight. */
  predicate Asked(state: NodeState, state': NodeState, hashes: seq<Hash>) {
    && state.vBlocksToDownload == hashes + state'.vBlocksToDownload
    && Hashes(state'.vBlocksInFlight) == Hashes(state.vBlocksInFlight) + hashes
    && state'.nBlocksToDownload == state.nBlocksToDownload - |hashes|
    && state'.nBlocksInFlight == state.nBlocksInFlight + |hashes|
  }

  lemma {:induction false} AskedMore(a: NodeState, b: NodeState, c: NodeState, hashes: seq<Hash>, hash: Hash)
    requires Asked(a, b, hashes) && Asked(b, c, [hash])
    ensures Asked(a, c, hashes + [hash])
  {
    assert hashes + ([hash] + c.vBlocksToDownload) == (hashes + [hash]) + c.vBlocksToDownload;
  }

  method EraseAll(table: map<Hash, NodeId>, list: seq<Hash>) returns (r: map<Hash, NodeId>)
    ensures r == table - Members(list)
  {
    r := table;
    for i := 0 to |list|
      invariant r == table - Members(list[..i])
    {
      assert list[..i + 1] == list[..i] + [list[i]];
      r := r - {list[i]};
    }
    assert list[..|list|] == list;
  }

  /** Asking for the first block of a queue moves it from the queue to the blocks in flight of the
      same peer, and changes no other peer. */
  lemma {:induction false} FrontMoves(s: Tracker, n: NodeId, nNow: int)
    requires Consistent(s) && n in s.nodes && s.nodes[n].vBlocksToDownload != []
    ensures var h := s.nodes[n].vBlocksToDownload[0];
      var s' := Landed(Unqueued(s, h), h, -1, nNow);
      && s'.nodes.Keys == s.nodes.Keys
      && var s'' := TakenOff(s', n, h, nNow);
      && s''.nodes.Keys == s.nodes.Keys && Asked(s.nodes[n], s''.nodes[n], [h])
      && forall m :: m in s.nodes && m != n ==> s''.nodes[m] == s.nodes[m]
  {
    var list := s.nodes[n].vBlocksToDownload;
    var h := list[0];
    assert ListOk(s.nodes, false, s.mapBlocksToDownload, n);
    assert h in s.mapBlocksToDownload && s.mapBlocksToDownload[h] == n;
    UnqueuedKeeps(s, h);
    assert Erased(list, 0) == list[1..];
    assert Landed(Unqueued(s, h), h, -1, nNow) == Unqueued(s, h);
    TakenOffKeeps(Unqueued(s, h), n, h, nNow);
  }
}
