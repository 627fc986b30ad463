/**
 The queue of script checks shared by threads (CCheckQueue and CCheckQueueControl in
 src/checkqueue.h), as a state machine. Thread 0 is the master, the others are workers, of which
 there may be any number. What a thread does while it holds the mutex is split where another
 thread could look at the fields without holding it.
 */
module CheckQueue {
  import opened Core
  import opened Numbers

  datatype Check = Check(id: nat, passes: bool)

  predicate AllPass(checks: seq<Check>) {
    forall c :: c in checks ==> c.passes
  }

  /** Where a thread is in Loop. */
  datatype Pc =
    | Outside
    | Entering(nNow: nat, fOk: bool)                        // about to take the mutex, after a batch if nNow > 0
    | Deciding                                              // holds the mutex, at the test of the queue
    | Waiting(notified: bool)                               // in wait(), having released the mutex
    | Working(vChecks: seq<Check>, nNow: nat, fOk: bool)    // runs a batch; vChecks are those not run yet

  /** The fields of the queue and the threads. `added` are the checks added since the last Wait
      returned, and `result` is what that returned. */
  datatype State = State(
    queue: seq<Check>, nIdle: int, nTotal: int, fAllOk: bool, nTodo: int, fQuit: bool, nBatchSize: nat,
    mutex: Option<nat>, threads: seq<Pc>, added: seq<Check>, result: Option<bool>)

  function Init(nWorkers: nat, nBatchSize: nat, fQuit: bool): State {
    State([], 0, 0, true, 0, fQuit, nBatchSize, None, seq(nWorkers + 1, _ => Outside), [], None)
  }

  // ---- steps ----

  /** `w` is the thread that notify_one wakes, when there is one to wake. */
  datatype Step =
    | Add(vChecks: seq<Check>, w: nat)
    | Start(t: nat)
    | Lock(t: nat)
    | Decide(t: nat)
    | Wake(t: nat)
    | Run(t: nat)

  predicate IsWaiting(s: State, t: nat) {
    t < |s.threads| && s.threads[t] == Waiting(false)
  }

  predicate Enabled(s: State, step: Step) {
    match step
    case Add(vChecks, w) =>
      && s.mutex == None && |s.threads| > 0 && s.threads[0] == Outside
      && (w == 0 || !IsWaiting(s, w) ==> forall t :: 0 < t < |s.threads| ==> !IsWaiting(s, t))
    case Start(t) => t < |s.threads| && s.threads[t] == Outside
    case Lock(t) => t < |s.threads| && s.threads[t].Entering? && s.mutex == None
    case Decide(t) => t < |s.threads| && s.threads[t] == Deciding && s.mutex == Some(t)
    case Wake(t) => t < |s.threads| && s.threads[t].Waiting? && s.mutex == None
    case Run(t) => t < |s.threads| && s.threads[t].Working?
  }

  function Notified(pc: Pc): Pc {
    if pc.Waiting? then Waiting(true) else pc
  }

  /** The threads after the workers from lo on are notified. */
  function NotifyFrom(threads: seq<Pc>, lo: nat): (r: seq<Pc>)
    ensures |r| == |threads|
    ensures forall t :: 0 <= t < |threads| ==> r[t] == if t >= lo then Notified(threads[t]) else threads[t]
  {
    seq(|threads|, t requires 0 <= t < |threads| => if t >= lo then Notified(threads[t]) else threads[t])
  }

  function NotifyOne(threads: seq<Pc>, t: nat): seq<Pc> {
    if t < |threads| then threads[t := Notified(threads[t])] else threads
  }

  /** How many checks a thread takes at once. */
  function BatchSize(s: State): (nNow: nat)
    requires s.nTotal >= 0 && s.nIdle >= 0 && s.queue != []
    ensures 1 <= nNow <= |s.queue|
    ensures nNow > 1 ==> nNow <= s.nBatchSize && nNow * (s.nTotal + s.nIdle + 1) <= |s.queue|
    ensures nNow >= s.nBatchSize || (nNow + 1) * (s.nTotal + s.nIdle + 1) > |s.queue|
  {
    var threads, share := s.nTotal + s.nIdle + 1, |s.queue| / (s.nTotal + s.nIdle + 1);
    QuotientAtMost(|s.queue|, threads);
    QuotientBounds(|s.queue|, threads);
    Max(1, Min(s.nBatchSize, share))
  }

  /** The last n checks of the queue, the last one first. */
  function Taken(queue: seq<Check>, n: nat): seq<Check>
    requires n <= |queue|
  {
    seq(n, i requires 0 <= i < n => queue[|queue| - 1 - i])
  }

  /** Taking the mutex, and accounting for the batch that was run. */
  function Locked(s: State, t: nat): State
    requires t < |s.threads| && s.threads[t].Entering?
  {
    var pc := s.threads[t];
    var threads := s.threads[t := Deciding];
    if pc.nNow > 0 then
      var nTodo := s.nTodo - pc.nNow;
      s.(fAllOk := s.fAllOk && pc.fOk, nTodo := nTodo, mutex := Some(t),
         threads := if nTodo == 0 && t != 0 then NotifyOne(threads, 0) else threads)
    else
      s.(nTotal := s.nTotal + 1, mutex := Some(t), threads := threads)
  }

  /** What a thread does with the mutex: return, wait, or take a batch. */
  function Decided(s: State, t: nat): State
    requires t < |s.threads| && s.nTotal >= 0 && s.nIdle >= 0
  {
    if s.queue == [] then
      if (t == 0 || s.fQuit) && s.nTodo == 0 then
        var r := s.(nTotal := s.nTotal - 1, mutex := None, threads := s.threads[t := Outside]);
        if t == 0 then r.(fAllOk := true, added := [], result := Some(s.fAllOk)) else r
      else s.(nIdle := s.nIdle + 1, mutex := None, threads := s.threads[t := Waiting(false)])
    else
      var nNow := BatchSize(s);
      s.(queue := s.queue[..|s.queue| - nNow], mutex := None,
         threads := s.threads[t := Working(Taken(s.queue, nNow), nNow, s.fAllOk)])
  }

  function Ran(pc: Pc): Pc
    requires pc.Working?
  {
    if pc.vChecks == [] then Entering(pc.nNow, pc.fOk)
    else Working(pc.vChecks[1..], pc.nNow, pc.fOk && pc.vChecks[0].passes)
  }

  function Apply(s: State, step: Step): State
    requires Enabled(s, step) && s.nTotal >= 0 && s.nIdle >= 0
  {
    match step
    case Add(vChecks, w) =>
      s.(queue := s.queue + vChecks, nTodo := s.nTodo + |vChecks|, added := s.added + vChecks, result := None,
         threads := if |vChecks| == 1 then (if w != 0 then NotifyOne(s.threads, w) else s.threads)
                    else if |vChecks| > 1 then NotifyFrom(s.threads, 1) else s.threads)
    case Start(t) => s.(threads := s.threads[t := Entering(0, true)])
    case Lock(t) => Locked(s, t)
    case Decide(t) => Decided(s, t)
    case Wake(t) => s.(nIdle := s.nIdle - 1, mutex := Some(t), threads := s.threads[t := Deciding])
    case Run(t) => s.(threads := s.threads[t := Ran(s.threads[t])])
  }

  // ---- adding up over the threads ----

  function Tally(threads: seq<Pc>, weight: Pc -> int): int {
    if threads == [] then 0 else Tally(threads[..|threads| - 1], weight) + weight(threads[|threads| - 1])
  }

  lemma {:induction false} TallyUpdate(threads: seq<Pc>, t: nat, pc: Pc, weight: Pc -> int)
    requires t < |threads|
    ensures Tally(threads[t := pc], weight) == Tally(threads, weight) - weight(threads[t]) + weight(pc)
  {
    var last := |threads| - 1;
    if t == last {
      assert threads[t := pc][..last] == threads[..last];
    } else {
      assert threads[t := pc][..last] == threads[..last][t := pc];
      TallyUpdate(threads[..last], t, pc, weight);
    }
  }

  /** Threads of the same weight each have the same weight together. */
  lemma {:induction false} TallySame(a: seq<Pc>, b: seq<Pc>, weight: Pc -> int)
    requires |a| == |b| && forall t :: 0 <= t < |a| ==> weight(a[t]) == weight(b[t])
    ensures Tally(a, weight) == Tally(b, weight)
  {
    if a != [] {
      TallySame(a[..|a| - 1], b[..|b| - 1], weight);
    }
  }

  /** Nothing together means nothing each. */
  lemma {:induction false} TallyPositive(threads: seq<Pc>, weight: Pc -> int)
    requires forall pc :: weight(pc) >= 0
    ensures Tally(threads, weight) >= 0
    ensures Tally(threads, weight) > 0 <==> exists t :: 0 <= t < |threads| && weight(threads[t]) > 0
  {
    if threads != [] {
      var last := |threads| - 1;
      TallyPositive(threads[..last], weight);
      if t :| 0 <= t < last && weight(threads[..last][t]) > 0 {
        assert weight(threads[t]) > 0;
      }
      if t :| 0 <= t < |threads| && weight(threads[t]) > 0 {
        assert t == last || weight(threads[..last][t]) > 0;
      }
    }
  }

  // ---- the invariant ----

  /** The checks of a batch that is not accounted for yet. */
  function Batch(pc: Pc): int {
    if pc.Entering? || pc.Working? then pc.nNow else 0
  }

  function Idle(pc: Pc): int {
    if pc.Waiting? then 1 else 0
  }

  /** Threads count from their first time at the mutex until they return. */
  function Counted(pc: Pc): int {
    if pc == Outside || (pc.Entering? && pc.nNow == 0) then 0 else 1
  }

  predicate ThreadOk(pc: Pc) {
    && (pc.Working? ==> pc.nNow > 0)
    && (pc.Entering? && pc.nNow == 0 ==> pc.fOk)
  }

  /** No failure was seen in the batch so far, and what is left of it passes. */
  predicate Passing(pc: Pc) {
    && (pc.Entering? || pc.Working? ==> pc.fOk)
    && (pc.Working? ==> AllPass(pc.vChecks))
  }

  predicate AllPassing(threads: seq<Pc>) {
    forall t :: 0 <= t < |threads| ==> Passing(threads[t])
  }

  predicate Inv(s: State) {
    && s.threads != []
    && s.nTodo == |s.queue| + Tally(s.threads, Batch)
    && s.nTodo <= |s.added|
    && s.nIdle == Tally(s.threads, Idle) >= 0
    && s.nTotal == Tally(s.threads, Counted) >= 0
    && (forall t :: 0 <= t < |s.threads| ==> ThreadOk(s.threads[t]))
    && (forall t :: 0 <= t < |s.threads| ==> (s.threads[t] == Deciding <==> s.mutex == Some(t)))
    && (s.mutex.Some? ==> s.mutex.value < |s.threads|)
    && (AllPass(s.added) <==> s.fAllOk && AllPass(s.queue) && AllPassing(s.threads))
    && (s.threads[0].Waiting? ==> s.queue == [] && (s.nTodo == 0 ==> s.threads[0].notified))
  }

  lemma {:induction false} TallyOutside(n: nat, weight: Pc -> int)
    requires weight(Outside) == 0
    ensures Tally(seq(n, _ => Outside), weight) == 0
  {
    if n > 0 {
      assert seq(n, _ => Outside)[..n - 1] == seq(n - 1, _ => Outside);
      TallyOutside(n - 1, weight);
    }
  }

  lemma {:induction false} InitInv(nWorkers: nat, nBatchSize: nat, fQuit: bool)
    ensures Inv(Init(nWorkers, nBatchSize, fQuit))
  {
    TallyOutside(nWorkers + 1, Batch);
    TallyOutside(nWorkers + 1, Idle);
    TallyOutside(nWorkers + 1, Counted);
  }

  // ---- every step keeps the invariant ----

  /** Two groups of threads with the same tallies. */
  predicate SameTallies(a: seq<Pc>, b: seq<Pc>) {
    && Tally(a, Batch) == Tally(b, Batch)
    && Tally(a, Idle) == Tally(b, Idle)
    && Tally(a, Counted) == Tally(b, Counted)
  }

  /** Being notified changes nothing but the flag. */
  lemma {:induction false} NotifiedSame(a: seq<Pc>, b: seq<Pc>)
    requires |a| == |b| && forall t :: 0 <= t < |a| ==> b[t] == a[t] || b[t] == Notified(a[t])
    ensures SameTallies(a, b)
    ensures AllPassing(b) <==> AllPassing(a)
    ensures forall t :: 0 <= t < |a| ==> (ThreadOk(b[t]) <==> ThreadOk(a[t])) && (b[t] == Deciding <==> a[t] == Deciding)
  {
    TallySame(a, b, Batch);
    TallySame(a, b, Idle);
    TallySame(a, b, Counted);
    assert forall t :: 0 <= t < |a| ==> (Passing(b[t]) <==> Passing(a[t]));
  }

  /** What a change of one thread does to the tallies. */
  lemma {:induction false} UpdateTallies(threads: seq<Pc>, t: nat, pc: Pc)
    requires t < |threads|
    ensures Tally(threads[t := pc], Batch) == Tally(threads, Batch) - Batch(threads[t]) + Batch(pc)
    ensures Tally(threads[t := pc], Idle) == Tally(threads, Idle) - Idle(threads[t]) + Idle(pc)
    ensures Tally(threads[t := pc], Counted) == Tally(threads, Counted) - Counted(threads[t]) + Counted(pc)
    ensures Passing(threads[t]) && Passing(pc) ==> (AllPassing(threads[t := pc]) <==> AllPassing(threads))
  {
    TallyUpdate(threads, t, pc, Batch);
    TallyUpdate(threads, t, pc, Idle);
    TallyUpdate(threads, t, pc, Counted);
    if Passing(threads[t]) && Passing(pc) && AllPassing(threads[t := pc]) {
      forall u | 0 <= u < |threads| ensures Passing(threads[u]) {
        assert u == t || Passing(threads[t := pc][u]);
      }
    }
  }

  lemma {:induction false} AllPassConcat(a: seq<Check>, b: seq<Check>)
    ensures AllPass(a + b) <==> AllPass(a) && AllPass(b)
  {
    assert forall c :: c in a + b <==> c in a || c in b;
  }

  lemma {:induction false} AddKeeps(s: State, vChecks: seq<Check>, w: nat)
    requires Inv(s) && Enabled(s, Add(vChecks, w))
    ensures Inv(Apply(s, Add(vChecks, w)))
  {
    var s' := Apply(s, Add(vChecks, w));
    NotifiedSame(s.threads, s'.threads);
    AllPassConcat(s.queue, vChecks);
    AllPassConcat(s.added, vChecks);
    assert s'.threads[0] == s.threads[0];
  }

  lemma {:induction false} StartKeeps(s: State, t: nat)
    requires Inv(s) && Enabled(s, Start(t))
    ensures Inv(Apply(s, Start(t)))
  {
    UpdateTallies(s.threads, t, Entering(0, true));
  }

  lemma {:induction false} WakeKeeps(s: State, t: nat)
    requires Inv(s) && Enabled(s, Wake(t))
    ensures Inv(Apply(s, Wake(t)))
  {
    UpdateTallies(s.threads, t, Deciding);
    TallyPositive(s.threads, Idle);
    TallyPositive(s.threads[t := Deciding], Idle);
  }

  /** Running a check keeps what the rest of the batch comes to. */
  lemma {:induction false} RanPassing(pc: Pc)
    requires pc.Working? && ThreadOk(pc)
    ensures Passing(Ran(pc)) <==> Passing(pc)
    ensures ThreadOk(Ran(pc)) && Ran(pc) != Deciding && !Ran(pc).Waiting?
    ensures Batch(Ran(pc)) == Batch(pc) && Idle(Ran(pc)) == Idle(pc) && Counted(Ran(pc)) == Counted(pc)
  {
    if pc.vChecks != [] {
      assert pc.vChecks == [pc.vChecks[0]] + pc.vChecks[1..];
      AllPassConcat([pc.vChecks[0]], pc.vChecks[1..]);
    }
  }

  lemma {:induction false} RunKeeps(s: State, t: nat)
    requires Inv(s) && Enabled(s, Run(t))
    ensures Inv(Apply(s, Run(t)))
  {
    RanPassing(s.threads[t]);
    UpdateTallies(s.threads, t, Ran(s.threads[t]));
    SwapPassing(s.threads, t, Ran(s.threads[t]));
    assert Passing(s.threads[t := Ran(s.threads[t])][t]) <==> Passing(s.threads[t]);
  }

  lemma {:induction false} SwapPassing(threads: seq<Pc>, t: nat, pc: Pc)
    requires t < |threads|
    ensures AllPassing(threads[t := pc]) && Passing(threads[t]) <==> AllPassing(threads) && Passing(pc)
  {
    if AllPassing(threads[t := pc]) && Passing(threads[t]) {
      forall u | 0 <= u < |threads| ensures Passing(threads[u]) {
        assert u == t || Passing(threads[t := pc][u]);
      }
      assert Passing(threads[t := pc][t]);
    }
  }

  lemma {:induction false} LockKeeps(s: State, t: nat)
    requires Inv(s) && Enabled(s, Lock(t))
    ensures Inv(Apply(s, Lock(t)))
  {
    var threads := s.threads[t := Deciding];
    UpdateTallies(s.threads, t, Deciding);
    SwapPassing(s.threads, t, Deciding);
    if s.threads[t].nNow > 0 {
      AccountKeeps(s, t);
    }
  }

  /** Accounting for a batch: the result is merged, and the master is told when nothing is left. */
  lemma {:induction false} AccountKeeps(s: State, t: nat)
    requires Inv(s) && Enabled(s, Lock(t)) && s.threads[t].nNow > 0
    ensures Inv(Apply(s, Lock(t)))
  {
    var threads, s' := s.threads[t := Deciding], Apply(s, Lock(t));
    UpdateTallies(s.threads, t, Deciding);
    SwapPassing(s.threads, t, Deciding);
    NotifiedSame(threads, s'.threads);
    TallyPositive(threads, Batch);
    assert AllPassing(s.threads) <==> AllPassing(s'.threads) && s.threads[t].fOk;
    assert s'.nTodo == |s'.queue| + Tally(s'.threads, Batch);
  }

  lemma {:induction false} DecideKeeps(s: State, t: nat)
    requires Inv(s) && Enabled(s, Decide(t))
    ensures Inv(Apply(s, Decide(t)))
  {
    if s.queue != [] {
      TakeKeeps(s, t);
    } else if (t == 0 || s.fQuit) && s.nTodo == 0 {
      LeaveKeeps(s, t);
    } else {
      WaitKeeps(s, t);
    }
  }

  lemma {:induction false} WaitKeeps(s: State, t: nat)
    requires Inv(s) && Enabled(s, Decide(t)) && s.queue == [] && !((t == 0 || s.fQuit) && s.nTodo == 0)
    ensures Inv(Apply(s, Decide(t)))
  {
    UpdateTallies(s.threads, t, Waiting(false));
    TallyPositive(s.threads, Idle);
  }

  lemma {:induction false} LeaveKeeps(s: State, t: nat)
    requires Inv(s) && Enabled(s, Decide(t)) && s.queue == [] && (t == 0 || s.fQuit) && s.nTodo == 0
    ensures Inv(Apply(s, Decide(t)))
  {
    UpdateTallies(s.threads, t, Outside);
    TallyPositive(s.threads[t := Outside], Counted);
    NoBatchPasses(s.threads);
  }

  /** When no batch is outstanding, nothing is left to pass. */
  lemma {:induction false} NoBatchPasses(threads: seq<Pc>)
    requires Tally(threads, Batch) == 0 && forall t :: 0 <= t < |threads| ==> ThreadOk(threads[t])
    ensures AllPassing(threads)
    ensures forall t :: 0 <= t < |threads| ==> !threads[t].Working? && (threads[t].Entering? ==> threads[t].nNow == 0)
  {
    TallyPositive(threads, Batch);
    assert forall t :: 0 <= t < |threads| ==> Batch(threads[t]) == 0;
  }

  lemma {:induction false} TakenPasses(queue: seq<Check>, n: nat)
    requires n <= |queue|
    ensures AllPass(queue) <==> AllPass(queue[..|queue| - n]) && AllPass(Taken(queue, n))
  {
    var front, taken := queue[..|queue| - n], Taken(queue, n);
    if AllPass(front) && AllPass(taken) {
      forall i | 0 <= i < |queue| ensures queue[i].passes {
        assert if i < |front| then queue[i] == front[i] else queue[i] == taken[|queue| - 1 - i];
      }
    }
    if AllPass(queue) {
      forall i | 0 <= i < n ensures taken[i].passes {
        assert taken[i] in queue;
      }
    }
  }

  lemma {:induction false} TakeKeeps(s: State, t: nat)
    requires Inv(s) && Enabled(s, Decide(t)) && s.queue != []
    ensures Inv(Apply(s, Decide(t)))
  {
    var nNow := BatchSize(s);
    var pc := Working(Taken(s.queue, nNow), nNow, s.fAllOk);
    UpdateTallies(s.threads, t, pc);
    SwapPassing(s.threads, t, pc);
    TakenPasses(s.queue, nNow);
  }

  lemma {:induction false} StepKeeps(s: State, step: Step)
    requires Inv(s) && Enabled(s, step)
    ensures Inv(Apply(s, step))
  {
    match step
    case Add(vChecks, w) => AddKeeps(s, vChecks, w);
    case Start(t) => StartKeeps(s, t);
    case Lock(t) => LockKeeps(s, t);
    case Decide(t) => DecideKeeps(s, t);
    case Wake(t) => WakeKeeps(s, t);
    case Run(t) => RunKeeps(s, t);
  }

  // ---- runs ----

  /** A run: each step is possible where it is taken. */
  predicate IsRun(s: State, steps: seq<Step>)
    requires Inv(s)
    decreases |steps|
  {
    steps == [] || (Enabled(s, steps[0]) && (StepKeeps(s, steps[0]); IsRun(Apply(s, steps[0]), steps[1..])))
  }

  function After(s: State, steps: seq<Step>): (s': State)
    requires Inv(s) && IsRun(s, steps)
    ensures Inv(s')
    decreases |steps|
  {
    if steps == [] then s else (StepKeeps(s, steps[0]); After(Apply(s, steps[0]), steps[1..]))
  }

  /** Wait returns only when nothing is queued and no batch is outstanding, and what it returns is
      exactly whether every check added since the last Wait passes, although checks are skipped
      once one failed. Afterwards the queue is as new. */
  lemma {:induction false} WaitIsExact(s: State, step: Step)
    requires Inv(s) && Enabled(s, step) && s.threads[0] != Outside && Apply(s, step).threads[0] == Outside
    ensures s.queue == [] && s.nTodo == 0
    ensures forall t :: 0 <= t < |s.threads| ==> Batch(s.threads[t]) == 0
    ensures var s' := Apply(s, step);
      s'.result == Some(AllPass(s.added)) && s'.added == [] && s'.fAllOk && s'.nTodo == 0
  {
    NoBatchPasses(s.threads);
  }

  /** What the constructor of the control object asserts about a queue on which nothing was added
      since the last Wait. It does so without the mutex: the two results hold at all times, the
      counts agree exactly when no worker is inside its critical section. */
  lemma {:induction false} ControlAssertionsIff(s: State)
    requires Inv(s) && s.threads[0] == Outside && s.added == []
    ensures s.nTodo == 0 && s.fAllOk
    ensures s.nTotal == s.nIdle <==> s.mutex == None
  {
    TallyPositive(s.threads, Batch);
    NoBatchPasses(s.threads);
    var busy := (pc: Pc) => Counted(pc) - Idle(pc);
    TallyDifference(s.threads);
    TallyPositive(s.threads, busy);
    if s.mutex.Some? {
      assert busy(s.threads[s.mutex.value]) == 1;
    }
  }

  lemma {:induction false} TallyDifference(threads: seq<Pc>)
    ensures Tally(threads, pc => Counted(pc) - Idle(pc)) == Tally(threads, Counted) - Tally(threads, Idle)
  {
    if threads != [] {
      TallyDifference(threads[..|threads| - 1]);
    }
  }

  /** With a worker that has just entered its critical section for the first time, the counts
      differ. */
  lemma {:induction false} CountsCanDiffer(nBatchSize: nat)
    ensures var s, steps := Init(1, nBatchSize, false), [Start(1), Lock(1)];
      && Inv(s) && IsRun(s, steps)
      && var s' := After(s, steps);
      s'.threads[0] == Outside && s'.added == [] && s'.nTotal != s'.nIdle
  {
    var s := Init(1, nBatchSize, false);
    InitInv(1, nBatchSize, false);
    var s1 := Apply(s, Start(1));
    StepKeeps(s, Start(1));
    var s2 := Apply(s1, Lock(1));
    StepKeeps(s1, Lock(1));
    assert [Start(1), Lock(1)][1..] == [Lock(1)] && [Lock(1)][1..] == [];
    assert After(s1, [Lock(1)]) == s2;
  }

  // ---- no deadlock ----

  /** The steps of threads that are not blocked: waking up without having been notified is not one
      of them. */
  predicate Unblocked(s: State, step: Step) {
    match step
    case Add(_, _) => false
    case Start(_) => false
    case Wake(t) => t < |s.threads| && s.threads[t] == Waiting(true)
    case _ => true
  }

  /** While the master is in Wait, some thread can go on without a spurious wakeup. */
  lemma {:induction false} NoDeadlock(s: State) returns (step: Step)
    requires Inv(s) && s.threads[0] != Outside
    ensures Enabled(s, step) && Unblocked(s, step)
  {
    if s.mutex.Some? {
      step := Decide(s.mutex.value);
    } else if s.threads[0] == Waiting(false) {
      TallyPositive(s.threads, Batch);
      var t :| 0 <= t < |s.threads| && Batch(s.threads[t]) > 0;
      step := if s.threads[t].Working? then Run(t) else Lock(t);
    } else {
      step := if s.threads[0].Working? then Run(0) else if s.threads[0].Waiting? then Wake(0) else Lock(0);
    }
  }

  /** How much a thread can still do before it blocks. */
  function Effort(pc: Pc): int {
    match pc
    case Outside => 0
    case Entering(nNow, _) => if nNow > 0 then 4 else 2
    case Deciding => 1
    case Waiting(notified) => if notified then 2 else 0
    case Working(vChecks, _, _) => 5 + |vChecks|
  }

  function Remaining(s: State): int {
    6 * |s.queue| + Tally(s.threads, Effort)
  }

  lemma {:induction false} RemainingPositive(s: State)
    ensures Remaining(s) >= 0
  {
    TallyPositive(s.threads, Effort);
  }

  lemma {:induction false} NotifyEffort(threads: seq<Pc>)
    requires threads != []
    ensures Tally(NotifyOne(threads, 0), Effort) <= Tally(threads, Effort) + 2
  {
    TallyUpdate(threads, 0, Notified(threads[0]), Effort);
  }

  /** Every step of a thread that is not blocked uses some of it up. */
  lemma {:induction false} UnblockedStepsDecrease(s: State, step: Step)
    requires Inv(s) && Enabled(s, step) && Unblocked(s, step)
    ensures 0 <= Remaining(Apply(s, step)) < Remaining(s)
  {
    RemainingPositive(Apply(s, step));
    match step
    case Add(_, _) =>
    case Start(_) =>
    case Wake(t) => TallyUpdate(s.threads, t, Deciding, Effort);
    case Run(t) => TallyUpdate(s.threads, t, Ran(s.threads[t]), Effort);
    case Lock(t) => LockDecreases(s, t);
    case Decide(t) => DecideDecreases(s, t);
  }

  lemma {:induction false} LockDecreases(s: State, t: nat)
    requires Inv(s) && Enabled(s, Lock(t))
    ensures Remaining(Apply(s, Lock(t))) < Remaining(s)
  {
    TallyUpdate(s.threads, t, Deciding, Effort);
    NotifyEffort(s.threads[t := Deciding]);
  }

  lemma {:induction false} DecideDecreases(s: State, t: nat)
    requires Inv(s) && Enabled(s, Decide(t))
    ensures Remaining(Apply(s, Decide(t))) < Remaining(s)
  {
    TallyUpdate(s.threads, t, Apply(s, Decide(t)).threads[t], Effort);
  }

  /** Wait returns: from wherever the master is in it, the threads need only go on, in any order. */
  lemma {:induction false} WaitReturns(s: State) returns (steps: seq<Step>)
    requires Inv(s)
    ensures IsRun(s, steps) && After(s, steps).threads[0] == Outside
    decreases Remaining(s)
  {
    RemainingPositive(s);
    if s.threads[0] == Outside {
      steps := [];
    } else {
      var step := NoDeadlock(s);
      StepKeeps(s, step);
      UnblockedStepsDecrease(s, step);
      var rest := WaitReturns(Apply(s, step));
      steps := [step] + rest;
      assert steps[1..] == rest;
    }
  }

  /** Steps of threads that are not blocked, with no check added and no thread started between. */
  predicate Busy(s: State, steps: seq<Step>)
    requires Inv(s) && IsRun(s, steps)
    decreases |steps|
  {
    steps == [] || (Unblocked(s, steps[0]) && (StepKeeps(s, steps[0]); Busy(Apply(s, steps[0]), steps[1..])))
  }

  /** There is no endless run of such steps: any has at most so many. */
  lemma {:induction false} BusyRunsEnd(s: State, steps: seq<Step>)
    requires Inv(s) && IsRun(s, steps) && Busy(s, steps)
    ensures |steps| <= Remaining(s)
    decreases |steps|
  {
    RemainingPositive(s);
    if steps != [] {
      StepKeeps(s, steps[0]);
      UnblockedStepsDecrease(s, steps[0]);
      BusyRunsEnd(Apply(s, steps[0]), steps[1..]);
    }
  }
}
