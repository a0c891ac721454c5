/** The thread pool of src/core/thread_pool.cpp as an interleaved step system.

    Workers pop one FIFO queue; `barrier()` and `synchronize()` queue one blocking task (a fence) per
    worker on a reusable phase barrier.  Each event below is one critical section, or one guarded wait,
    of the program.  `log`, `runs`, `batches` and `done` are history: the queue is the part of `log` that
    has not been popped, `runs` counts how often each queued task ran to completion, and `done` is the
    number of fence batches whose barrier has opened. */
module ThreadPool {
  import opened Integers

  datatype Kind = Dispatch | Synchronize

  datatype Task = User | Fence(batch: nat)

  datatype Worker = Idle | Running(task: nat) | Waiting(task: nat, arrival: nat) | Exited {
    predicate Busy() { Running? || Waiting? }
    predicate Holds(i: nat) { Busy() && task == i }
  }

  datatype Host = Free | Arriving(batch: nat) | Blocked(batch: nat, arrival: nat) | Joining | Joined

  /** The fields of the fallback barrier: participants, arrivals still missing, and the current phase. */
  datatype BarrierState = BarrierState(n: nat, counter: nat, phase: nat) {
    /** The critical section of one arrival; the phase is a 32-bit word. */
    function Arrive(): BarrierState
      requires counter >= 1
    {
      if counter == 1 then BarrierState(n, n, (phase + 1) % UINT) else this.(counter := counter - 1)
    }

    /** The negation of the wait loop's guard. */
    predicate Open(arrival: nat) { phase > arrival }
  }

  datatype Batch = Batch(kind: Kind, start: nat)

  datatype Pool = Pool(
    log: seq<Task>, head: nat, runs: seq<nat>, workers: seq<Worker>,
    dispatch: BarrierState, sync: BarrierState, host: Host, stop: bool,
    batches: seq<Batch>, done: nat)
  {
    function Queue(): seq<Task>
      requires head <= |log|
    {
      log[head..]
    }

    function BarrierOf(k: Kind): BarrierState { if k.Dispatch? then dispatch else sync }

    function WithBarrier(k: Kind, b: BarrierState): Pool {
      if k.Dispatch? then this.(dispatch := b) else this.(sync := b)
    }

    predicate Finished(i: nat)
      requires i < |runs|
    {
      runs[i] >= 1
    }

    /** Everything queued has run and the host is outside every blocking call. */
    ghost predicate Quiescent() {
      && (forall i | 0 <= i < |runs| :: Finished(i))
      && (host.Free? || host.Joined?)
    }
  }

  datatype Event =
    | Enqueue
    | HostFence(kind: Kind)
    | HostArrive
    | HostReturn
    | HostStop
    | HostJoin
    | Pop(w: nat)
    | Finish(w: nat)
    | Arrive(w: nat)
    | Release(w: nat)
    | Exit(w: nat)

  /** Events that do not bring new work: what the pool does on its own. */
  predicate Internal(e: Event) { !e.Enqueue? && !e.HostFence? && !e.HostStop? }

  function Repeated<T>(x: T, n: nat): (s: seq<T>)
    ensures |s| == n && forall i | 0 <= i < n :: s[i] == x
  {
    seq(n, i => x)
  }

  function Init(n: nat): Pool
    requires n >= 1
  {
    Pool([], 0, [], Repeated(Idle, n), BarrierState(n, n, 0), BarrierState(n + 1, n + 1, 0), Free, false, [], 0)
  }

  predicate Is(p: Pool, w: nat) { w < |p.workers| }

  ghost predicate SomeUserTaskRuns(log: seq<Task>, ws: seq<Worker>) {
    exists w :: 0 <= w < |ws| && ws[w].Running? && ws[w].task < |log| && log[ws[w].task].User?
  }

  ghost predicate Enabled(p: Pool, e: Event) {
    match e
    // after the destructor has begun only a task that is still running may queue another one
    case Enqueue => p.stop ==> SomeUserTaskRuns(p.log, p.workers)
    case HostFence(_) => p.host.Free?
    case HostArrive => p.host.Arriving?
    case HostReturn => p.host.Blocked? && p.sync.Open(p.host.arrival)
    case HostStop => p.host.Free?
    case HostJoin => p.host.Joining? && forall w | 0 <= w < |p.workers| :: p.workers[w].Exited?
    case Pop(w) => Is(p, w) && p.workers[w].Idle? && p.head < |p.log|
    case Finish(w) =>
      Is(p, w) && p.workers[w].Running? && p.workers[w].task < |p.log| && p.log[p.workers[w].task].User?
    case Arrive(w) =>
      Is(p, w) && p.workers[w].Running? && p.workers[w].task < |p.log| && p.log[p.workers[w].task].Fence?
    case Release(w) =>
      && Is(p, w) && p.workers[w].Waiting? && p.workers[w].task < |p.log| && p.log[p.workers[w].task].Fence?
      && p.log[p.workers[w].task].batch < |p.batches|
      && p.BarrierOf(p.batches[p.log[p.workers[w].task].batch].kind).Open(p.workers[w].arrival)
    case Exit(w) => Is(p, w) && p.workers[w].Idle? && p.head >= |p.log| && p.stop
  }

  function ArriveAt(p: Pool, k: Kind): Pool
    requires p.BarrierOf(k).counter >= 1
  {
    var b := p.BarrierOf(k);
    p.WithBarrier(k, b.Arrive()).(done := if b.counter == 1 then p.done + 1 else p.done)
  }

  ghost function Next(p: Pool, e: Event): Pool
    requires Inv(p) && Enabled(p, e)
  {
    match e
    case Enqueue => p.(log := p.log + [User], runs := p.runs + [0])
    case HostFence(k) =>
      p.(log := p.log + Repeated(Fence(|p.batches|), |p.workers|), runs := p.runs + Repeated(0, |p.workers|),
         batches := p.batches + [Batch(k, |p.log|)],
         host := if k.Synchronize? then Arriving(|p.batches|) else Free)
    case HostArrive => ArriveAt(p, Synchronize).(host := Blocked(p.host.batch, p.sync.phase))
    case HostReturn => p.(host := Free)
    case HostStop => p.(host := Joining, stop := true)
    case HostJoin => p.(host := Joined)
    case Pop(w) => p.(head := p.head + 1, workers := p.workers[w := Running(p.head)])
    case Finish(w) => Complete(p, w)
    case Arrive(w) =>
      var i := p.workers[w].task;
      var k := p.batches[p.log[i].batch].kind;
      ArriveAt(p, k).(workers := p.workers[w := Waiting(i, p.BarrierOf(k).phase)])
    case Release(w) => Complete(p, w)
    case Exit(w) => p.(workers := p.workers[w := Exited])
  }

  function Complete(p: Pool, w: nat): Pool
    requires Is(p, w) && p.workers[w].Busy() && p.workers[w].task < |p.runs|
  {
    var i := p.workers[w].task;
    p.(runs := p.runs[i := p.runs[i] + 1], workers := p.workers[w := Idle])
  }

  // ---------------------------------------------------------------- the invariant

  ghost predicate Shape(p: Pool) {
    |p.workers| >= 1 && p.head <= |p.log| && |p.runs| == |p.log| && p.done <= |p.batches|
  }

  ghost predicate HeldBySome(ws: seq<Worker>, i: nat) {
    exists w :: 0 <= w < |ws| && ws[w].Holds(i)
  }

  /** A popped task has run exactly once or is in the hands of exactly one worker. */
  ghost predicate HeldOk(head: nat, runs: seq<nat>, ws: seq<Worker>) {
    && head <= |runs|
    && (forall w | 0 <= w < |ws| && ws[w].Busy() :: ws[w].task < head && runs[ws[w].task] == 0)
    && (forall v, w | 0 <= v < w < |ws| && ws[v].Busy() && ws[w].Busy() :: ws[v].task != ws[w].task)
    && (forall i | 0 <= i < head :: runs[i] <= 1)
    && (forall i | 0 <= i < head && runs[i] == 0 :: HeldBySome(ws, i))
    && (forall i | head <= i < |runs| :: runs[i] == 0)
  }

  /** The fences of a batch are exactly one contiguous stretch of the log, one per worker. */
  ghost predicate FencesOk(log: seq<Task>, bs: seq<Batch>, n: nat) {
    && (forall b | 0 <= b < |bs| :: bs[b].start + n <= |log|)
    && (forall b, i | 0 <= b < |bs| && bs[b].start <= i < bs[b].start + n :: log[i] == Fence(b))
    && (forall i | 0 <= i < |log| && log[i].Fence? ::
          log[i].batch < |bs| && bs[log[i].batch].start <= i < bs[log[i].batch].start + n)
    && (forall b, c | 0 <= b < c < |bs| :: bs[b].start + n <= bs[c].start)
  }

  /** How many of the first `b` batches belong to barrier `k`. */
  function Rank(bs: seq<Batch>, k: Kind, b: nat): nat
    requires b <= |bs|
  {
    if b == 0 then 0 else Rank(bs, k, b - 1) + if bs[b - 1].kind == k then 1 else 0
  }

  /** Nothing is popped past a batch that has not opened; everything before an open batch has run. */
  ghost predicate FrontierOk(head: nat, runs: seq<nat>, bs: seq<Batch>, done: nat, n: nat) {
    && done <= |bs| && head <= |runs|
    && (done < |bs| ==> head <= bs[done].start + n)
    && (forall b | 0 <= b < done :: bs[b].start + n <= head)
    && (forall b, i | 0 <= b < done && 0 <= i < bs[b].start :: i < head && runs[i] == 1)
  }

  /** A fence finishes only after its batch has opened. */
  ghost predicate FinishedOk(log: seq<Task>, runs: seq<nat>, done: nat) {
    && |log| == |runs|
    && forall i | 0 <= i < |log| && log[i].Fence? && runs[i] >= 1 :: log[i].batch < done
  }

  ghost predicate AtFence(log: seq<Task>, w: Worker) {
    w.Busy() && w.task < |log| && log[w.task].Fence?
  }

  ghost predicate WorkerOk(log: seq<Task>, w: Worker, bs: seq<Batch>, done: nat) {
    && (w.Busy() ==> w.task < |log|)
    && (AtFence(log, w) && w.Running? ==> log[w.task].batch >= done)
    && (w.Waiting? ==>
          && AtFence(log, w) && log[w.task].batch < |bs| && log[w.task].batch <= done
          && w.arrival == Rank(bs, bs[log[w.task].batch].kind, log[w.task].batch) % UINT)
  }

  ghost predicate WorkersOk(log: seq<Task>, ws: seq<Worker>, bs: seq<Batch>, done: nat) {
    forall w | 0 <= w < |ws| :: WorkerOk(log, ws[w], bs, done)
  }

  predicate WaitsOn(log: seq<Task>, w: Worker, b: nat) {
    w.Waiting? && w.task < |log| && log[w.task] == Fence(b)
  }

  ghost function Waiters(log: seq<Task>, ws: seq<Worker>, b: nat): set<nat> {
    set w | 0 <= w < |ws| && WaitsOn(log, ws[w], b)
  }

  /** Workers that have arrived at the barrier `k` and are counted by its current phase. */
  ghost function Arrived(log: seq<Task>, ws: seq<Worker>, bs: seq<Batch>, done: nat, k: Kind): nat {
    if done < |bs| && bs[done].kind == k then |Waiters(log, ws, done)| else 0
  }

  function HostArrived(host: Host, done: nat): nat {
    if host.Blocked? && host.batch >= done then 1 else 0
  }

  /** With `arrivals` the arrivals of the current phase: arrivals = n - counter and 1 <= counter <= n. */
  ghost predicate BarrierOk(b: BarrierState, n: nat, bs: seq<Batch>, k: Kind, done: nat, arrivals: nat) {
    && b.n == n && b.counter >= 1 && b.counter + arrivals == n
    && done <= |bs| && b.phase == Rank(bs, k, done) % UINT
  }

  ghost predicate HostOk(host: Host, bs: seq<Batch>, done: nat) {
    && (host.Arriving? || host.Blocked? ==> host.batch < |bs| && bs[host.batch].kind == Synchronize)
    && (host.Arriving? ==> host.batch >= done)
    && (host.Blocked? ==> host.arrival == Rank(bs, Synchronize, host.batch) % UINT)
    && (forall b | done <= b < |bs| && bs[b].kind == Synchronize ::
          (host.Arriving? || host.Blocked?) && host.batch == b)
  }

  ghost predicate AllExited(ws: seq<Worker>) {
    forall w | 0 <= w < |ws| :: ws[w].Exited?
  }

  ghost predicate ExitOk(ws: seq<Worker>, host: Host, stop: bool, open: bool, drained: bool) {
    && (stop <==> host.Joining? || host.Joined?)
    && (forall w | 0 <= w < |ws| && ws[w].Exited? :: stop && open)
    && (AllExited(ws) ==> drained)
    && (host.Joined? ==> AllExited(ws))
  }

  ghost predicate InvTasks(p: Pool) {
    && Shape(p)
    && HeldOk(p.head, p.runs, p.workers)
    && FencesOk(p.log, p.batches, |p.workers|)
    && FrontierOk(p.head, p.runs, p.batches, p.done, |p.workers|)
    && FinishedOk(p.log, p.runs, p.done)
    && WorkersOk(p.log, p.workers, p.batches, p.done)
    && ExitOk(p.workers, p.host, p.stop, p.done == |p.batches|, p.head == |p.log|)
  }

  ghost predicate InvBarriers(p: Pool) {
    && BarrierOk(p.dispatch, |p.workers|, p.batches, Dispatch, p.done,
                 Arrived(p.log, p.workers, p.batches, p.done, Dispatch))
    && BarrierOk(p.sync, |p.workers| + 1, p.batches, Synchronize, p.done,
                 Arrived(p.log, p.workers, p.batches, p.done, Synchronize) + HostArrived(p.host, p.done))
    && HostOk(p.host, p.batches, p.done)
  }

  ghost predicate Inv(p: Pool) {
    InvTasks(p) && InvBarriers(p)
  }

  // ---------------------------------------------------------------- counting

  /** The tasks in the hands of the workers. */
  function HeldTasks(ws: seq<Worker>): set<nat> {
    if ws == [] then {}
    else HeldTasks(ws[..|ws| - 1]) + if ws[|ws| - 1].Busy() then {ws[|ws| - 1].task} else {}
  }

  lemma {:induction false} HeldTasksContains(ws: seq<Worker>, w: nat)
    requires w < |ws| && ws[w].Busy()
    ensures ws[w].task in HeldTasks(ws)
  {
    if w < |ws| - 1 {
      HeldTasksContains(ws[..|ws| - 1], w);
    }
  }

  lemma {:induction false} HolderOf(ws: seq<Worker>, i: nat) returns (w: nat)
    requires i in HeldTasks(ws)
    ensures w < |ws| && ws[w].Holds(i)
  {
    if ws[|ws| - 1].Holds(i) {
      w := |ws| - 1;
    } else {
      w := HolderOf(ws[..|ws| - 1], i);
    }
  }

  lemma {:induction false} HeldTasksBound(ws: seq<Worker>)
    ensures |HeldTasks(ws)| <= |ws|
    ensures forall w | 0 <= w < |ws| && !ws[w].Busy() :: |HeldTasks(ws)| < |ws|
  {
    if ws != [] {
      HeldTasksBound(ws[..|ws| - 1]);
      forall w | 0 <= w < |ws| && !ws[w].Busy() ensures |HeldTasks(ws)| < |ws| {
        if w < |ws| - 1 {
          assert !ws[..|ws| - 1][w].Busy();
        }
      }
    }
  }

  function Interval(lo: nat, len: nat): (s: set<nat>)
    ensures forall i :: i in s <==> lo <= i < lo + len
    ensures |s| == len
  {
    if len == 0 then {} else Interval(lo, len - 1) + {lo + len - 1}
  }

  lemma SubsetSize<T>(a: set<T>, b: set<T>)
    requires a <= b
    ensures |a| <= |b|
    ensures |a| == |b| ==> a == b
  {
    assert b == a + (b - a);
  }

  /** If every fence of an unopened batch has been popped, every worker holds one. */
  lemma BatchOccupiesAll(p: Pool)
    requires Inv(p) && p.done < |p.batches| && p.head >= p.batches[p.done].start + |p.workers|
    ensures forall w | 0 <= w < |p.workers| :: p.workers[w].Busy()
  {
    var n := |p.workers|;
    var fences := Interval(p.batches[p.done].start, n);
    forall i | i in fences ensures i in HeldTasks(p.workers) {
      assert p.log[i] == Fence(p.done);
      assert HeldBySome(p.workers, i);
      var w :| 0 <= w < n && p.workers[w].Holds(i);
      HeldTasksContains(p.workers, w);
    }
    SubsetSize(fences, HeldTasks(p.workers));
    HeldTasksBound(p.workers);
  }

  lemma {:induction false} RankStable(bs: seq<Batch>, more: seq<Batch>, k: Kind, b: nat)
    requires b <= |bs|
    ensures Rank(bs + more, k, b) == Rank(bs, k, b)
  {
    if b > 0 {
      RankStable(bs, more, k, b - 1);
    }
  }

  lemma {:induction false} RankMonotone(bs: seq<Batch>, k: Kind, a: nat, b: nat)
    requires a <= b <= |bs|
    ensures Rank(bs, k, a) <= Rank(bs, k, b)
    ensures a < b && bs[a].kind == k ==> Rank(bs, k, a) < Rank(bs, k, b)
  {
    if a < b {
      RankMonotone(bs, k, a, b - 1);
    }
  }

  /** No synchronize batch lies between the first unopened batch and the one the host is at. */
  lemma {:induction false} RankBetween(bs: seq<Batch>, a: nat, b: nat)
    requires a <= b <= |bs| && forall c | a <= c < b :: bs[c].kind != Synchronize
    ensures Rank(bs, Synchronize, a) == Rank(bs, Synchronize, b)
  {
    if a < b {
      RankBetween(bs, a, b - 1);
    }
  }

  // ---------------------------------------------------------------- every event keeps the invariant

  lemma InitInv(n: nat)
    requires n >= 1
    ensures Inv(Init(n))
  {
    var p := Init(n);
    assert !p.workers[0].Exited?;
    assert HeldOk(p.head, p.runs, p.workers) && WorkersOk(p.log, p.workers, p.batches, p.done);
    assert ExitOk(p.workers, p.host, p.stop, true, true);
  }

  /** Appending to the log disturbs nothing that is already recorded. */
  lemma GrowLog(p: Pool, more: seq<Task>, zeros: seq<nat>)
    requires Inv(p) && |zeros| == |more| && forall i | 0 <= i < |zeros| :: zeros[i] == 0
    ensures HeldOk(p.head, p.runs + zeros, p.workers)
    ensures FrontierOk(p.head, p.runs + zeros, p.batches, p.done, |p.workers|)
    ensures FinishedOk(p.log + more, p.runs + zeros, p.done)
    ensures WorkersOk(p.log + more, p.workers, p.batches, p.done)
    ensures forall b :: Waiters(p.log + more, p.workers, b) == Waiters(p.log, p.workers, b)
  {
    hide FencesOk, ExitOk, HostOk, InvBarriers;
    GrowWorkers(p.log, p.workers, p.batches, p.done, more);
    hide WorkersOk, Waiters;
  }

  lemma GrowWorkers(log: seq<Task>, ws: seq<Worker>, bs: seq<Batch>, done: nat, more: seq<Task>)
    requires WorkersOk(log, ws, bs, done)
    ensures WorkersOk(log + more, ws, bs, done)
    ensures forall b :: Waiters(log + more, ws, b) == Waiters(log, ws, b)
  {
    forall b ensures Waiters(log + more, ws, b) == Waiters(log, ws, b) {
      assert forall w | 0 <= w < |ws| :: WorkerOk(log, ws[w], bs, done);
    }
  }

  lemma EnqueueInv(p: Pool)
    requires Inv(p) && Enabled(p, Enqueue)
    ensures Inv(Next(p, Enqueue))
  {
    GrowLog(p, [User], [0]);
    GrowFences(p.log, p.batches, |p.workers|);
    if p.stop {
      var w :| 0 <= w < |p.workers| && p.workers[w].Running?;
      assert !p.workers[w].Exited?;
    } else {
      assert !p.workers[0].Exited?;
    }
  }

  lemma GrowFences(log: seq<Task>, bs: seq<Batch>, n: nat)
    requires FencesOk(log, bs, n)
    ensures FencesOk(log + [User], bs, n)
  {
  }

  lemma AddBatch(log: seq<Task>, bs: seq<Batch>, n: nat, k: Kind)
    requires FencesOk(log, bs, n) && n >= 1
    ensures FencesOk(log + Repeated(Fence(|bs|), n), bs + [Batch(k, |log|)], n)
  {
  }

  lemma HostFenceInv(p: Pool, k: Kind)
    requires Inv(p) && Enabled(p, HostFence(k))
    ensures Inv(Next(p, HostFence(k)))
  {
    var batch := [Batch(k, |p.log|)];
    GrowLog(p, Repeated(Fence(|p.batches|), |p.workers|), Repeated(0, |p.workers|));
    AddBatch(p.log, p.batches, |p.workers|, k);
    RanksStable(p.batches, batch);
    NewBatchFrontier(p, k);
    NewBatchWorkers(p, k);
    assert !p.workers[0].Exited?;
  }

  lemma RanksStable(bs: seq<Batch>, more: seq<Batch>)
    ensures forall k: Kind, b: nat | b <= |bs| :: Rank(bs + more, k, b) == Rank(bs, k, b)
  {
    forall k: Kind, b: nat | b <= |bs| ensures Rank(bs + more, k, b) == Rank(bs, k, b) {
      RankStable(bs, more, k, b);
    }
  }

  lemma NewBatchFrontier(p: Pool, k: Kind)
    requires Inv(p) && Enabled(p, HostFence(k))
    ensures FrontierOk(p.head, Next(p, HostFence(k)).runs, Next(p, HostFence(k)).batches, p.done, |p.workers|)
  {
    GrowLog(p, Repeated(Fence(|p.batches|), |p.workers|), Repeated(0, |p.workers|));
  }

  lemma NewBatchWorkers(p: Pool, k: Kind)
    requires Inv(p) && Enabled(p, HostFence(k))
    ensures var q := Next(p, HostFence(k));
            && WorkersOk(q.log, q.workers, q.batches, q.done)
            && Arrived(q.log, q.workers, q.batches, q.done, Dispatch)
               == Arrived(p.log, p.workers, p.batches, p.done, Dispatch)
            && Arrived(q.log, q.workers, q.batches, q.done, Synchronize)
               == Arrived(p.log, p.workers, p.batches, p.done, Synchronize)
  {
    var more := Repeated(Fence(|p.batches|), |p.workers|);
    GrowLog(p, more, Repeated(0, |p.workers|));
    NoWaiters(p.log + more, p.workers, p.batches, p.done);
    RanksStable(p.batches, [Batch(k, |p.log|)]);
    forall w | 0 <= w < |p.workers|
      ensures WorkerOk(p.log + more, p.workers[w], p.batches + [Batch(k, |p.log|)], p.done)
    {
      assert WorkerOk(p.log + more, p.workers[w], p.batches, p.done);
    }
  }

  lemma NoWaiters(log: seq<Task>, ws: seq<Worker>, bs: seq<Batch>, done: nat)
    requires WorkersOk(log, ws, bs, done)
    ensures forall b | b >= |bs| || b > done :: Waiters(log, ws, b) == {}
  {
    assert forall w | 0 <= w < |ws| :: WorkerOk(log, ws[w], bs, done);
  }

  /** Replacing one worker by one that still holds the same task keeps every task held. */
  lemma StillHeld(ws: seq<Worker>, w: nat, x: Worker, i: nat)
    requires w < |ws| && HeldBySome(ws, i) && (ws[w].Holds(i) ==> x.Holds(i))
    ensures HeldBySome(ws[w := x], i)
  {
    var v :| 0 <= v < |ws| && ws[v].Holds(i);
    assert ws[w := x][v].Holds(i);
  }

  lemma PopInv(p: Pool, w: nat)
    requires Inv(p) && Enabled(p, Pop(w))
    ensures Inv(Next(p, Pop(w)))
  {
    if p.done < |p.batches| && p.head >= p.batches[p.done].start + |p.workers| {
      BatchOccupiesAll(p);
    }
    PopHeld(p.head, p.runs, p.workers, w);
    PopWorkers(p, w);
    assert !p.workers[w].Exited?;
    assert !p.workers[w := Running(p.head)][w].Exited?;
  }

  lemma PopHeld(head: nat, runs: seq<nat>, ws: seq<Worker>, w: nat)
    requires HeldOk(head, runs, ws) && head < |runs| && w < |ws| && ws[w].Idle?
    ensures HeldOk(head + 1, runs, ws[w := Running(head)])
  {
    forall i: nat | i < head + 1 && runs[i] == 0 ensures HeldBySome(ws[w := Running(head)], i) {
      if i == head {
        assert ws[w := Running(head)][w].Holds(i);
      } else {
        StillHeld(ws, w, Running(head), i);
      }
    }
  }

  lemma PopWorkers(p: Pool, w: nat)
    requires Inv(p) && Enabled(p, Pop(w))
    ensures WorkersOk(p.log, p.workers[w := Running(p.head)], p.batches, p.done)
    ensures forall b :: Waiters(p.log, p.workers[w := Running(p.head)], b) == Waiters(p.log, p.workers, b)
  {
    if p.log[p.head].Fence? {
      PoppedFence(p);
    }
    assert WorkerOk(p.log, Running(p.head), p.batches, p.done);
  }

  lemma PoppedFence(p: Pool)
    requires Inv(p) && p.head < |p.log| && p.log[p.head].Fence?
    ensures p.log[p.head].batch >= p.done
  {
    var b := p.log[p.head].batch;
    assert p.batches[b].start <= p.head < p.batches[b].start + |p.workers|;
  }

  lemma CompleteInv(p: Pool, w: nat)
    requires Inv(p) && Is(p, w) && p.workers[w].Busy()
    requires p.log[p.workers[w].task].Fence? ==> p.log[p.workers[w].task].batch < p.done
    ensures Inv(Complete(p, w))
  {
    assert p.workers[w].task < |p.runs|;
    CompleteTasks(p, w);
    CompleteBarriers(p, w);
    hide InvTasks, InvBarriers, Complete;
  }

  lemma CompleteTasks(p: Pool, w: nat)
    requires Inv(p) && Is(p, w) && p.workers[w].Busy()
    requires p.log[p.workers[w].task].Fence? ==> p.log[p.workers[w].task].batch < p.done
    ensures InvTasks(Complete(p, w))
  {
    assert p.workers[w].task < |p.runs|;
    hide HeldOk, FencesOk, FrontierOk, FinishedOk, WorkersOk, ExitOk, InvBarriers, Waiters;
    assert p.head <= |p.runs|;
    CompleteHeld(p.head, p.runs, p.workers, w);
    CompleteFinished(p, w);
    CompleteWorkers(p, w);
    assert Shape(Complete(p, w));
  }

  lemma CompleteBarriers(p: Pool, w: nat)
    requires Inv(p) && Is(p, w) && p.workers[w].Busy()
    requires p.log[p.workers[w].task].Fence? ==> p.log[p.workers[w].task].batch < p.done
    ensures InvBarriers(Complete(p, w))
  {
    assert p.workers[w].task < |p.runs|;
    hide InvTasks, HostOk, BarrierOk, Waiters;
    CompleteWorkers(p, w);
  }

  /** A worker that leaves an open batch is not counted by any barrier. */
  lemma CompleteWorkers(p: Pool, w: nat)
    requires Inv(p) && Is(p, w) && p.workers[w].Busy()
    requires p.log[p.workers[w].task].Fence? ==> p.log[p.workers[w].task].batch < p.done
    ensures WorkersOk(p.log, p.workers[w := Idle], p.batches, p.done)
    ensures ExitOk(p.workers[w := Idle], p.host, p.stop, p.done == |p.batches|, p.head == |p.log|)
    ensures Waiters(p.log, p.workers[w := Idle], p.done) == Waiters(p.log, p.workers, p.done)
  {
    hide HeldOk, FencesOk, FrontierOk, FinishedOk, InvBarriers;
    assert !p.workers[w].Exited? && !p.workers[w := Idle][w].Exited?;
    ExitUnaffected(p, p.workers[w := Idle]);
    assert WorkerOk(p.log, Idle, p.batches, p.done);
  }

  lemma CompleteHeld(head: nat, runs: seq<nat>, ws: seq<Worker>, w: nat)
    requires HeldOk(head, runs, ws) && w < |ws| && ws[w].Busy()
    ensures HeldOk(head, runs[ws[w].task := runs[ws[w].task] + 1], ws[w := Idle])
  {
    var after := runs[ws[w].task := runs[ws[w].task] + 1];
    forall i: nat | i < head && after[i] == 0 ensures HeldBySome(ws[w := Idle], i) {
      StillHeld(ws, w, Idle, i);
    }
  }

  lemma CompleteFinished(p: Pool, w: nat)
    requires Inv(p) && Is(p, w) && p.workers[w].Busy()
    requires p.log[p.workers[w].task].Fence? ==> p.log[p.workers[w].task].batch < p.done
    ensures FrontierOk(p.head, Complete(p, w).runs, p.batches, p.done, |p.workers|)
    ensures FinishedOk(p.log, Complete(p, w).runs, p.done)
  {
    hide FencesOk, WorkersOk, ExitOk, InvBarriers;
  }

  /** The wait loop's guard fails only after the waiter's own batch has opened. */
  lemma OpenMeansDone(p: Pool, k: Kind, b: nat, arrival: nat)
    requires Inv(p) && b < |p.batches| && b <= p.done
    requires arrival == Rank(p.batches, k, b) % UINT && p.BarrierOf(k).Open(arrival)
    ensures b < p.done
  {
  }

  lemma ReleaseInv(p: Pool, w: nat)
    requires Inv(p) && Enabled(p, Release(w))
    ensures Inv(Next(p, Release(w)))
  {
    assert WorkerOk(p.log, p.workers[w], p.batches, p.done);
    var b := p.log[p.workers[w].task].batch;
    OpenMeansDone(p, p.batches[b].kind, b, p.workers[w].arrival);
    CompleteInv(p, w);
  }

  lemma ExitInv(p: Pool, w: nat)
    requires Inv(p) && Enabled(p, Exit(w))
    ensures Inv(Next(p, Exit(w)))
  {
    var q := Next(p, Exit(w));
    if p.done < |p.batches| {
      BatchOccupiesAll(p);
    }
    forall i: nat | i < q.head && q.runs[i] == 0 ensures HeldBySome(q.workers, i) {
      StillHeld(p.workers, w, Exited, i);
    }
    assert !p.workers[w].Exited?;
  }

  /** The batch a running worker is about to arrive at is the first one not yet open. */
  lemma RunningFenceIsCurrent(p: Pool, w: nat)
    requires Inv(p) && Is(p, w) && p.workers[w].Running? && AtFence(p.log, p.workers[w])
    ensures p.done < |p.batches| && p.log[p.workers[w].task] == Fence(p.done)
  {
    assert WorkerOk(p.log, p.workers[w], p.batches, p.done);
  }

  /** When every worker is at a fence of batch `done`, everything queued before the batch has finished. */
  lemma AllAtFence(p: Pool)
    requires Inv(p) && p.done < |p.batches|
    requires forall w | 0 <= w < |p.workers| ::
               AtFence(p.log, p.workers[w]) && p.log[p.workers[w].task] == Fence(p.done)
    ensures p.batches[p.done].start + |p.workers| <= p.head
    ensures forall i | 0 <= i < p.batches[p.done].start :: p.runs[i] == 1
  {
    var s := p.batches[p.done].start;
    assert AtFence(p.log, p.workers[0]);
    forall i: nat | i < s ensures p.runs[i] == 1 {
      assert forall w | 0 <= w < |p.workers| :: !p.workers[w].Holds(i);
    }
    HeldTasksDistinct(p.workers);
    forall i | i in HeldTasks(p.workers) ensures i in Interval(s, p.head - s) {
      var w := HolderOf(p.workers, i);
    }
    SubsetSize(HeldTasks(p.workers), Interval(s, p.head - s));
  }

  lemma {:induction false} HeldTasksDistinct(ws: seq<Worker>)
    requires forall w | 0 <= w < |ws| :: ws[w].Busy()
    requires forall v, w | 0 <= v < w < |ws| && ws[v].Busy() && ws[w].Busy() :: ws[v].task != ws[w].task
    ensures |HeldTasks(ws)| == |ws|
  {
    if ws != [] {
      var front := ws[..|ws| - 1];
      HeldTasksDistinct(front);
      if ws[|ws| - 1].task in HeldTasks(front) {
        var v := HolderOf(front, ws[|ws| - 1].task);
      }
    }
  }

  lemma WaitersBound(log: seq<Task>, ws: seq<Worker>, b: nat, absent: set<nat>)
    requires absent <= Interval(0, |ws|) && absent !! Waiters(log, ws, b)
    ensures |Waiters(log, ws, b)| + |absent| <= |ws|
    ensures |Waiters(log, ws, b)| + |absent| == |ws| ==>
              forall w | 0 <= w < |ws| && w !in absent :: WaitsOn(log, ws[w], b)
  {
    var s := Waiters(log, ws, b);
    assert s <= Interval(0, |ws|);
    assert |s + absent| == |s| + |absent|;
    SubsetSize(s + absent, Interval(0, |ws|));
    if |s| + |absent| == |ws| {
      forall w | 0 <= w < |ws| && w !in absent ensures w in s {
        assert w in Interval(0, |ws|);
      }
    }
  }

  /** Opening batch `done` is sound once all workers are at it. */
  lemma Opens(p: Pool)
    requires Inv(p) && p.done < |p.batches|
    requires forall w | 0 <= w < |p.workers| ::
               AtFence(p.log, p.workers[w]) && p.log[p.workers[w].task] == Fence(p.done)
    ensures FrontierOk(p.head, p.runs, p.batches, p.done + 1, |p.workers|)
    ensures FinishedOk(p.log, p.runs, p.done + 1)
  {
    hide InvBarriers, WorkersOk, ExitOk;
    AllAtFence(p);
    if p.done + 1 < |p.batches| {
      assert p.batches[p.done].start + |p.workers| <= p.batches[p.done + 1].start;
    }
    forall b, i | 0 <= b < p.done + 1 && 0 <= i < p.batches[b].start ensures i < p.head && p.runs[i] == 1 {
    }
  }

  lemma ArriveInv(p: Pool, w: nat)
    requires Inv(p) && Enabled(p, Arrive(w))
    ensures Inv(Next(p, Arrive(w)))
  {
    RunningFenceIsCurrent(p, w);
    var k := p.batches[p.done].kind;
    WaitersBound(p.log, p.workers, p.done, {w});
    if p.BarrierOf(k).counter == 1 {
      LastArriveInv(p, w);
    } else {
      EarlyArriveInv(p, w);
    }
  }

  /** A worker that arrives keeps its task in hand. */
  lemma ArriveHeld(head: nat, runs: seq<nat>, ws: seq<Worker>, w: nat, arrival: nat)
    requires HeldOk(head, runs, ws) && w < |ws| && ws[w].Running?
    ensures HeldOk(head, runs, ws[w := Waiting(ws[w].task, arrival)])
    ensures !AllExited(ws) && !AllExited(ws[w := Waiting(ws[w].task, arrival)])
  {
    var ws' := ws[w := Waiting(ws[w].task, arrival)];
    forall i: nat | i < head && runs[i] == 0 ensures HeldBySome(ws', i) {
      StillHeld(ws, w, ws'[w], i);
    }
    assert !ws[w].Exited? && !ws'[w].Exited?;
  }

  /** All workers are consistent after one of them has arrived at batch `done`. */
  lemma ArriveWorkers(log: seq<Task>, ws: seq<Worker>, bs: seq<Batch>, done: nat, w: nat)
    requires WorkersOk(log, ws, bs, done) && done < |bs| && w < |ws| && ws[w].Running?
    requires ws[w].task < |log| && log[ws[w].task] == Fence(done)
    ensures var ws' := ws[w := Waiting(ws[w].task, Rank(bs, bs[done].kind, done) % UINT)];
            && WorkersOk(log, ws', bs, done)
            && Waiters(log, ws', done) == Waiters(log, ws, done) + {w}
            && |Waiters(log, ws', done)| == |Waiters(log, ws, done)| + 1
  {
    var x := Waiting(ws[w].task, Rank(bs, bs[done].kind, done) % UINT);
    assert WorkerOk(log, x, bs, done);
    assert Waiters(log, ws[w := x], done) == Waiters(log, ws, done) + {w};
  }

  lemma EarlyArriveInv(p: Pool, w: nat)
    requires Inv(p) && Enabled(p, Arrive(w))
    requires p.done < |p.batches| && p.log[p.workers[w].task] == Fence(p.done)
    requires p.BarrierOf(p.batches[p.done].kind).counter > 1
    ensures Inv(Next(p, Arrive(w)))
  {
    hide InvTasks, InvBarriers, Waiters;
    var k := p.batches[p.done].kind;
    var b := p.BarrierOf(k);
    var ws := p.workers[w := Waiting(p.workers[w].task, b.phase)];
    assert Next(p, Arrive(w)) == p.WithBarrier(k, b.(counter := b.counter - 1)).(workers := ws);
    EarlyArriveTasks(p, w, ws);
    EarlyArriveBarriers(p, ws);
    SameTasks(p.(workers := ws), Next(p, Arrive(w)));
  }

  /** Counters do not matter to the tasks. */
  lemma SameTasks(p: Pool, q: Pool)
    requires InvTasks(p) && q == p.(dispatch := q.dispatch, sync := q.sync)
    ensures InvTasks(q)
  {
  }

  lemma EarlyArriveTasks(p: Pool, w: nat, ws: seq<Worker>)
    requires Inv(p) && Enabled(p, Arrive(w))
    requires p.done < |p.batches| && p.log[p.workers[w].task] == Fence(p.done)
    requires ws == p.workers[w := Waiting(p.workers[w].task, p.BarrierOf(p.batches[p.done].kind).phase)]
    ensures InvTasks(p.(workers := ws))
    ensures |Waiters(p.log, ws, p.done)| == |Waiters(p.log, p.workers, p.done)| + 1
  {
    hide HeldOk, FencesOk, FrontierOk, FinishedOk, WorkersOk, ExitOk, HostOk, Waiters;
    PhaseIsRank(p);
    ArriveHeld(p.head, p.runs, p.workers, w, p.BarrierOf(p.batches[p.done].kind).phase);
    ArriveWorkers(p.log, p.workers, p.batches, p.done, w);
    ExitUnaffected(p, ws);
  }

  /** One more arrival is one less on the counter. */
  lemma EarlyArriveBarriers(p: Pool, ws: seq<Worker>)
    requires Inv(p) && p.done < |p.batches| && p.BarrierOf(p.batches[p.done].kind).counter > 1
    requires |ws| == |p.workers| && |Waiters(p.log, ws, p.done)| == |Waiters(p.log, p.workers, p.done)| + 1
    ensures var b := p.BarrierOf(p.batches[p.done].kind);
            var q := p.WithBarrier(p.batches[p.done].kind, b.(counter := b.counter - 1)).(workers := ws);
            InvBarriers(q)
  {
    hide InvTasks, HostOk, Waiters;
  }

  lemma ExitUnaffected(p: Pool, ws: seq<Worker>)
    requires Inv(p) && |ws| == |p.workers| && !AllExited(p.workers) && !AllExited(ws)
    requires forall v | 0 <= v < |ws| :: ws[v].Exited? ==> p.workers[v].Exited?
    ensures ExitOk(ws, p.host, p.stop, p.done == |p.batches|, p.head == |p.log|)
  {
  }

  /** Once all workers wait at batch `done`, opening it leaves no one waiting at the next batch. */
  lemma OpenWorkers(log: seq<Task>, ws: seq<Worker>, bs: seq<Batch>, done: nat)
    requires WorkersOk(log, ws, bs, done) && done < |bs|
    requires forall v | 0 <= v < |ws| :: WaitsOn(log, ws[v], done)
    ensures WorkersOk(log, ws, bs, done + 1)
    ensures Waiters(log, ws, done + 1) == {}
  {
    forall v | 0 <= v < |ws| ensures WorkerOk(log, ws[v], bs, done + 1) {
      assert WorkerOk(log, ws[v], bs, done);
      assert WaitsOn(log, ws[v], done);
    }
    assert forall v | 0 <= v < |ws| :: WaitsOn(log, ws[v], done) && !WaitsOn(log, ws[v], done + 1);
  }

  lemma LastArriveInv(p: Pool, w: nat)
    requires Inv(p) && Enabled(p, Arrive(w))
    requires p.done < |p.batches| && p.log[p.workers[w].task] == Fence(p.done)
    requires p.BarrierOf(p.batches[p.done].kind).counter == 1
    ensures Inv(Next(p, Arrive(w)))
  {
    hide InvTasks, InvBarriers;
    LastArriveTasks(p, w);
    LastArriveBarriers(p, w);
  }

  lemma LastArriveTasks(p: Pool, w: nat)
    requires Inv(p) && Enabled(p, Arrive(w))
    requires p.done < |p.batches| && p.log[p.workers[w].task] == Fence(p.done)
    requires p.BarrierOf(p.batches[p.done].kind).counter == 1
    ensures InvTasks(Next(p, Arrive(w)))
  {
    hide HeldOk, FencesOk, FrontierOk, FinishedOk, WorkersOk, ExitOk, HostOk, BarrierOk;
    var b := p.BarrierOf(p.batches[p.done].kind);
    var ws := p.workers[w := Waiting(p.workers[w].task, b.phase)];
    ArriveHeld(p.head, p.runs, p.workers, w, b.phase);
    PhaseIsRank(p);
    ArriveWorkers(p.log, p.workers, p.batches, p.done, w);
    LastWaiter(p, w, ws);
    Opens(p);
    OpenWorkers(p.log, ws, p.batches, p.done);
    OpenExit(p, ws);
  }

  lemma PhaseIsRank(p: Pool)
    requires Inv(p) && p.done < |p.batches|
    ensures p.BarrierOf(p.batches[p.done].kind).phase == Rank(p.batches, p.batches[p.done].kind, p.done) % UINT
  {
  }

  lemma LastArriveBarriers(p: Pool, w: nat)
    requires Inv(p) && Enabled(p, Arrive(w))
    requires p.done < |p.batches| && p.log[p.workers[w].task] == Fence(p.done)
    requires p.BarrierOf(p.batches[p.done].kind).counter == 1
    ensures InvBarriers(Next(p, Arrive(w)))
  {
    hide HeldOk, FencesOk, FrontierOk, FinishedOk, WorkersOk, ExitOk, HostOk, BarrierOk;
    hide Waiters, Arrived, HostArrived, Rank, AtFence;
    var b := p.BarrierOf(p.batches[p.done].kind);
    var ws := p.workers[w := Waiting(p.workers[w].task, b.phase)];
    PhaseIsRank(p);
    ArriveWorkers(p.log, p.workers, p.batches, p.done, w);
    LastWaiter(p, w, ws);
    OpenWorkers(p.log, ws, p.batches, p.done);
    OpenBarriers(p, ws);
    HostOpens(p);
  }

  /** Opening batch `done` starts the next phase of its own barrier and leaves the other one alone. */
  lemma OpenBarriers(p: Pool, ws: seq<Worker>)
    requires Inv(p) && p.done < |p.batches| && p.BarrierOf(p.batches[p.done].kind).counter == 1
    requires Waiters(p.log, ws, p.done + 1) == {} && |ws| == |p.workers|
    requires p.batches[p.done].kind == Synchronize ==> p.host.Blocked?
    ensures var k := p.batches[p.done].kind;
            var q := p.WithBarrier(k, p.BarrierOf(k).Arrive());
            && BarrierOk(q.dispatch, |ws|, p.batches, Dispatch, p.done + 1,
                         Arrived(p.log, ws, p.batches, p.done + 1, Dispatch))
            && BarrierOk(q.sync, |ws| + 1, p.batches, Synchronize, p.done + 1,
                         Arrived(p.log, ws, p.batches, p.done + 1, Synchronize) + HostArrived(p.host, p.done + 1))
  {
    hide InvTasks, HostOk, Waiters, BarrierOk;
    HostOpens(p);
    var bs, n := p.batches, |p.workers|;
    if bs[p.done].kind == Dispatch {
      BarrierOpens(p.dispatch, n, bs, Dispatch, p.done, Arrived(p.log, p.workers, bs, p.done, Dispatch));
      BarrierStays(p.sync, n + 1, bs, Synchronize, p.done, HostArrived(p.host, p.done));
    } else {
      BarrierStays(p.dispatch, n, bs, Dispatch, p.done, 0);
      BarrierOpens(p.sync, n + 1, bs, Synchronize, p.done,
                   Arrived(p.log, p.workers, bs, p.done, Synchronize) + HostArrived(p.host, p.done));
    }
  }

  lemma BarrierOpens(b: BarrierState, n: nat, bs: seq<Batch>, k: Kind, done: nat, arrivals: nat)
    requires BarrierOk(b, n, bs, k, done, arrivals) && done < |bs| && bs[done].kind == k && b.counter == 1
    ensures BarrierOk(b.Arrive(), n, bs, k, done + 1, 0)
  {
  }

  lemma BarrierStays(b: BarrierState, n: nat, bs: seq<Batch>, k: Kind, done: nat, arrivals: nat)
    requires BarrierOk(b, n, bs, k, done, arrivals) && done < |bs| && bs[done].kind != k
    ensures BarrierOk(b, n, bs, k, done + 1, arrivals)
  {
  }

  /** The last arrival finds every other worker, and for `synchronize()` the host, already waiting. */
  lemma LastWaiter(p: Pool, w: nat, ws: seq<Worker>)
    requires Inv(p) && Is(p, w) && p.workers[w].Running? && p.done < |p.batches|
    requires p.workers[w].task < |p.log| && p.log[p.workers[w].task] == Fence(p.done)
    requires p.BarrierOf(p.batches[p.done].kind).counter == 1
    requires ws == p.workers[w := Waiting(p.workers[w].task, p.BarrierOf(p.batches[p.done].kind).phase)]
    ensures forall v | 0 <= v < |p.workers| :: AtFence(p.log, p.workers[v]) && p.log[p.workers[v].task] == Fence(p.done)
    ensures forall v | 0 <= v < |ws| :: WaitsOn(p.log, ws[v], p.done)
    ensures p.batches[p.done].kind == Synchronize ==> p.host.Blocked?
  {
    hide HeldOk, FencesOk, FrontierOk, FinishedOk, ExitOk, WorkersOk, HostOk;
    WaitersBound(p.log, p.workers, p.done, {w});
    assert forall v | 0 <= v < |p.workers| && v != w :: WaitsOn(p.log, p.workers[v], p.done);
  }

  lemma OpenExit(p: Pool, ws: seq<Worker>)
    requires Inv(p) && |ws| == |p.workers| && !AllExited(ws) && !AllExited(p.workers)
    requires forall v | 0 <= v < |ws| :: !ws[v].Exited?
    ensures ExitOk(ws, p.host, p.stop, p.done + 1 == |p.batches|, p.head == |p.log|)
    ensures p.host.Arriving? ==>
              ExitOk(ws, Blocked(p.host.batch, p.sync.phase), p.stop, p.done + 1 == |p.batches|, p.head == |p.log|)
  {
  }

  /** What opening batch `done` means for the host. */
  lemma HostOpens(p: Pool)
    requires Inv(p) && p.done < |p.batches|
    requires p.batches[p.done].kind == Synchronize ==> p.host.Blocked?
    ensures HostOk(p.host, p.batches, p.done + 1)
    ensures p.batches[p.done].kind == Synchronize ==> HostArrived(p.host, p.done + 1) == 0
    ensures p.batches[p.done].kind == Dispatch ==> HostArrived(p.host, p.done + 1) == HostArrived(p.host, p.done)
  {
  }

  lemma HostArriveInv(p: Pool)
    requires Inv(p) && Enabled(p, HostArrive)
    ensures Inv(Next(p, HostArrive))
  {
    HostAtBarrier(p);
    if p.sync.counter == 1 {
      HostIsLast(p);
      HostOpensTasks(p);
      HostOpensBarriers(p);
    } else {
      HostArriveEarly(p);
    }
  }

  lemma HostArriveEarly(p: Pool)
    requires Inv(p) && Enabled(p, HostArrive) && p.sync.counter > 1
    ensures Inv(Next(p, HostArrive))
  {
    hide HeldOk, FencesOk, FrontierOk, FinishedOk, WorkersOk, ExitOk, HostOk;
    HostAtBarrier(p);
  }

  lemma HostOpensTasks(p: Pool)
    requires Inv(p) && Enabled(p, HostArrive) && p.sync.counter == 1
    ensures InvTasks(Next(p, HostArrive))
  {
    hide HeldOk, FencesOk, FrontierOk, FinishedOk, WorkersOk, ExitOk, HostOk, BarrierOk;
    HostIsLast(p);
    Opens(p);
    OpenWorkers(p.log, p.workers, p.batches, p.done);
    assert !p.workers[0].Exited?;
    OpenExit(p, p.workers);
  }

  lemma HostOpensBarriers(p: Pool)
    requires Inv(p) && Enabled(p, HostArrive) && p.sync.counter == 1
    ensures InvBarriers(Next(p, HostArrive))
  {
    hide HeldOk, FencesOk, FrontierOk, FinishedOk, WorkersOk, ExitOk, HostOk;
    HostIsLast(p);
    HostAtBarrier(p);
    OpenWorkers(p.log, p.workers, p.batches, p.done);
  }

  /** The host's arrival is recorded under the phase of its own batch. */
  lemma HostAtBarrier(p: Pool)
    requires Inv(p) && p.host.Arriving?
    ensures p.host.batch >= p.done
    ensures HostOk(Blocked(p.host.batch, p.sync.phase), p.batches, p.done)
    ensures p.host.batch == p.done ==> HostOk(Blocked(p.host.batch, p.sync.phase), p.batches, p.done + 1)
    ensures ExitOk(p.workers, Blocked(p.host.batch, p.sync.phase), p.stop, p.done == |p.batches|, p.head == |p.log|)
  {
    RankBetween(p.batches, p.done, p.host.batch);
  }

  lemma HostIsLast(p: Pool)
    requires Inv(p) && p.host.Arriving? && p.sync.counter == 1
    ensures p.done < |p.batches| && p.host.batch == p.done
    ensures forall v | 0 <= v < |p.workers| :: WaitsOn(p.log, p.workers[v], p.done)
    ensures forall v | 0 <= v < |p.workers| :: AtFence(p.log, p.workers[v]) && p.log[p.workers[v].task] == Fence(p.done)
  {
    WaitersBound(p.log, p.workers, p.done, {});
    assert forall v | 0 <= v < |p.workers| :: WaitsOn(p.log, p.workers[v], p.done);
  }

  lemma HostReturnInv(p: Pool)
    requires Inv(p) && Enabled(p, HostReturn)
    ensures p.host.batch < p.done && Inv(Next(p, HostReturn))
  {
    if p.host.batch >= p.done {
      RankBetween(p.batches, p.done, p.host.batch);
    }
  }

  /** Every event keeps the invariant. */
  lemma StepInv(p: Pool, e: Event)
    requires Inv(p) && Enabled(p, e)
    ensures Inv(Next(p, e))
  {
    match e
    case Enqueue => EnqueueInv(p);
    case HostFence(k) => HostFenceInv(p, k);
    case HostArrive => HostArriveInv(p);
    case HostReturn => HostReturnInv(p);
    case HostStop =>
    case HostJoin =>
    case Pop(w) => PopInv(p, w);
    case Finish(w) => CompleteInv(p, w);
    case Arrive(w) => ArriveInv(p, w);
    case Release(w) => ReleaseInv(p, w);
    case Exit(w) => ExitInv(p, w);
  }

  // ---------------------------------------------------------------- whole runs

  ghost predicate ValidRun(p: Pool, es: seq<Event>)
    requires Inv(p)
    decreases |es|
  {
    es == [] || (Enabled(p, es[0]) && (StepInv(p, es[0]); ValidRun(Next(p, es[0]), es[1..])))
  }

  ghost function After(p: Pool, es: seq<Event>): (q: Pool)
    requires Inv(p) && ValidRun(p, es)
    ensures Inv(q)
    decreases |es|
  {
    if es == [] then p else StepInv(p, es[0]); After(Next(p, es[0]), es[1..])
  }

  ghost predicate Reachable(n: nat, p: Pool)
    requires n >= 1
  {
    InitInv(n);
    exists es :: ValidRun(Init(n), es) && After(Init(n), es) == p
  }

  lemma ReachableInv(n: nat, p: Pool)
    requires n >= 1 && Reachable(n, p)
    ensures Inv(p)
  {
  }

  /** When `synchronize()` returns, every task queued before its fences has run exactly once. */
  lemma SynchronizeWaitsForAll(n: nat, p: Pool)
    requires n >= 1 && Reachable(n, p) && Enabled(p, HostReturn)
    ensures p.host.batch < |p.batches| && p.batches[p.host.batch].kind == Synchronize
    ensures forall i | 0 <= i < p.batches[p.host.batch].start :: i < |p.runs| && p.runs[i] == 1
  {
    ReachableInv(n, p);
    HostReturnInv(p);
  }

  /** No task queued after a batch of fences starts before every task queued before the batch has finished;
      `start` and `start + |workers|` delimit the batch in the order of queuing. */
  lemma BarrierOrdersTasks(n: nat, p: Pool, b: nat, late: nat)
    requires n >= 1 && Reachable(n, p) && b < |p.batches|
    requires p.batches[b].start + |p.workers| <= late < p.head
    ensures forall i | 0 <= i < p.batches[b].start :: i < |p.runs| && p.runs[i] == 1
  {
    ReachableInv(n, p);
    if p.done <= b {
      BatchPositions(p, p.done, b);
    }
  }

  lemma BatchPositions(p: Pool, a: nat, b: nat)
    requires Inv(p) && a <= b < |p.batches|
    ensures p.batches[a].start <= p.batches[b].start
  {
  }

  /** No task runs twice, and a task that was never popped has not run. */
  lemma RunsAtMostOnce(n: nat, p: Pool, i: nat)
    requires n >= 1 && Reachable(n, p) && i < |p.log|
    ensures |p.runs| == |p.log| && p.runs[i] <= 1 && (i >= p.head ==> p.runs[i] == 0)
  {
    ReachableInv(n, p);
  }

  /** After the destructor has joined the workers the queue is empty and every task ever queued ran exactly once. */
  lemma JoinedMeansDrained(n: nat, p: Pool)
    requires n >= 1 && Reachable(n, p) && p.host.Joined?
    ensures p.head == |p.log| && p.Queue() == []
    ensures forall i | 0 <= i < |p.runs| :: p.runs[i] == 1
  {
    ReachableInv(n, p);
    assert AllExited(p.workers);
    forall i: nat | i < |p.runs| ensures p.runs[i] == 1 {
      assert !HeldBySome(p.workers, i);
    }
  }

  // ---------------------------------------------------------------- progress

  /** Fewer batches than phases a 32-bit counter can tell apart. */
  predicate PhasesFit(p: Pool) {
    && Rank(p.batches, Dispatch, |p.batches|) < UINT
    && Rank(p.batches, Synchronize, |p.batches|) < UINT
  }

  /** What a worker does next, if it is not blocked. */
  ghost predicate Stuck(p: Pool, w: nat)
    requires w < |p.workers|
  {
    match p.workers[w]
    case Idle => p.head >= |p.log| && !p.stop
    case Running(_) => false
    case Waiting(_, _) => !Enabled(p, Release(w))
    case Exited => true
  }

  lemma UnblockedCanStep(p: Pool, w: nat) returns (e: Event)
    requires Inv(p) && Is(p, w) && !Stuck(p, w)
    ensures Internal(e) && Enabled(p, e)
  {
    assert WorkerOk(p.log, p.workers[w], p.batches, p.done);
    match p.workers[w]
    case Idle => e := if p.head < |p.log| then Pop(w) else Exit(w);
    case Running(i) => e := if p.log[i].User? then Finish(w) else Arrive(w);
    case Waiting(_, _) => e := Release(w);
  }

  /** Only a batch that has not opened yet blocks a waiting worker. */
  lemma BlockedWaiterIsCurrent(p: Pool, w: nat)
    requires Inv(p) && PhasesFit(p) && Is(p, w) && p.workers[w].Waiting? && Stuck(p, w)
    ensures p.done < |p.batches| && WaitsOn(p.log, p.workers[w], p.done)
  {
    assert WorkerOk(p.log, p.workers[w], p.batches, p.done);
    hide InvTasks, HostOk;
    var b := p.log[p.workers[w].task].batch;
    if b < p.done {
      DoneIsOpen(p, p.batches[b].kind, b);
    }
  }

  /** While phases fit, a batch that has opened releases every waiter of its own phase. */
  lemma DoneIsOpen(p: Pool, k: Kind, b: nat)
    requires Inv(p) && PhasesFit(p) && b < p.done && p.batches[b].kind == k
    ensures p.BarrierOf(k).Open(Rank(p.batches, k, b) % UINT)
  {
    hide HeldOk, FencesOk, FrontierOk, FinishedOk, WorkersOk, ExitOk, HostOk;
    RankMonotone(p.batches, k, p.done, |p.batches|);
    RankMonotone(p.batches, k, b, p.done);
  }

  /** In every reachable state with work left, some thread of the pool, or the host, can step. */
  lemma Progress(n: nat, p: Pool) returns (e: Event)
    requires n >= 1 && Reachable(n, p) && PhasesFit(p) && !p.Quiescent()
    ensures Internal(e) && Enabled(p, e)
  {
    ReachableInv(n, p);
    e := ProgressFromInv(p);
  }

  lemma ProgressFromInv(p: Pool) returns (e: Event)
    requires Inv(p) && PhasesFit(p) && !p.Quiescent()
    ensures Internal(e) && Enabled(p, e)
  {
    if w :| 0 <= w < |p.workers| && !Stuck(p, w) {
      e := UnblockedCanStep(p, w);
    } else if w :| 0 <= w < |p.workers| && p.workers[w].Waiting? {
      BlockedWaiterIsCurrent(p, w);
      AllBlockedAtFence(p, w);
      e := HostArrive;
    } else {
      e := HostStepsWhenDrained(p);
    }
  }

  /** If every worker is blocked and one waits, all wait at the same fence and only the host is missing. */
  lemma AllBlockedAtFence(p: Pool, w: nat)
    requires Inv(p) && PhasesFit(p) && p.done < |p.batches|
    requires Is(p, w) && WaitsOn(p.log, p.workers[w], p.done)
    requires forall v | 0 <= v < |p.workers| :: Stuck(p, v)
    ensures p.host.Arriving?
  {
    if p.head >= p.batches[p.done].start + |p.workers| {
      BatchOccupiesAll(p);
    }
    assert p.head <= p.batches[p.done].start + |p.workers| <= |p.log|;
    forall v | 0 <= v < |p.workers| ensures WaitsOn(p.log, p.workers[v], p.done) {
      assert Stuck(p, v) && !p.workers[v].Exited?;
      BlockedWaiterIsCurrent(p, v);
    }
    AllWaitCount(p);
  }

  lemma AllWaitCount(p: Pool)
    requires Inv(p) && p.done < |p.batches|
    requires forall v | 0 <= v < |p.workers| :: WaitsOn(p.log, p.workers[v], p.done)
    ensures p.host.Arriving?
  {
    hide InvTasks;
    assert Waiters(p.log, p.workers, p.done) == Interval(0, |p.workers|);
  }

  lemma HostStepsWhenDrained(p: Pool) returns (e: Event)
    requires Inv(p) && PhasesFit(p) && !p.Quiescent()
    requires forall v | 0 <= v < |p.workers| :: Stuck(p, v) && !p.workers[v].Waiting?
    ensures Internal(e) && Enabled(p, e)
  {
    assert forall v | 0 <= v < |p.workers| :: Stuck(p, v) && !p.workers[v].Busy();
    assert p.head == |p.log| by {
      if v :| 0 <= v < |p.workers| && p.workers[v].Idle? {
        assert Stuck(p, v);
      }
    }
    forall i: nat | i < |p.runs| ensures p.runs[i] == 1 {
      assert !HeldBySome(p.workers, i);
    }
    if p.host.Blocked? {
      HostBatchDone(p);
      e := HostReturn;
    } else if p.host.Arriving? {
      e := HostArrive;
    } else {
      assert p.host.Joining?;
      forall v | 0 <= v < |p.workers| ensures p.workers[v].Exited? {
        assert Stuck(p, v);
      }
      e := HostJoin;
    }
  }

  lemma HostBatchDone(p: Pool)
    requires Inv(p) && PhasesFit(p) && p.host.Blocked?
    requires forall i | 0 <= i < |p.runs| :: p.runs[i] == 1
    ensures Enabled(p, HostReturn)
  {
    var b := p.host.batch;
    assert p.log[p.batches[b].start] == Fence(b);
    DoneIsOpen(p, Synchronize, b);
  }

  // ---------------------------------------------------------------- termination

  function Weight(w: Worker): nat {
    match w case Exited => 0 case Idle => 1 case Waiting(_, _) => 2 case Running(_) => 3
  }

  function HostWeight(h: Host): nat {
    match h case Arriving(_) => 2 case Blocked(_, _) => 1 case Joining => 1 case Free => 0 case Joined => 0
  }

  function Weights(ws: seq<Worker>): nat {
    if ws == [] then 0 else Weights(ws[..|ws| - 1]) + Weight(ws[|ws| - 1])
  }

  lemma {:induction false} WeightsUpdate(ws: seq<Worker>, w: nat, x: Worker)
    requires w < |ws|
    ensures Weights(ws[w := x]) + Weight(ws[w]) == Weights(ws) + Weight(x)
  {
    var front := ws[..|ws| - 1];
    if w < |ws| - 1 {
      WeightsUpdate(front, w, x);
      assert ws[w := x][..|ws| - 1] == front[w := x];
    } else {
      assert ws[w := x][..|ws| - 1] == front;
    }
  }

  /** Work left in the pool: bounds the number of internal events still possible. */
  function Work(p: Pool): nat
    requires p.head <= |p.log|
  {
    4 * (|p.log| - p.head) + Weights(p.workers) + HostWeight(p.host)
  }

  lemma InternalDecreases(p: Pool, e: Event)
    requires Inv(p) && Enabled(p, e) && Internal(e)
    ensures Next(p, e).head <= |Next(p, e).log| && Work(Next(p, e)) < Work(p)
    ensures Next(p, e).batches == p.batches
  {
    hide HeldOk, FencesOk, FrontierOk, FinishedOk, ExitOk, BarrierOk;
    match e
    case Pop(w) => WeightsUpdate(p.workers, w, Running(p.head));
    case Finish(w) => WeightsUpdate(p.workers, w, Idle);
    case Release(w) => WeightsUpdate(p.workers, w, Idle);
    case Exit(w) => WeightsUpdate(p.workers, w, Exited);
    case Arrive(w) => WeightsUpdate(p.workers, w, Next(p, e).workers[w]);
    case HostArrive =>
    case HostReturn =>
    case HostJoin =>
  }

  ghost predicate NoInternalStep(p: Pool) {
    forall e :: Internal(e) ==> !Enabled(p, e)
  }

  lemma StuckIsQuiescent(p: Pool)
    requires Inv(p) && PhasesFit(p) && NoInternalStep(p)
    ensures p.Quiescent() && forall i | 0 <= i < |p.runs| :: p.runs[i] == 1
  {
    if !p.Quiescent() {
      var e := ProgressFromInv(p);
    }
    forall i | 0 <= i < |p.runs| ensures p.runs[i] == 1 {
      assert p.Finished(i);
    }
  }

  /** Left alone, the pool finishes: every maximal run of internal events is at most `Work(p)` long and ends
      with every task run exactly once and the host outside every blocking call. */
  lemma {:induction false} Drains(p: Pool, es: seq<Event>)
    requires Inv(p) && PhasesFit(p) && ValidRun(p, es)
    requires forall i | 0 <= i < |es| :: Internal(es[i])
    requires NoInternalStep(After(p, es))
    ensures |es| <= Work(p)
    ensures After(p, es).Quiescent() && forall i | 0 <= i < |After(p, es).runs| :: After(p, es).runs[i] == 1
    decreases |es|
  {
    hide InvTasks, InvBarriers, Enabled, Rank;
    if es == [] {
      StuckIsQuiescent(p);
    } else {
      StepInv(p, es[0]);
      InternalDecreases(p, es[0]);
      Drains(Next(p, es[0]), es[1..]);
    }
  }

  /** At the last value of the 32-bit phase the guarantee ends: a completed barrier does not release the
      waiters of that phase, at any later phase value.  For every other arrival phase it does. */
  lemma ReleasedUnlessLastPhase(b: BarrierState)
    requires b.counter == 1 && b.phase < UINT
    ensures b.Arrive().Open(b.phase) <==> b.phase != UINT - 1
    ensures b.phase == UINT - 1 ==> forall later | 0 <= later < UINT :: !BarrierState(b.n, b.n, later).Open(b.phase)
  {
  }

  // ---------------------------------------------------------------- the objects behind the steps

  /** The fallback barrier; each method is one critical section of `arrive_and_wait`. */
  class Barrier {
    const n: nat
    var counter: nat
    var phase: nat

    ghost predicate Valid()
      reads this
    {
      1 <= counter <= n && phase < UINT
    }

    function State(): BarrierState
      reads this
    {
      BarrierState(n, counter, phase)
    }

    constructor (n: nat)
      requires n >= 1
      ensures Valid() && State() == BarrierState(n, n, 0)
    {
      this.n := n;
      counter := n;
      phase := 0;
    }

    /** Up to the wait loop. */
    method Arrive() returns (arrivePhase: nat)
      requires Valid()
      modifies this
      ensures Valid() && State() == old(State()).Arrive() && arrivePhase == old(phase)
      ensures phase == old(phase) ==> n - counter == n - old(counter) + 1
      ensures phase != old(phase) ==> old(counter) == 1 && counter == n && phase == (old(phase) + 1) % UINT
    {
      arrivePhase := phase;
      counter := counter - 1;
      if counter == 0 {
        counter := n;
        phase := (phase + 1) % UINT;
      }
    }

    /** Whether the wait loop ends. */
    predicate Released(arrivePhase: nat): (r: bool)
      reads this
      ensures r == State().Open(arrivePhase)
    {
      phase > arrivePhase
    }
  }

  /** The queue behind `_dispatch` and `_dispatch_all`, and what one worker takes from it. */
  class TaskQueue {
    var tasks: seq<Task>

    constructor ()
      ensures tasks == []
    {
      tasks := [];
    }

    method Dispatch(task: Task)
      modifies this
      ensures tasks == old(tasks) + [task]
    {
      tasks := tasks + [task];
    }

    /** One copy for each thread, but at most `maxThreads`. */
    method DispatchAll(task: Task, threads: nat, maxThreads: nat)
      requires threads >= 1 && maxThreads >= 1
      modifies this
      ensures tasks == old(tasks) + Repeated(task, if threads < maxThreads then threads else maxThreads)
    {
      var copies := if threads < maxThreads then threads else maxThreads;
      for i := 0 to copies - 1
        invariant tasks == old(tasks) + Repeated(task, i)
      {
        tasks := tasks + [task];
      }
      tasks := tasks + [task];
    }

    method Pop() returns (task: Task)
      requires tasks != []
      modifies this
      ensures old(tasks) == [task] + tasks
    {
      task := tasks[0];
      tasks := tasks[1..];
    }
  }
}
