/** When the pool of src/core/thread_pool.cpp gets stuck: the phase of a barrier is a 32-bit word, and a worker
    that arrives during its last value waits for a larger one for ever. */
module Deadlock {
  import opened Integers
  import opened ThreadPool

  /** The worker arrived during the last phase. */
  predicate WaitsForEver(w: Worker) { w.Waiting? && w.arrival == UINT - 1 }

  lemma WaiterKept(p: Pool, e: Event, w: nat)
    requires Inv(p) && Enabled(p, e) && Is(p, w) && WaitsForEver(p.workers[w])
    ensures Is(Next(p, e), w) && Next(p, e).workers[w] == p.workers[w]
  {
    hide InvTasks, HostOk;
  }

  /** Such a worker is never released: in no run does it go on, and its task never finishes. */
  lemma {:induction false} WaiterStays(p: Pool, es: seq<Event>, w: nat)
    requires Inv(p) && ValidRun(p, es) && Is(p, w) && WaitsForEver(p.workers[w])
    ensures var q := After(p, es);
            && Is(q, w) && q.workers[w] == p.workers[w]
            && q.workers[w].task < |q.runs| && q.runs[q.workers[w].task] == 0 && !q.Quiescent()
    decreases |es|
  {
    if es == [] {
      HeldHasNotRun(p, w);
    } else {
      hide Enabled, InvTasks, InvBarriers;
      StepInv(p, es[0]);
      WaiterKept(p, es[0], w);
      WaiterStays(Next(p, es[0]), es[1..], w);
    }
  }

  lemma HeldHasNotRun(p: Pool, w: nat)
    requires Inv(p) && Is(p, w) && p.workers[w].Busy()
    ensures p.workers[w].task < |p.runs| && p.runs[p.workers[w].task] == 0 && !p.Quiescent()
  {
    hide InvBarriers, FrontierOk, FencesOk, WorkersOk, ExitOk;
    assert !p.Finished(p.workers[w].task);
  }

  // ---------------------------------------------------------------- the last phase

  /** A barrier has opened 2^32 times. */
  predicate Exhausted(p: Pool)
    requires p.done <= |p.batches|
  {
    Rank(p.batches, Dispatch, p.done) >= UINT || Rank(p.batches, Synchronize, p.done) >= UINT
  }

  /** Then the first worker waits for ever. */
  predicate ExhaustedBlocks(p: Pool)
    requires p.done <= |p.batches|
  {
    Exhausted(p) ==> |p.workers| >= 1 && WaitsForEver(p.workers[0])
  }

  lemma DoneInRange(p: Pool)
    requires Inv(p)
    ensures p.done <= |p.batches| && |p.workers| >= 1
  {
  }

  lemma {:induction false} RankPrefix(bs: seq<Batch>, b: Batch, k: Kind, i: nat)
    requires i <= |bs|
    ensures Rank(bs + [b], k, i) == Rank(bs, k, i)
  {
    if i > 0 {
      RankPrefix(bs, b, k, i - 1);
    }
  }

  /** The batch that opens is the one after those that opened before; all workers wait at it. */
  lemma OpensNext(p: Pool, e: Event)
    requires Inv(p) && Enabled(p, e) && p.done <= |p.batches|
    ensures var q := Next(p, e);
            && q.done <= |q.batches|
            && (q.batches == p.batches || exists b :: q.batches == p.batches + [b])
            && (q.done == p.done || (q.done == p.done + 1 <= |p.batches| && q.batches == p.batches))
  {
    hide HeldOk, FinishedOk, WorkersOk, HostOk;
    StepInv(p, e);
    match e
    case Arrive(w) => RunningFenceIsCurrent(p, w);
    case HostArrive => HostAtBarrier(p);
    case HostFence(k) => assert Next(p, e).batches == p.batches + [Batch(k, |p.log|)];
    case _ =>
  }

  lemma OpeningWaits(p: Pool, e: Event)
    requires Inv(p) && Enabled(p, e) && Next(p, e).done != p.done
    ensures var q := Next(p, e); forall v | 0 <= v < |q.workers| :: WaitsOn(q.log, q.workers[v], p.done)
  {
    hide HeldOk, FinishedOk, WorkersOk, HostOk, FencesOk, FrontierOk, ExitOk, BarrierOk;
    match e
    case Arrive(w) =>
      RunningFenceIsCurrent(p, w);
      LastWaiter(p, w, Next(p, e).workers);
    case HostArrive =>
      HostIsLast(p);
    case _ =>
  }

  lemma WaiterArrival(p: Pool, v: nat)
    requires Inv(p) && Is(p, v) && p.workers[v].Waiting?
    ensures p.workers[v].task < |p.log| && p.log[p.workers[v].task].Fence?
    ensures var b := p.log[p.workers[v].task].batch;
            b < |p.batches| && p.workers[v].arrival == Rank(p.batches, p.batches[b].kind, b) % UINT
  {
    assert WorkerOk(p.log, p.workers[v], p.batches, p.done);
    hide InvBarriers, HeldOk, FencesOk, FrontierOk, FinishedOk, ExitOk;
  }

  lemma RanksKept(p: Pool, q: Pool, i: nat)
    requires i <= |p.batches| && (q.batches == p.batches || exists b :: q.batches == p.batches + [b])
    ensures i <= |q.batches| && forall k :: Rank(q.batches, k, i) == Rank(p.batches, k, i)
  {
    if b :| q.batches == p.batches + [b] {
      RankPrefix(p.batches, b, Dispatch, i);
      RankPrefix(p.batches, b, Synchronize, i);
    }
  }

  lemma StepBlocks(p: Pool, e: Event)
    requires Inv(p) && Enabled(p, e) && p.done <= |p.batches| && ExhaustedBlocks(p)
    ensures Next(p, e).done <= |Next(p, e).batches| && ExhaustedBlocks(Next(p, e))
  {
    hide Inv, Enabled, Next, Rank;
    var q := Next(p, e);
    StepInv(p, e);
    DoneInRange(q);
    OpensNext(p, e);
    if Exhausted(p) {
      WaiterKept(p, e, 0);
    } else {
      RanksKept(p, q, p.done);
      if q.done != p.done {
        OpeningWaits(p, e);
        WaiterArrival(q, 0);
        OneMoreOpen(p.batches, p.done);
      }
    }
  }

  lemma OneMoreOpen(bs: seq<Batch>, done: nat)
    requires done < |bs|
    ensures forall k :: Rank(bs, k, done + 1) == Rank(bs, k, done) + if bs[done].kind == k then 1 else 0
  {
  }

  lemma {:induction false} RunBlocks(p: Pool, es: seq<Event>)
    requires Inv(p) && ValidRun(p, es) && p.done <= |p.batches| && ExhaustedBlocks(p)
    ensures After(p, es).done <= |After(p, es).batches| && ExhaustedBlocks(After(p, es))
    decreases |es|
  {
    if es != [] {
      hide Inv, Enabled, Next, Exhausted, ExhaustedBlocks;
      StepInv(p, es[0]);
      StepBlocks(p, es[0]);
      RunBlocks(Next(p, es[0]), es[1..]);
    }
  }

  lemma ReachableBlocks(n: nat, p: Pool)
    requires n >= 1 && Reachable(n, p)
    ensures Inv(p) && p.done <= |p.batches| && ExhaustedBlocks(p)
  {
    hide Inv, Enabled, Next, Init, ExhaustedBlocks;
    InitInv(n);
    InitBlocks(n);
    var es :| ValidRun(Init(n), es) && After(Init(n), es) == p;
    RunBlocks(Init(n), es);
  }

  lemma InitBlocks(n: nat)
    requires n >= 1
    ensures Init(n).done <= |Init(n).batches| && ExhaustedBlocks(Init(n))
  {
  }

  // ----- Draining -----

  lemma {:induction false} InternalKeepsBatches(p: Pool, es: seq<Event>)
    requires Inv(p) && ValidRun(p, es) && forall i | 0 <= i < |es| :: Internal(es[i])
    ensures After(p, es).batches == p.batches
    decreases |es|
  {
    hide Inv, Enabled, Next, Internal, Work;
    if es != [] {
      StepInv(p, es[0]);
      InternalDecreases(p, es[0]);
      InternalKeepsBatches(Next(p, es[0]), es[1..]);
    }
  }

  /** A batch that has not opened has not run. */
  lemma UnopenedHasNotRun(p: Pool)
    requires Inv(p) && p.done < |p.batches|
    ensures !p.Quiescent()
  {
    hide InvBarriers, HeldOk, FrontierOk, WorkersOk, ExitOk;
    var i := p.batches[p.done].start;
    assert p.log[i] == Fence(p.done);
    assert p.Finished(i) <==> p.runs[i] >= 1;
  }

  /**
   * Exactly when the pool drains: a run of its own events that cannot go on ends with everything run and the
   * host outside every blocking call if and only if fewer than 2^32 batches of each kind were queued.
   */
  lemma DrainsIffPhasesFit(n: nat, p: Pool, es: seq<Event>)
    requires n >= 1 && Reachable(n, p) && Inv(p) && ValidRun(p, es)
    requires forall i | 0 <= i < |es| :: Internal(es[i])
    requires NoInternalStep(After(p, es))
    ensures After(p, es).Quiescent() <==> PhasesFit(p)
  {
    hide Inv, Enabled, Next, Rank;
    var q := After(p, es);
    if PhasesFit(p) {
      Drains(p, es);
    } else {
      DoneInRange(q);
      ReachableBlocks(n, p);
      RunBlocks(p, es);
      InternalKeepsBatches(p, es);
      if q.done < |q.batches| {
        UnopenedHasNotRun(q);
      } else {
        HeldHasNotRun(q, 0);
      }
    }
  }

  // ----- A deadlock can be reached -----

  lemma {:induction false} RunOn(p: Pool, a: seq<Event>, b: seq<Event>)
    requires Inv(p) && ValidRun(p, a) && ValidRun(After(p, a), b)
    ensures ValidRun(p, a + b) && After(p, a + b) == After(After(p, a), b)
    decreases |a|
  {
    hide Inv, Enabled, Next;
    if a == [] {
      assert a + b == b;
    } else {
      StepInv(p, a[0]);
      RunOn(Next(p, a[0]), a[1..], b);
      assert (a + b)[1..] == a[1..] + b;
    }
  }

  /** Left alone, the pool comes to a state without own events. */
  lemma {:induction false} RunOut(p: Pool) returns (es: seq<Event>)
    requires Inv(p)
    ensures ValidRun(p, es) && NoInternalStep(After(p, es))
    ensures forall i | 0 <= i < |es| :: Internal(es[i])
    decreases Work(p)
  {
    hide Inv, Enabled, Next, Work;
    es := [];
    if e :| Internal(e) && Enabled(p, e) {
      StepInv(p, e);
      InternalDecreases(p, e);
      var rest := RunOut(Next(p, e));
      es := [e] + rest;
      assert es[1..] == rest;
    }
  }

  /** The host queues k batches, one after the other. */
  lemma {:induction false} QueueBatches(n: nat, k: nat) returns (es: seq<Event>)
    requires n >= 1
    ensures Inv(Init(n)) && ValidRun(Init(n), es)
    ensures var p := After(Init(n), es);
            |p.batches| == k && Rank(p.batches, Dispatch, k) == k && p.host.Free?
  {
    InitInv(n);
    if k == 0 {
      es := [];
    } else {
      var before := QueueBatches(n, k - 1);
      var p := After(Init(n), before);
      var e := HostFence(Dispatch);
      BatchQueued(p, k - 1);
      RunOne(p, e);
      hide Inv, Next, Enabled, Rank, Init;
      RunOn(Init(n), before, [e]);
      es := before + [e];
    }
  }

  lemma BatchQueued(p: Pool, k: nat)
    requires Inv(p) && p.host.Free? && |p.batches| == k && Rank(p.batches, Dispatch, k) == k
    ensures Enabled(p, HostFence(Dispatch))
    ensures var q := Next(p, HostFence(Dispatch));
            q.host.Free? && |q.batches| == k + 1 && Rank(q.batches, Dispatch, k + 1) == k + 1
  {
    hide Inv;
    var b := Batch(Dispatch, |p.log|);
    assert Next(p, HostFence(Dispatch)).batches == p.batches + [b];
    RankPrefix(p.batches, b, Dispatch, k);
  }

  lemma RunOne(p: Pool, e: Event)
    requires Inv(p) && Enabled(p, e)
    ensures ValidRun(p, [e]) && After(p, [e]) == Next(p, e)
  {
    hide Inv, Enabled, Next;
    StepInv(p, e);
    assert [e][1..] == [];
  }

  /** With any number of workers: no thread can step, and yet not everything has run. */
  lemma DeadlockIsReachable(n: nat) returns (p: Pool)
    requires n >= 1
    ensures Reachable(n, p) && NoInternalStep(p) && !p.Quiescent()
  {
    var es := QueueBatches(n, UINT);
    hide Inv, Enabled, Next, Rank;
    var q := After(Init(n), es);
    var rest := RunOut(q);
    DrainsIffPhasesFit(n, q, rest);
    RunOn(Init(n), es, rest);
    p := After(q, rest);
  }
}
