/** `ThreadPool::parallel` of src/core/thread_pool.h: several copies of one task share an atomic 32-bit
    counter; each copy fetches an index, calls `f` on it while the index is below `n`, and stops at the
    first index that is not. */
module Parallel {
  import opened Integers

  datatype Copy = Looping | Calling(i: nat) | Stopped

  /** `calls[i]` counts the calls `f(i)`, `decrements` the decrements of the task count, `fetches` (history)
      the increments of the shared counter. */
  datatype State = State(n: nat, counter: nat, copies: seq<Copy>, calls: seq<nat>, decrements: nat, fetches: nat)

  datatype Event = Fetch(c: nat) | Return(c: nat)

  function Init(n: nat, copies: nat): State {
    State(n, 0, seq(copies, i => Looping), seq(n, i => 0), 0, 0)
  }

  predicate Enabled(s: State, e: Event) {
    match e
    case Fetch(c) => c < |s.copies| && s.copies[c].Looping?
    case Return(c) => c < |s.copies| && s.copies[c].Calling?
  }

  function Next(s: State, e: Event): State
    requires Enabled(s, e) && |s.calls| == s.n
  {
    match e
    case Fetch(c) =>
      var i := s.counter;
      var t := s.(counter := (i + 1) % UINT, fetches := s.fetches + 1);
      if i < s.n then t.(copies := s.copies[c := Calling(i)], calls := s.calls[i := s.calls[i] + 1])
      else t.(copies := s.copies[c := Stopped], decrements := if i == s.n then s.decrements + 1 else s.decrements)
    case Return(c) => s.(copies := s.copies[c := Looping])
  }

  function StoppedCount(cs: seq<Copy>): nat {
    if cs == [] then 0 else StoppedCount(cs[..|cs| - 1]) + if cs[|cs| - 1].Stopped? then 1 else 0
  }

  lemma {:induction false} StoppedUpdate(cs: seq<Copy>, c: nat, x: Copy)
    requires c < |cs|
    ensures StoppedCount(cs[c := x]) + (if cs[c].Stopped? then 1 else 0)
      == StoppedCount(cs) + if x.Stopped? then 1 else 0
  {
    var front := cs[..|cs| - 1];
    if c < |cs| - 1 {
      StoppedUpdate(front, c, x);
      assert cs[c := x][..|cs| - 1] == front[c := x];
    } else {
      assert cs[c := x][..|cs| - 1] == front;
    }
  }

  lemma {:induction false} StoppedBound(cs: seq<Copy>)
    ensures StoppedCount(cs) <= |cs|
    ensures StoppedCount(cs) == |cs| <==> forall c | 0 <= c < |cs| :: cs[c].Stopped?
  {
    if cs != [] {
      StoppedBound(cs[..|cs| - 1]);
      assert forall c | 0 <= c < |cs| - 1 :: cs[..|cs| - 1][c] == cs[c];
    }
  }

  /** The first `n` fetches call `f` once each, in index order; every later one stops a copy. */
  ghost predicate Inv(s: State) {
    && s.n < UINT && |s.calls| == s.n
    && s.counter == s.fetches % UINT
    && (forall i | 0 <= i < s.n :: s.calls[i] == if i < s.fetches then 1 else 0)
    && StoppedCount(s.copies) == (if s.fetches <= s.n then 0 else s.fetches - s.n)
    && s.decrements == (if s.fetches <= s.n then 0 else 1)
  }

  lemma {:induction false} InitInv(n: nat, copies: nat)
    requires n < UINT
    ensures Inv(Init(n, copies))
  {
    var s := Init(n, copies);
    if copies > 0 {
      InitInv(n, copies - 1);
      assert s.copies[..copies - 1] == Init(n, copies - 1).copies;
    }
  }

  lemma FetchKeeps(s: State, c: nat)
    requires Inv(s) && Enabled(s, Fetch(c)) && s.fetches < UINT
    ensures Inv(Next(s, Fetch(c)))
  {
    StoppedUpdate(s.copies, c, Next(s, Fetch(c)).copies[c]);
  }

  lemma ReturnKeeps(s: State, c: nat)
    requires Inv(s) && Enabled(s, Return(c))
    ensures Inv(Next(s, Return(c)))
  {
    StoppedUpdate(s.copies, c, Looping);
  }

  /** While the index space fits in 32 bits a copy that may still fetch never sees the counter wrap. */
  lemma StepKeeps(s: State, e: Event)
    requires Inv(s) && Enabled(s, e) && s.n + |s.copies| <= UINT
    ensures Inv(Next(s, e)) && Next(s, e).n == s.n && |Next(s, e).copies| == |s.copies|
  {
    StoppedBound(s.copies);
    match e
    case Fetch(c) => FetchKeeps(s, c);
    case Return(c) => ReturnKeeps(s, c);
  }

  ghost predicate Run(s: State, es: seq<Event>, t: State)
    decreases |es|
  {
    if es == [] then s == t
    else Enabled(s, es[0]) && |s.calls| == s.n && Run(Next(s, es[0]), es[1..], t)
  }

  predicate AllStopped(s: State) {
    forall c | 0 <= c < |s.copies| :: s.copies[c].Stopped?
  }

  lemma {:induction false} RunKeeps(s: State, es: seq<Event>, t: State)
    requires Inv(s) && Run(s, es, t) && s.n + |s.copies| <= UINT
    ensures Inv(t) && t.n == s.n && |t.copies| == |s.copies|
    decreases |es|
  {
    if es != [] {
      StepKeeps(s, es[0]);
      RunKeeps(Next(s, es[0]), es[1..], t);
    }
  }

  /** What is left to do: a copy still has to stop, and to return if it is in a call. */
  function Weight(c: Copy): nat {
    match c
    case Looping => 1
    case Calling(_) => 2
    case Stopped => 0
  }

  function Weights(cs: seq<Copy>): nat {
    if cs == [] then 0 else Weights(cs[..|cs| - 1]) + Weight(cs[|cs| - 1])
  }

  function Work(s: State): nat {
    2 * (if s.fetches < s.n then s.n - s.fetches else 0) + Weights(s.copies)
  }

  lemma {:induction false} WeightsUpdate(cs: seq<Copy>, c: nat, x: Copy)
    requires c < |cs|
    ensures Weights(cs[c := x]) + Weight(cs[c]) == Weights(cs) + Weight(x)
  {
    var front := cs[..|cs| - 1];
    if c < |cs| - 1 {
      WeightsUpdate(front, c, x);
      assert cs[c := x][..|cs| - 1] == front[c := x];
    } else {
      assert cs[c := x][..|cs| - 1] == front;
    }
  }

  lemma {:induction false} NoWeight(cs: seq<Copy>)
    ensures Weights(cs) == 0 <==> forall c | 0 <= c < |cs| :: cs[c].Stopped?
  {
    if cs != [] {
      NoWeight(cs[..|cs| - 1]);
      assert forall c | 0 <= c < |cs| - 1 :: cs[..|cs| - 1][c] == cs[c];
    }
  }

  lemma {:induction false} InitialWork(n: nat, copies: nat)
    ensures Work(Init(n, copies)) == 2 * n + copies
  {
    if copies > 0 {
      InitialWork(n, copies - 1);
      assert Init(n, copies).copies[..copies - 1] == Init(n, copies - 1).copies;
    }
  }

  /** Every event does one unit of the work. */
  lemma {:induction false} RunWork(s: State, es: seq<Event>, t: State)
    requires Inv(s) && Run(s, es, t) && s.n + |s.copies| <= UINT
    ensures |es| + Work(t) == Work(s)
    decreases |es|
  {
    if es != [] {
      StepKeeps(s, es[0]);
      StoppedBound(s.copies);
      WeightsUpdate(s.copies, es[0].c, Next(s, es[0]).copies[es[0].c]);
      RunWork(Next(s, es[0]), es[1..], t);
    }
  }

  /** No copy can make a step. */
  ghost predicate Ended(s: State) {
    forall e :: !Enabled(s, e)
  }

  /** Every interleaving ends after exactly 2n + copies events, with all copies stopped; then `f` was called
      exactly once for each `i < n` and exactly one copy decremented the task count. */
  lemma EveryIndexOnce(n: nat, copies: nat, es: seq<Event>, t: State)
    requires 1 <= n < UINT && copies >= 1 && n + copies <= UINT && Run(Init(n, copies), es, t)
    ensures |es| <= 2 * n + copies
    ensures Ended(t) <==> |es| == 2 * n + copies
    ensures Ended(t) ==> AllStopped(t) && t.decrements == 1
    ensures Ended(t) ==> |t.calls| == n && forall i | 0 <= i < n :: t.calls[i] == 1
  {
    InitInv(n, copies);
    InitialWork(n, copies);
    RunKeeps(Init(n, copies), es, t);
    RunWork(Init(n, copies), es, t);
    StoppedBound(t.copies);
    NoWeight(t.copies);
    EndedIff(t);
  }

  lemma EndedIff(s: State)
    ensures Ended(s) <==> AllStopped(s)
  {
    if c: nat :| c < |s.copies| && !s.copies[c].Stopped? {
      assert Enabled(s, Fetch(c)) || Enabled(s, Return(c));
    }
  }

  lemma {:induction false} RunAppend(s: State, es: seq<Event>, t: State, e: Event)
    requires Run(s, es, t) && Enabled(t, e) && |t.calls| == t.n
    ensures Run(s, es + [e], Next(t, e))
    decreases |es|
  {
    if es == [] {
      assert es + [e] == [e] && [e][1..] == [];
    } else {
      assert (es + [e])[1..] == es[1..] + [e];
      RunAppend(Next(s, es[0]), es[1..], t, e);
    }
  }

  lemma LoopingCopy(s: State, es: seq<Event>, t: State) returns (es': seq<Event>, t': State, c: nat)
    requires Run(s, es, t) && Inv(t) && StoppedCount(t.copies) < |t.copies|
    ensures Run(s, es', t') && Inv(t') && Enabled(t', Fetch(c))
    ensures t'.fetches == t.fetches && t'.n == t.n && |t'.copies| == |t.copies|
  {
    StoppedBound(t.copies);
    c :| 0 <= c < |t.copies| && !t.copies[c].Stopped?;
    if t.copies[c].Calling? {
      RunAppend(s, es, t, Return(c));
      ReturnKeeps(t, c);
      es', t' := es + [Return(c)], Next(t, Return(c));
    } else {
      es', t' := es, t;
    }
  }

  /** Some run reaches any number of fetches for which a copy is left. */
  lemma {:induction false} ReachFetches(n: nat, copies: nat, k: nat) returns (es: seq<Event>, t: State)
    requires 1 <= n < UINT && k <= UINT && k <= n + copies && copies >= 1
    ensures Run(Init(n, copies), es, t) && Inv(t) && t.fetches == k && t.n == n && |t.copies| == copies
  {
    if k == 0 {
      InitInv(n, copies);
      es, t := [], Init(n, copies);
    } else {
      var es0, t0 := ReachFetches(n, copies, k - 1);
      var es1, t1, c := LoopingCopy(Init(n, copies), es0, t0);
      RunAppend(Init(n, copies), es1, t1, Fetch(c));
      FetchKeeps(t1, c);
      es, t := es1 + [Fetch(c)], Next(t1, Fetch(c));
    }
  }

  /** Beyond that bound the guarantee fails: the counter wraps and some run calls `f(0)` twice. */
  lemma IndexZeroTwice(n: nat, copies: nat) returns (es: seq<Event>, t: State)
    requires 1 <= n < UINT && 1 <= copies <= n && n + copies > UINT
    ensures Run(Init(n, copies), es, t) && |t.calls| == n && t.calls[0] == 2
  {
    var es0, t0 := ReachFetches(n, copies, UINT);
    var es1, t1, c := LoopingCopy(Init(n, copies), es0, t0);
    RunAppend(Init(n, copies), es1, t1, Fetch(c));
    es, t := es1 + [Fetch(c)], Next(t1, Fetch(c));
  }

  ghost predicate AtMostOnce(n: nat, copies: nat) {
    forall es, t :: Run(Init(n, copies), es, t) ==> |t.calls| == n && forall i | 0 <= i < n :: t.calls[i] <= 1
  }

  /** No run calls `f` twice on one index exactly when `n` plus the number of copies fits in 32 bits. */
  lemma OnceIffIndicesFit(n: nat, copies: nat)
    requires 1 <= n < UINT && 1 <= copies <= n
    ensures AtMostOnce(n, copies) <==> n + copies <= UINT
  {
    if n + copies <= UINT {
      forall es, t | Run(Init(n, copies), es, t)
        ensures |t.calls| == n && forall i | 0 <= i < n :: t.calls[i] <= 1
      {
        InitInv(n, copies);
        RunKeeps(Init(n, copies), es, t);
      }
    } else {
      var es, t := IndexZeroTwice(n, copies);
    }
  }

  // ---------------------------------------------------------------- the two- and three-dimensional forms

  /** The grid cell on which the two-dimensional form calls `f` for the linear index `i`. */
  function Cell2(nx: nat, i: nat): (nat, nat)
    requires nx > 0
  {
    (i % nx, i / nx)
  }

  function Cell3(nx: nat, ny: nat, i: nat): (nat, nat, nat)
    requires nx > 0 && ny > 0
  {
    (i % nx, i / nx % ny, i / nx / ny)
  }

  lemma MulBound(x: nat, y: nat, nx: nat, ny: nat)
    requires x < nx && y < ny
    ensures y * nx + x < nx * ny
  {
    MulMonotone(y + 1, ny, nx);
  }

  lemma QuotientBound(nx: nat, ny: nat, i: nat)
    requires nx > 0 && i < nx * ny
    ensures i / nx < ny
  {
    if i / nx >= ny {
      MulMonotone(ny, i / nx, nx);
    }
  }

  /** Cell (x, y) is visited for the index `i` exactly when `i = y * nx + x`. */
  lemma Cell2Index(nx: nat, x: nat, y: nat, i: nat)
    requires x < nx
    ensures Cell2(nx, i) == (x, y) <==> i == y * nx + x
  {
    DivModUnique(x, y, nx);
  }

  lemma Cell3Index(nx: nat, ny: nat, x: nat, y: nat, z: nat, i: nat)
    requires x < nx && y < ny
    ensures Cell3(nx, ny, i) == (x, y, z) <==> i == (z * ny + y) * nx + x
  {
    DivModUnique(x, z * ny + y, nx);
    DivModUnique(y, z, ny);
  }

  ghost predicate Visited2(nx: nat, total: nat, x: nat, y: nat)
    requires nx > 0
  {
    exists i: nat :: i < total && Cell2(nx, i) == (x, y)
  }

  ghost predicate Visited3(nx: nat, ny: nat, total: nat, x: nat, y: nat, z: nat)
    requires nx > 0 && ny > 0
  {
    exists i: nat :: i < total && Cell3(nx, ny, i) == (x, y, z)
  }

  /** The two-dimensional form passes `nx * ny` as a 32-bit word: every cell of the grid is visited if and
      only if the product fits in 32 bits. */
  lemma Grid2Covered(nx: nat, ny: nat)
    requires 0 < nx && 0 < ny
    ensures (forall x, y | 0 <= x < nx && 0 <= y < ny :: Visited2(nx, nx * ny % UINT, x, y)) <==> nx * ny < UINT
  {
    if nx * ny < UINT {
      forall x: nat, y: nat | x < nx && y < ny ensures Visited2(nx, nx * ny, x, y) {
        MulBound(x, y, nx, ny);
        Cell2Index(nx, x, y, y * nx + x);
      }
    } else {
      forall i: nat | i < nx * ny % UINT ensures Cell2(nx, i) != (nx - 1, ny - 1) {
        Cell2Index(nx, nx - 1, ny - 1, i);
        assert (ny - 1) * nx + nx - 1 == nx * ny - 1;
      }
      assert !Visited2(nx, nx * ny % UINT, nx - 1, ny - 1);
    }
  }

  /** No cell is visited twice, and none outside the grid is visited. */
  lemma Grid2Distinct(nx: nat, ny: nat, i: nat, j: nat)
    requires 0 < nx && i < nx * ny && j < nx * ny
    ensures Cell2(nx, i).0 < nx && Cell2(nx, i).1 < ny
    ensures Cell2(nx, i) == Cell2(nx, j) ==> i == j
  {
    QuotientBound(nx, ny, i);
    Cell2Index(nx, i % nx, i / nx, i);
    Cell2Index(nx, i % nx, i / nx, j);
  }

  lemma Grid3Covered(nx: nat, ny: nat, nz: nat)
    requires 0 < nx && 0 < ny && 0 < nz
    ensures (forall x, y, z | 0 <= x < nx && 0 <= y < ny && 0 <= z < nz ::
               Visited3(nx, ny, nx * ny * nz % UINT, x, y, z)) <==> nx * ny * nz < UINT
  {
    var n := nx * ny * nz;
    Associative(nx, ny, nz);
    if n < UINT {
      assert n % UINT == n;
      forall x: nat, y: nat, z: nat | x < nx && y < ny && z < nz
        ensures Visited3(nx, ny, n, x, y, z)
      {
        CellVisited(nx, ny, nz, n, x, y, z);
      }
    } else {
      LastCellMissed(nx, ny, nz, n, n % UINT);
    }
  }

  lemma CellVisited(nx: nat, ny: nat, nz: nat, n: nat, x: nat, y: nat, z: nat)
    requires x < nx && y < ny && z < nz && n == nx * (ny * nz)
    ensures Visited3(nx, ny, n, x, y, z)
  {
    hide Cell3;
    var i := (z * ny + y) * nx + x;
    assert i < n by {
      MulBound(y, z, ny, nz);
      MulBound(x, z * ny + y, nx, ny * nz);
    }
    Cell3Index(nx, ny, x, y, z, i);
  }

  lemma LastCellMissed(nx: nat, ny: nat, nz: nat, n: nat, total: nat)
    requires 0 < nx && 0 < ny && 0 < nz && n == nx * (ny * nz) && total < n
    ensures !Visited3(nx, ny, total, nx - 1, ny - 1, nz - 1)
  {
    hide Cell3;
    LastCell3(nx, ny, nz, n);
    forall i: nat | i < total ensures Cell3(nx, ny, i) != (nx - 1, ny - 1, nz - 1) {
      Cell3Index(nx, ny, nx - 1, ny - 1, nz - 1, i);
    }
  }

  lemma LastCell3(nx: nat, ny: nat, nz: nat, n: nat)
    requires 0 < nx && 0 < ny && 0 < nz && n == nx * (ny * nz)
    ensures ((nz - 1) * ny + (ny - 1)) * nx + (nx - 1) == n - 1
  {
    OneLess(ny, nz);
    OneLess(nx, ny * nz);
  }

  lemma OneLess(d: nat, m: nat)
    requires 0 < d && 0 < m
    ensures d * m >= 1
    ensures (m - 1) * d + (d - 1) == d * m - 1
  {
  }

  lemma Grid3Distinct(nx: nat, ny: nat, nz: nat, i: nat, j: nat)
    requires 0 < nx && 0 < ny && i < nx * ny * nz && j < nx * ny * nz
    ensures Cell3(nx, ny, i).0 < nx && Cell3(nx, ny, i).1 < ny && Cell3(nx, ny, i).2 < nz
    ensures Cell3(nx, ny, i) == Cell3(nx, ny, j) ==> i == j
  {
    Associative(nx, ny, nz);
    Cell3Inside(nx, ny, nz, i, nx * ny * nz);
    hide Cell3;
    var c := Cell3(nx, ny, i);
    Cell3Index(nx, ny, c.0, c.1, c.2, i);
    Cell3Index(nx, ny, c.0, c.1, c.2, j);
  }

  lemma Cell3Inside(nx: nat, ny: nat, nz: nat, i: nat, n: nat)
    requires 0 < nx && 0 < ny && i < n == nx * (ny * nz)
    ensures Cell3(nx, ny, i).0 < nx && Cell3(nx, ny, i).1 < ny && Cell3(nx, ny, i).2 < nz
  {
    QuotientBound(nx, ny * nz, i);
    QuotientBound(ny, nz, i / nx);
  }

  lemma Associative(a: nat, b: nat, c: nat)
    ensures a * b * c == a * (b * c)
  {
  }
}
