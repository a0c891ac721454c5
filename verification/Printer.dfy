/**
 * The device log (src/dsl/printer.{h,cpp}): threads of a kernel reserve space in a
 * buffer with an atomic addition and fill in records of different lengths; the host
 * walks the words and decodes them.
 *
 * The buffer has `capacity` words for records and one more for the counter.
 */
module Printer {
  import opened Integers
  import opened Types

  // ----- Arguments and their words -----

  datatype Kind = BoolKind | IntKind | UintKind | FloatKind

  /** A float is given by its bits. */
  datatype Value =
    | BoolValue(b: bool)
    | IntValue(i: int)
    | UintValue(u: nat)
    | FloatValue(bits: nat)

  predicate HasKind(v: Value, kind: Kind) {
    match v
    case BoolValue(_) => kind.BoolKind?
    case IntValue(i) => kind.IntKind? && -0x8000_0000 <= i < 0x8000_0000
    case UintValue(u) => kind.UintKind? && u < UINT
    case FloatValue(bits) => kind.FloatKind? && bits < UINT
  }

  /** cast<uint> and as<uint> */
  function Encode(v: Value): nat {
    match v
    case BoolValue(b) => if b then 1 else 0
    case IntValue(i) => i % UINT
    case UintValue(u) => u
    case FloatValue(bits) => bits
  }

  /** static_cast and bit_cast from uint */
  function Decode(kind: Kind, raw: nat): Value {
    match kind
    case BoolKind => BoolValue(raw != 0)
    case IntKind => IntValue(if raw < 0x8000_0000 then raw else raw - UINT)
    case UintKind => UintValue(raw)
    case FloatKind => FloatValue(raw)
  }

  lemma EncodedIsDecoded(v: Value, kind: Kind)
    requires HasKind(v, kind)
    ensures Encode(v) < UINT && Decode(kind, Encode(v)) == v
  {
  }

  // ----- Items -----

  /** An argument of a log call is known to the host, or a value of the kernel. */
  datatype Slot = Host(text: string) | Device(kind: Kind)

  datatype Shown = Text(text: string) | Shown(value: Value)

  /** The number of kernel values among the first i arguments: `index` and `counter` of the source. */
  function Index(slots: seq<Slot>, i: nat): (n: nat)
    requires i <= |slots|
    ensures n <= i
  {
    if i == 0 then 0 else Index(slots, i - 1) + if slots[i - 1].Device? then 1 else 0
  }

  /** A record is the number of the item and the kernel values. */
  function Count(slots: seq<Slot>): nat {
    1 + Index(slots, |slots|)
  }

  lemma {:induction false} IndexGrows(slots: seq<Slot>, i: nat, j: nat)
    requires i <= j <= |slots|
    ensures Index(slots, i) <= Index(slots, j)
    decreases j
  {
    if i < j {
      IndexGrows(slots, i, j - 1);
    }
  }

  /** The decoder that was made with the item. */
  function DecodeItem(slots: seq<Slot>, n: nat, data: seq<nat>): (r: seq<Shown>)
    requires n <= |slots| && |data| >= Count(slots)
    ensures |r| == n
  {
    if n == 0 then [] else
      IndexGrows(slots, n, |slots|);
      DecodeItem(slots, n - 1, data) +
      [match slots[n - 1]
       case Host(text) => Text(text)
       case Device(kind) => Shown(Decode(kind, data[Index(slots, n)]))]
  }

  /** The arguments of a log call as they were given. */
  function Given(slots: seq<Slot>, n: nat, args: seq<Value>): (r: seq<Shown>)
    requires n <= |slots| && |args| >= Index(slots, |slots|)
    ensures |r| == n
  {
    if n == 0 then [] else
      IndexGrows(slots, n, |slots|);
      Given(slots, n - 1, args) +
      [match slots[n - 1]
       case Host(text) => Text(text)
       case Device(_) => Shown(args[Index(slots, n) - 1])]
  }

  predicate ArgumentsFit(slots: seq<Slot>, args: seq<Value>) {
    && |args| == Index(slots, |slots|)
    && forall i | 0 <= i < |slots| && slots[i].Device? :: ArgumentFits(slots, args, i)
  }

  predicate ArgumentFits(slots: seq<Slot>, args: seq<Value>, i: nat)
    requires i < |slots| && slots[i].Device?
  {
    0 < Index(slots, i + 1) <= |args| && HasKind(args[Index(slots, i + 1) - 1], slots[i].kind)
  }

  lemma {:induction false} ItemIsDecoded(slots: seq<Slot>, n: nat, args: seq<Value>, data: seq<nat>)
    requires n <= |slots| && ArgumentsFit(slots, args) && |data| >= Count(slots)
    requires forall k | 0 <= k < |args| :: data[k + 1] == Encode(args[k])
    ensures DecodeItem(slots, n, data) == Given(slots, n, args)
  {
    if n > 0 {
      ItemIsDecoded(slots, n - 1, args, data);
      IndexGrows(slots, n, |slots|);
      if slots[n - 1].Device? {
        assert ArgumentFits(slots, args, n - 1);
        var k := Index(slots, n) - 1;
        assert data[k + 1] == Encode(args[k]);
        EncodedIsDecoded(args[k], slots[n - 1].kind);
      }
    }
  }

  /** The values among what is shown. */
  function Values(shown: seq<Shown>): seq<Value> {
    if shown == [] then [] else
      var last := shown[|shown| - 1];
      Values(shown[..|shown| - 1]) + if last.Shown? then [last.value] else []
  }

  /** A log call shows its texts and its values in the positions of its arguments, ... */
  lemma {:induction false} GivenInPlace(slots: seq<Slot>, n: nat, args: seq<Value>, i: nat)
    requires i < n <= |slots| && ArgumentsFit(slots, args)
    ensures slots[i].Host? ==> Given(slots, n, args)[i] == Text(slots[i].text)
    ensures slots[i].Device? ==>
              Given(slots, n, args)[i].Shown? && HasKind(Given(slots, n, args)[i].value, slots[i].kind)
  {
    IndexGrows(slots, n, |slots|);
    if i < n - 1 {
      hide ArgumentsFit;
      GivenInPlace(slots, n - 1, args, i);
    } else if slots[i].Device? {
      assert ArgumentFits(slots, args, i);
    }
  }

  /** ... and every value of the kernel once, in order. */
  lemma {:induction false} GivenShowsAll(slots: seq<Slot>, n: nat, args: seq<Value>)
    requires n <= |slots| && ArgumentsFit(slots, args)
    ensures Index(slots, n) <= |args| && Values(Given(slots, n, args)) == args[..Index(slots, n)]
    ensures n == |slots| ==> Values(Given(slots, n, args)) == args
  {
    assert |args| == Index(slots, |slots|);
    IndexGrows(slots, n, |slots|);
    hide ArgumentsFit, Values, Given, Index;
    if n == 0 {
      NothingGiven(slots, args);
    } else {
      GivenShowsAll(slots, n - 1, args);
      var x := LastGiven(slots, n, args);
      OneMoreValue(Given(slots, n - 1, args), x);
    }
    assert n == |slots| ==> args[..|args|] == args;
  }

  lemma NothingGiven(slots: seq<Slot>, args: seq<Value>)
    requires |args| >= Index(slots, |slots|)
    ensures Index(slots, 0) == 0 && Values(Given(slots, 0, args)) == args[..0]
  {
  }

  lemma LastGiven(slots: seq<Slot>, n: nat, args: seq<Value>) returns (x: Shown)
    requires 0 < n <= |slots| && |args| >= Index(slots, |slots|) && Index(slots, n) <= |args|
    ensures Given(slots, n, args) == Given(slots, n - 1, args) + [x]
    ensures Index(slots, n - 1) <= Index(slots, n)
    ensures args[..Index(slots, n)] == args[..Index(slots, n - 1)] + if x.Shown? then [x.value] else []
  {
    x := Given(slots, n, args)[n - 1];
  }

  lemma OneMoreValue(shown: seq<Shown>, x: Shown)
    ensures Values(shown + [x]) == Values(shown) + if x.Shown? then [x.value] else []
  {
    assert (shown + [x])[..|shown|] == shown;
  }

  // ----- The threads -----

  datatype Call = Call(item: nat, args: seq<Value>)

  /** A thread that executes one log call: it reserves, then makes its writes one by one. */
  datatype Thread = Thread(call: Call, offset: Option<nat>, writes: nat)

  /** `order`: the threads that reserved, in that order. */
  datatype State = State(cells: seq<nat>, threads: seq<Thread>, order: seq<nat>)

  datatype Setup = Setup(items: seq<seq<Slot>>, capacity: nat)
  {
    predicate Formed(calls: seq<Thread>) {
      && capacity < UINT
      && forall t | 0 <= t < |calls| :: FormedCall(calls[t].call)
    }

    predicate FormedCall(c: Call) {
      c.item < |items| && c.item < UINT && ArgumentsFit(items[c.item], c.args)
    }

    function CountOf(c: Call): nat {
      if c.item < |items| then Count(items[c.item]) else 0
    }
  }

  function Reserve(u: Setup, s: State, t: nat): State
    requires t < |s.threads| && |s.cells| == u.capacity + 1
  {
    var offset := s.cells[u.capacity];
    s.(cells := s.cells[u.capacity := Wrap32(offset + u.CountOf(s.threads[t].call))],
       threads := s.threads[t := s.threads[t].(offset := Some(offset))],
       order := s.order + [t])
  }

  /** The next write: the number of the item if it fits, then the arguments if they all fit. */
  function WriteCells(u: Setup, cells: seq<nat>, th: Thread): (r: seq<nat>)
    requires th.offset.Some?
    ensures |r| == |cells|
  {
    var offset := th.offset.value;
    var k := th.writes;
    if k == 0 then
      if offset < u.capacity && offset < |cells| then cells[offset := th.call.item] else cells
    else if Wrap32(offset + u.CountOf(th.call)) <= u.capacity && k <= |th.call.args|
      && Wrap32(offset + k) < |cells| then
      cells[Wrap32(offset + k) := Encode(th.call.args[k - 1])]
    else
      cells
  }

  function Write(u: Setup, s: State, t: nat): State
    requires t < |s.threads| && s.threads[t].offset.Some?
  {
    s.(cells := WriteCells(u, s.cells, s.threads[t]),
       threads := s.threads[t := s.threads[t].(writes := s.threads[t].writes + 1)])
  }

  predicate Next(u: Setup, s: State, s': State, t: nat) {
    && t < |s.threads| && |s.cells| == u.capacity + 1
    && if s.threads[t].offset.None? then s' == Reserve(u, s, t)
       else s.threads[t].writes < u.CountOf(s.threads[t].call) && s' == Write(u, s, t)
  }

  // ----- Invariant -----

  /** The words reserved by the first i threads. */
  function Reserved(u: Setup, threads: seq<Thread>, order: seq<nat>, i: nat): nat
    requires i <= |order|
  {
    if i == 0 then 0 else
      Reserved(u, threads, order, i - 1) + if order[i - 1] < |threads| then u.CountOf(threads[order[i - 1]].call) else 0
  }

  /** The words that the threads that did not reserve yet still need. */
  function Pending(u: Setup, threads: seq<Thread>): nat {
    if threads == [] then 0 else
      Pending(u, threads[..|threads| - 1]) +
      if threads[|threads| - 1].offset.None? then u.CountOf(threads[|threads| - 1].call) else 0
  }

  predicate InOrder(u: Setup, threads: seq<Thread>, order: seq<nat>) {
    && (forall i | 0 <= i < |order| :: order[i] < |threads|)
    && (forall i, j | 0 <= i < j < |order| :: order[i] != order[j])
    && (forall t | 0 <= t < |threads| :: threads[t].offset.Some? <==> t in order)
    && forall i | 0 <= i < |order| :: threads[order[i]].offset == Some(Reserved(u, threads, order, i))
  }

  /** Word k of thread th, if it was written, is in its place. */
  predicate WordInPlace(u: Setup, cells: seq<nat>, th: Thread, k: nat)
    requires |cells| == u.capacity + 1
  {
    th.offset.Some? ==>
      var offset := th.offset.value;
      && (k == 0 && offset < u.capacity ==> cells[offset] == th.call.item)
      && (0 < k <= |th.call.args| && offset + u.CountOf(th.call) <= u.capacity && offset + k < |cells| ==>
            cells[offset + k] == Encode(th.call.args[k - 1]))
  }

  predicate Written(u: Setup, cells: seq<nat>, threads: seq<Thread>)
    requires |cells| == u.capacity + 1
  {
    forall t, k | 0 <= t < |threads| && 0 <= k < threads[t].writes :: WordInPlace(u, cells, threads[t], k)
  }

  predicate Inv(u: Setup, s: State) {
    && u.Formed(s.threads)
    && |s.cells| == u.capacity + 1
    && InOrder(u, s.threads, s.order)
    && Progressing(u, s.threads)
    && Counted(u, s)
    && Written(u, s.cells, s.threads)
  }

  predicate Progressing(u: Setup, threads: seq<Thread>) {
    forall t | 0 <= t < |threads| ::
      && threads[t].writes <= u.CountOf(threads[t].call)
      && (threads[t].offset.None? ==> threads[t].writes == 0)
  }

  /** The counter is what was reserved, and does not wrap around. */
  predicate Counted(u: Setup, s: State)
    requires |s.cells| == u.capacity + 1
  {
    && s.cells[u.capacity] == Reserved(u, s.threads, s.order, |s.order|)
    && Reserved(u, s.threads, s.order, |s.order|) + Pending(u, s.threads) < UINT
  }

  predicate Init(u: Setup, s: State) {
    && u.Formed(s.threads)
    && |s.cells| == u.capacity + 1 && s.cells[u.capacity] == 0
    && s.order == []
    && (forall t | 0 <= t < |s.threads| :: s.threads[t].offset == None && s.threads[t].writes == 0)
    && Pending(u, s.threads) < UINT
  }

  lemma {:induction false} NothingReserved(u: Setup, s: State)
    requires Init(u, s)
    ensures Inv(u, s)
  {
  }

  lemma {:induction false} ReservedGrows(u: Setup, threads: seq<Thread>, order: seq<nat>, i: nat, j: nat)
    requires i <= j <= |order|
    ensures Reserved(u, threads, order, i) <= Reserved(u, threads, order, j)
    decreases j
  {
    if i < j {
      ReservedGrows(u, threads, order, i, j - 1);
    }
  }

  /** Only calls and the order matter. */
  lemma {:induction false} ReservedSame(u: Setup, a: seq<Thread>, b: seq<Thread>, p: seq<nat>, q: seq<nat>, i: nat)
    requires |a| == |b| && p <= q && i <= |p|
    requires forall t | 0 <= t < |a| :: a[t].call == b[t].call
    ensures Reserved(u, a, p, i) == Reserved(u, b, q, i)
  {
    if i > 0 {
      ReservedSame(u, a, b, p, q, i - 1);
    }
  }

  lemma {:induction false} PendingAfter(u: Setup, threads: seq<Thread>, t: nat, th: Thread)
    requires t < |threads| && threads[t].offset.None? && th.offset.Some?
    ensures Pending(u, threads[t := th]) == Pending(u, threads) - u.CountOf(threads[t].call)
    decreases |threads|
  {
    var n := |threads| - 1;
    var after := threads[t := th];
    if t < n {
      PendingAfter(u, threads[..n], t, th);
      assert after[..n] == threads[..n][t := th];
    } else {
      assert after[..n] == threads[..n];
    }
  }

  lemma {:induction false} PendingSame(u: Setup, threads: seq<Thread>, t: nat, th: Thread)
    requires t < |threads| && threads[t].offset.Some? && th.offset.Some?
    ensures Pending(u, threads[t := th]) == Pending(u, threads)
    decreases |threads|
  {
    var n := |threads| - 1;
    var after := threads[t := th];
    if t < n {
      PendingSame(u, threads[..n], t, th);
      assert after[..n] == threads[..n][t := th];
    } else {
      assert after[..n] == threads[..n];
    }
  }

  /** Reservations tile the buffer: each ends before the next begins. */
  lemma Tiled(u: Setup, threads: seq<Thread>, order: seq<nat>, i: nat, j: nat)
    requires InOrder(u, threads, order) && i < j < |order|
    ensures order[i] < |threads| && order[j] < |threads|
    ensures threads[order[i]].offset.Some? && threads[order[j]].offset.Some?
    ensures threads[order[i]].offset.value + u.CountOf(threads[order[i]].call) <= threads[order[j]].offset.value
  {
    hide InOrder, Setup.CountOf;
    OrderedAt(u, threads, order, i);
    OrderedAt(u, threads, order, j);
    ReservedGrows(u, threads, order, i + 1, j);
  }

  lemma OrderedAt(u: Setup, threads: seq<Thread>, order: seq<nat>, i: nat)
    requires InOrder(u, threads, order) && i < |order|
    ensures order[i] < |threads| && threads[order[i]].offset == Some(Reserved(u, threads, order, i))
  {
    hide Reserved;
  }

  lemma Disjoint(u: Setup, threads: seq<Thread>, order: seq<nat>, t: nat, r: nat)
    requires InOrder(u, threads, order) && t < |threads| && r < |threads| && t != r
    requires threads[t].offset.Some? && threads[r].offset.Some?
    ensures || threads[t].offset.value + u.CountOf(threads[t].call) <= threads[r].offset.value
            || threads[r].offset.value + u.CountOf(threads[r].call) <= threads[t].offset.value
  {
    hide Reserved;
    var i: nat :| i < |order| && order[i] == t;
    var j: nat :| j < |order| && order[j] == r;
    hide InOrder;
    if i < j {
      Tiled(u, threads, order, i, j);
    } else {
      Tiled(u, threads, order, j, i);
    }
  }

  /** A reservation ends within the words counted. */
  lemma EndsWithin(u: Setup, threads: seq<Thread>, order: seq<nat>, t: nat)
    requires InOrder(u, threads, order) && t < |threads| && threads[t].offset.Some?
    ensures threads[t].offset.value + u.CountOf(threads[t].call) <= Reserved(u, threads, order, |order|)
  {
    hide InOrder, Setup.CountOf;
    var i := Position(u, threads, order, t);
    OrderedAt(u, threads, order, i);
    ReservedGrows(u, threads, order, i + 1, |order|);
  }

  lemma Position(u: Setup, threads: seq<Thread>, order: seq<nat>, t: nat) returns (i: nat)
    requires InOrder(u, threads, order) && t < |threads| && threads[t].offset.Some?
    ensures i < |order| && order[i] == t
  {
    hide Reserved;
    i :| i < |order| && order[i] == t;
  }

  lemma CountIsWords(u: Setup, threads: seq<Thread>, t: nat)
    requires u.Formed(threads) && t < |threads|
    ensures u.CountOf(threads[t].call) == |threads[t].call.args| + 1
  {
    assert u.FormedCall(threads[t].call);
  }

  lemma ReserveOrder(u: Setup, s: State, t: nat)
    requires Inv(u, s) && t < |s.threads| && s.threads[t].offset.None?
    ensures var s' := Reserve(u, s, t); InOrder(u, s'.threads, s'.order) && Counted(u, s')
  {
    hide Written, Setup.Formed, Setup.CountOf, InOrder, Progressing, Reserved, Pending;
    var s' := Reserve(u, s, t);
    PendingAfter(u, s.threads, t, s'.threads[t]);
    LaterReserved(u, s, s', t);
    LaterOrder(u, s, s', t);
  }

  lemma LaterReserved(u: Setup, s: State, s': State, t: nat)
    requires |s.cells| == u.capacity + 1 && t < |s.threads| && s' == Reserve(u, s, t)
    ensures forall i: nat | i <= |s.order| :: Reserved(u, s'.threads, s'.order, i) == Reserved(u, s.threads, s.order, i)
    ensures Reserved(u, s'.threads, s'.order, |s'.order|)
            == Reserved(u, s.threads, s.order, |s.order|) + u.CountOf(s.threads[t].call)
  {
    hide Setup.CountOf;
    var n := |s.order|;
    forall i: nat | i <= n
      ensures Reserved(u, s'.threads, s'.order, i) == Reserved(u, s.threads, s.order, i)
    {
      ReservedSame(u, s.threads, s'.threads, s.order, s'.order, i);
    }
    assert Reserved(u, s'.threads, s'.order, n + 1)
           == Reserved(u, s'.threads, s'.order, n) + u.CountOf(s.threads[t].call);
  }

  lemma LaterOrder(u: Setup, s: State, s': State, t: nat)
    requires InOrder(u, s.threads, s.order) && |s.cells| == u.capacity + 1
    requires t < |s.threads| && s.threads[t].offset.None? && s' == Reserve(u, s, t)
    requires s.cells[u.capacity] == Reserved(u, s.threads, s.order, |s.order|)
    requires forall i: nat | i <= |s.order| ::
               Reserved(u, s'.threads, s'.order, i) == Reserved(u, s.threads, s.order, i)
    ensures InOrder(u, s'.threads, s'.order)
  {
    hide Reserved, Setup.CountOf;
    forall i: nat | i < |s'.order|
      ensures s'.order[i] < |s.threads| && s'.threads[s'.order[i]].offset == Some(Reserved(u, s'.threads, s'.order, i))
    {
      if i < |s.order| {
        OrderedAt(u, s.threads, s.order, i);
      }
    }
  }

  lemma ReserveWritten(u: Setup, s: State, t: nat)
    requires Inv(u, s) && t < |s.threads| && s.threads[t].offset.None?
    ensures Written(u, Reserve(u, s, t).cells, Reserve(u, s, t).threads)
  {
    hide InOrder;
    var s' := Reserve(u, s, t);
    forall r, k | 0 <= r < |s'.threads| && 0 <= k < s'.threads[r].writes
      ensures WordInPlace(u, s'.cells, s'.threads[r], k)
    {
      assert r != t;
      CountIsWords(u, s.threads, r);
      assert WordInPlace(u, s.cells, s.threads[r], k);
    }
  }

  lemma ReserveKeeps(u: Setup, s: State, t: nat)
    requires Inv(u, s) && t < |s.threads| && s.threads[t].offset.None?
    ensures Inv(u, Reserve(u, s, t))
  {
    assert s.threads[t].writes == 0;
    hide Written, InOrder, Counted, Setup.FormedCall, Setup.CountOf, Setup.Formed, Progressing;
    ReserveOrder(u, s, t);
    ReserveWritten(u, s, t);
    StillFormed(u, s.threads, t, Reserve(u, s, t).threads[t]);
  }

  lemma StillFormed(u: Setup, threads: seq<Thread>, t: nat, th: Thread)
    requires u.Formed(threads) && Progressing(u, threads) && t < |threads|
    requires th.call == threads[t].call && th.writes <= u.CountOf(th.call) && (th.offset.None? ==> th.writes == 0)
    ensures u.Formed(threads[t := th]) && Progressing(u, threads[t := th])
  {
    hide Setup.FormedCall, Setup.CountOf;
  }

  /** No write of a record touches the counter. */
  lemma CounterKept(u: Setup, s: State, t: nat)
    requires Inv(u, s) && t < |s.threads| && s.threads[t].offset.Some?
    requires s.threads[t].writes < u.CountOf(s.threads[t].call)
    ensures Write(u, s, t).cells[u.capacity] == s.cells[u.capacity]
  {
    hide InOrder, Written;
    EndsWithin(u, s.threads, s.order, t);
    CountIsWords(u, s.threads, t);
  }

  lemma WriteWritten(u: Setup, s: State, t: nat)
    requires Inv(u, s) && t < |s.threads| && s.threads[t].offset.Some?
    requires s.threads[t].writes < u.CountOf(s.threads[t].call)
    ensures Written(u, Write(u, s, t).cells, Write(u, s, t).threads)
  {
    hide InOrder, Reserved, Pending, WordInPlace, WriteCells, Setup.Formed;
    var s' := Write(u, s, t);
    forall r, k | 0 <= r < |s'.threads| && 0 <= k < s'.threads[r].writes
      ensures WordInPlace(u, s'.cells, s'.threads[r], k)
    {
      if r != t {
        assert WordInPlace(u, s.cells, s.threads[r], k);
        OtherWord(u, s, t, r, k);
      } else {
        assert k < s.threads[t].writes ==> WordInPlace(u, s.cells, s.threads[t], k);
        OwnWord(u, s, t, k);
      }
    }
  }

  lemma OwnWord(u: Setup, s: State, t: nat, k: nat)
    requires Inv(u, s) && t < |s.threads| && s.threads[t].offset.Some?
    requires s.threads[t].writes < u.CountOf(s.threads[t].call) && k <= s.threads[t].writes
    requires k < s.threads[t].writes ==> WordInPlace(u, s.cells, s.threads[t], k)
    ensures WordInPlace(u, Write(u, s, t).cells, Write(u, s, t).threads[t], k)
  {
    hide InOrder, Written, Pending;
    EndsWithin(u, s.threads, s.order, t);
    CountIsWords(u, s.threads, t);
    hide Setup.Formed, Setup.CountOf, Reserved;
  }

  lemma OtherWord(u: Setup, s: State, t: nat, r: nat, k: nat)
    requires Inv(u, s) && t < |s.threads| && r < |s.threads| && r != t && s.threads[t].offset.Some?
    requires s.threads[t].writes < u.CountOf(s.threads[t].call) && k < s.threads[r].writes
    requires WordInPlace(u, s.cells, s.threads[r], k)
    ensures WordInPlace(u, Write(u, s, t).cells, s.threads[r], k)
  {
    hide InOrder, Written, Pending;
    if s.threads[r].offset.Some? {
      Disjoint(u, s.threads, s.order, t, r);
      EndsWithin(u, s.threads, s.order, t);
      CountIsWords(u, s.threads, t);
      CountIsWords(u, s.threads, r);
    }
    hide Setup.Formed, Setup.CountOf, Reserved;
  }

  lemma WriteKeeps(u: Setup, s: State, t: nat)
    requires Inv(u, s) && t < |s.threads| && s.threads[t].offset.Some?
    requires s.threads[t].writes < u.CountOf(s.threads[t].call)
    ensures Inv(u, Write(u, s, t))
  {
    hide Written, InOrder, Counted, WriteCells, Setup.FormedCall, Setup.CountOf, Setup.Formed, Progressing;
    WriteWritten(u, s, t);
    WriteOrder(u, s, t);
    StillFormed(u, s.threads, t, Write(u, s, t).threads[t]);
  }

  lemma WriteOrder(u: Setup, s: State, t: nat)
    requires Inv(u, s) && t < |s.threads| && s.threads[t].offset.Some?
    requires s.threads[t].writes < u.CountOf(s.threads[t].call)
    ensures InOrder(u, Write(u, s, t).threads, s.order) && Counted(u, Write(u, s, t))
  {
    var s' := Write(u, s, t);
    CounterKept(u, s, t);
    PendingSame(u, s.threads, t, s'.threads[t]);
    SameReserved(u, s.threads, s'.threads, s.order);
    SameOrder(u, s.threads, s'.threads, s.order);
    hide Written, WriteCells, Reserved, Pending, InOrder, Setup.Formed, Setup.CountOf, Progressing;
  }

  lemma SameReserved(u: Setup, a: seq<Thread>, b: seq<Thread>, order: seq<nat>)
    requires |a| == |b| && forall t | 0 <= t < |a| :: a[t].call == b[t].call
    ensures forall i: nat | i <= |order| :: Reserved(u, b, order, i) == Reserved(u, a, order, i)
  {
    forall i: nat | i <= |order|
      ensures Reserved(u, b, order, i) == Reserved(u, a, order, i)
    {
      ReservedSame(u, a, b, order, order, i);
    }
  }

  lemma SameOrder(u: Setup, a: seq<Thread>, b: seq<Thread>, order: seq<nat>)
    requires |a| == |b| && InOrder(u, a, order) && forall t | 0 <= t < |a| :: a[t].offset == b[t].offset
    requires forall i: nat | i <= |order| :: Reserved(u, b, order, i) == Reserved(u, a, order, i)
    ensures InOrder(u, b, order)
  {
    hide Reserved, Setup.CountOf;
    forall i: nat | i < |order|
      ensures b[order[i]].offset == Some(Reserved(u, b, order, i))
    {
      OrderedAt(u, a, order, i);
    }
  }

  lemma StepKeeps(u: Setup, s: State, s': State, t: nat)
    requires Inv(u, s) && Next(u, s, s', t)
    ensures Inv(u, s')
  {
    hide Inv;
    if s.threads[t].offset.None? {
      ReserveKeeps(u, s, t);
    } else {
      WriteKeeps(u, s, t);
    }
  }

  // ----- Whole runs -----

  /** A run from a reset buffer: any interleaving of the threads. */
  predicate Run(u: Setup, states: seq<State>, steps: seq<nat>) {
    && |states| == |steps| + 1
    && Init(u, states[0])
    && forall k | 0 <= k < |steps| :: Next(u, states[k], states[k + 1], steps[k])
  }

  lemma {:induction false} RunKeeps(u: Setup, states: seq<State>, steps: seq<nat>, k: nat)
    requires Run(u, states, steps) && k <= |steps|
    ensures Inv(u, states[k])
  {
    hide Inv, Next, Init;
    if k == 0 {
      NothingReserved(u, states[0]);
    } else {
      RunKeeps(u, states, steps, k - 1);
      StepKeeps(u, states[k - 1], states[k], steps[k - 1]);
    }
  }

  /** All threads are finished. */
  predicate Done(u: Setup, s: State) {
    forall t | 0 <= t < |s.threads| ::
      s.threads[t].offset.Some? && s.threads[t].writes == u.CountOf(s.threads[t].call)
  }

  // ----- The host -----

  datatype Printed = Printed(item: nat, shown: seq<Shown>)

  /** What a log call is meant to print. */
  function Record(u: Setup, th: Thread): Printed
    requires u.FormedCall(th.call)
  {
    var slots := u.items[th.call.item];
    Printed(th.call.item, Given(slots, |slots|, th.call.args))
  }

  predicate FitsIn(u: Setup, threads: seq<Thread>, order: seq<nat>, i: nat)
    requires i < |order|
  {
    Reserved(u, threads, order, i + 1) <= u.capacity
  }

  /** The records of the first i reservations that fit into the buffer. */
  function Fitting(u: Setup, threads: seq<Thread>, order: seq<nat>, i: nat): seq<Printed>
    requires i <= |order|
  {
    if i == 0 then [] else
      Fitting(u, threads, order, i - 1) +
      if FitsIn(u, threads, order, i - 1) && order[i - 1] < |threads| && u.FormedCall(threads[order[i - 1]].call)
      then [Record(u, threads[order[i - 1]])] else []
  }

  lemma {:induction false} NothingFits(u: Setup, threads: seq<Thread>, order: seq<nat>, i: nat, n: nat)
    requires i <= n <= |order| && forall k | i <= k < n :: !FitsIn(u, threads, order, k)
    ensures Fitting(u, threads, order, n) == Fitting(u, threads, order, i)
    decreases n
  {
    if i < n {
      NothingFits(u, threads, order, i, n - 1);
    }
  }

  lemma OneMore(u: Setup, threads: seq<Thread>, order: seq<nat>, i: nat)
    requires InOrder(u, threads, order) && i < |order|
    ensures order[i] < |threads| && threads[order[i]].offset == Some(Reserved(u, threads, order, i))
    ensures Reserved(u, threads, order, i + 1) == Reserved(u, threads, order, i) + u.CountOf(threads[order[i]].call)
  {
    hide Setup.CountOf;
    OrderedAt(u, threads, order, i);
  }

  /** What the host finds at the start of a record. */
  lemma RecordRead(u: Setup, s: State, i: nat)
    requires Inv(u, s) && Done(u, s) && i < |s.order|
    ensures s.order[i] < |s.threads| && u.FormedCall(s.threads[s.order[i]].call)
    ensures var offset := Reserved(u, s.threads, s.order, i);
            var c := s.threads[s.order[i]].call;
            var slots := u.items[c.item];
            && (offset < u.capacity ==> s.cells[offset] == c.item)
            && (FitsIn(u, s.threads, s.order, i) ==>
                  && offset + Count(slots) < |s.cells|
                  && Printed(c.item, DecodeItem(slots, |slots|, s.cells[offset..])) == Record(u, s.threads[s.order[i]]))
  {
    hide InOrder, Pending, Reserved, DecodeItem, Given, WordInPlace, Index, ArgumentsFit;
    OneMore(u, s.threads, s.order, i);
    var t := s.order[i];
    var th := s.threads[t];
    CountIsWords(u, s.threads, t);
    assert u.FormedCall(th.call);
    assert forall k | 0 <= k < th.writes :: WordInPlace(u, s.cells, th, k);
    hide Inv, Done;
    ThreadRead(u, s.cells, th);
  }

  lemma ThreadRead(u: Setup, cells: seq<nat>, th: Thread)
    requires |cells| == u.capacity + 1 && u.FormedCall(th.call)
    requires th.offset.Some? && th.writes == u.CountOf(th.call) == |th.call.args| + 1
    requires forall k | 0 <= k < th.writes :: WordInPlace(u, cells, th, k)
    ensures var offset := th.offset.value;
            var slots := u.items[th.call.item];
            && (offset < u.capacity ==> cells[offset] == th.call.item)
            && (offset + u.CountOf(th.call) <= u.capacity ==>
                  && offset + Count(slots) < |cells|
                  && DecodeItem(slots, |slots|, cells[offset..]) == Given(slots, |slots|, th.call.args))
  {
    hide DecodeItem, Given, Index, ArgumentsFit;
    assert WordInPlace(u, cells, th, 0);
    var offset := th.offset.value;
    if offset + u.CountOf(th.call) <= u.capacity {
      forall k: nat | k < |th.call.args|
        ensures cells[offset..][k + 1] == Encode(th.call.args[k])
      {
        assert WordInPlace(u, cells, th, k + 1);
      }
      var slots := u.items[th.call.item];
      ItemIsDecoded(slots, |slots|, th.call.args, cells[offset..]);
    }
  }

  /**
   * `print` of retrieve(): decodes exactly the records that fit, in the order of their
   * reservations and with the arguments they were logged with.
   */
  method Print(u: Setup, host: seq<nat>, ghost s: State) returns (printed: seq<Printed>, truncated: bool)
    requires Inv(u, s) && Done(u, s) && host == s.cells
    ensures printed == Fitting(u, s.threads, s.order, |s.order|)
    ensures truncated <==> host[u.capacity] > u.capacity
  {
    hide Inv, Done, Fitting, Reserved, Record, DecodeItem, FitsIn;
    Facts(u, s);
    var size := if host[u.capacity] < u.capacity then host[u.capacity] else u.capacity;
    var offset := 0;
    truncated := host[u.capacity] > size;
    printed := [];
    ghost var i := 0;
    Start(u, s);
    while offset < size
      invariant i <= |s.order| && offset == Reserved(u, s.threads, s.order, i)
      invariant printed == Fitting(u, s.threads, s.order, i)
      invariant truncated <==> host[u.capacity] > u.capacity
      decreases |s.order| - i
    {
      RecordRead(u, s, i);
      Advance(u, s, i);
      var data := host[offset..];
      var item := data[0];
      offset := offset + Count(u.items[item]);
      if offset > size {
        truncated := true;
      } else {
        printed := printed + [Printed(item, DecodeItem(u.items[item], |u.items[item]|, data))];
      }
      i := i + 1;
    }
    Finish(u, s, i);
  }

  lemma Facts(u: Setup, s: State)
    requires Inv(u, s)
    ensures |s.cells| == u.capacity + 1 && s.cells[u.capacity] == Reserved(u, s.threads, s.order, |s.order|) < UINT
    ensures InOrder(u, s.threads, s.order)
  {
  }

  lemma Start(u: Setup, s: State)
    ensures Reserved(u, s.threads, s.order, 0) == 0 && Fitting(u, s.threads, s.order, 0) == []
  {
  }

  lemma Advance(u: Setup, s: State, i: nat)
    requires Inv(u, s) && i < |s.order| && s.order[i] < |s.threads| && u.FormedCall(s.threads[s.order[i]].call)
    ensures var c := s.threads[s.order[i]].call;
            Reserved(u, s.threads, s.order, i + 1) == Reserved(u, s.threads, s.order, i) + Count(u.items[c.item])
    ensures Reserved(u, s.threads, s.order, i + 1) <= Reserved(u, s.threads, s.order, |s.order|)
    ensures FitsIn(u, s.threads, s.order, i) <==> Reserved(u, s.threads, s.order, i + 1) <= u.capacity
    ensures Fitting(u, s.threads, s.order, i + 1) == Fitting(u, s.threads, s.order, i) +
            if FitsIn(u, s.threads, s.order, i) then [Record(u, s.threads[s.order[i]])] else []
  {
    hide Inv, Record, Count, ArgumentsFit;
    ReservedGrows(u, s.threads, s.order, i + 1, |s.order|);
  }

  lemma LargerReserved(u: Setup, s: State, i: nat, k: nat)
    requires Inv(u, s) && i <= k < |s.order|
    ensures Reserved(u, s.threads, s.order, i) < Reserved(u, s.threads, s.order, k + 1)
    ensures Reserved(u, s.threads, s.order, k + 1) <= Reserved(u, s.threads, s.order, |s.order|)
  {
    hide InOrder, Written, Counted, Progressing, Reserved, Index, ArgumentsFit;
    ReservedGrows(u, s.threads, s.order, i, k);
    ReservedGrows(u, s.threads, s.order, k + 1, |s.order|);
    OneMore(u, s.threads, s.order, k);
    CountIsWords(u, s.threads, s.order[k]);
  }

  lemma Finish(u: Setup, s: State, i: nat)
    requires Inv(u, s) && i <= |s.order|
    requires Reserved(u, s.threads, s.order, i) >= u.capacity
             || Reserved(u, s.threads, s.order, i) >= Reserved(u, s.threads, s.order, |s.order|)
    ensures Fitting(u, s.threads, s.order, |s.order|) == Fitting(u, s.threads, s.order, i)
  {
    hide Inv, Reserved, Fitting;
    forall k: nat | i <= k < |s.order|
      ensures !FitsIn(u, s.threads, s.order, k)
    {
      LargerReserved(u, s, i, k);
    }
    NothingFits(u, s.threads, s.order, i, |s.order|);
  }

  /** The records that fit are those of the first m reservations, as many as the buffer has words for. */
  lemma {:induction false} FittingIsPrefix(u: Setup, s: State, i: nat) returns (m: nat)
    requires Inv(u, s) && i <= |s.order|
    ensures m <= i && Reserved(u, s.threads, s.order, m) <= u.capacity
    ensures m < i ==> Reserved(u, s.threads, s.order, m + 1) > u.capacity
    ensures |Fitting(u, s.threads, s.order, i)| == m
    ensures forall k | 0 <= k < m ::
              && s.order[k] < |s.threads| && u.FormedCall(s.threads[s.order[k]].call)
              && Fitting(u, s.threads, s.order, i)[k] == Record(u, s.threads[s.order[k]])
  {
    hide Inv, Record, ArgumentsFit;
    if i == 0 {
      m := 0;
    } else {
      m := FittingIsPrefix(u, s, i - 1);
      Ordered(u, s, i - 1);
      if m < i - 1 {
        ReservedGrows(u, s.threads, s.order, m + 1, i);
      } else if FitsIn(u, s.threads, s.order, i - 1) {
        m := i;
      }
    }
  }

  lemma Ordered(u: Setup, s: State, i: nat)
    requires Inv(u, s) && i < |s.order|
    ensures s.order[i] < |s.threads| && u.FormedCall(s.threads[s.order[i]].call)
  {
  }

  /**
   * The whole protocol: reset, any interleaving of any log calls until all threads are
   * finished, and the host loop on the buffer that is left.
   */
  method PrintRun(u: Setup, host: seq<nat>, ghost states: seq<State>, ghost steps: seq<nat>)
    returns (printed: seq<Printed>, truncated: bool)
    requires Run(u, states, steps) && Done(u, states[|steps|]) && host == states[|steps|].cells
    ensures |host| == u.capacity + 1
    ensures var s := states[|steps|];
            && EachOnce(s.order, |s.threads|)
            && printed == Fitting(u, s.threads, s.order, |s.order|)
            && (!truncated ==> |printed| == |s.threads|)
            && host[u.capacity] == Reserved(u, s.threads, s.order, |s.order|)
            && (truncated <==> host[u.capacity] > u.capacity)
  {
    hide Run, Inv, Done, Fitting, Reserved;
    LastState(u, states, steps);
    RunKeeps(u, states, steps, |steps|);
    Facts(u, states[|steps|]);
    AllReserved(u, states[|steps|]);
    ghost var s := states[|steps|];
    OrderLength(s.order, |s.threads|);
    hide EachOnce;
    ghost var m := FittingIsPrefix(u, s, |s.order|);
    ReservedGrows(u, s.threads, s.order, if m < |s.order| then m + 1 else m, |s.order|);
    printed, truncated := Print(u, host, s);
  }

  /** All threads, each once. */
  predicate EachOnce(order: seq<nat>, n: nat) {
    && (forall t | 0 <= t < n :: t in order)
    && (forall i | 0 <= i < |order| :: order[i] < n)
    && forall i, j | 0 <= i < j < |order| :: order[i] != order[j]
  }

  lemma {:induction false} OrderLength(order: seq<nat>, n: nat)
    requires EachOnce(order, n)
    ensures |order| == n
    decreases n
  {
    if order == [] {
      assert n > 0 ==> 0 in order;
    } else {
      assert order[0] < n;
      assert n - 1 in order;
      var i: nat :| i < |order| && order[i] == n - 1;
      var rest := order[..i] + order[i + 1..];
      forall t | 0 <= t < n - 1 ensures t in rest {
        assert t in order;
        var k: nat :| k < |order| && order[k] == t;
        assert rest[if k < i then k else k - 1] == t;
      }
      OrderLength(rest, n - 1);
    }
  }

  lemma AllReserved(u: Setup, s: State)
    requires Inv(u, s) && Done(u, s)
    ensures EachOnce(s.order, |s.threads|)
  {
    hide Written, Counted, Progressing, Reserved;
  }

  lemma LastState(u: Setup, states: seq<State>, steps: seq<nat>)
    requires Run(u, states, steps)
    ensures |states| == |steps| + 1
  {
  }
}
