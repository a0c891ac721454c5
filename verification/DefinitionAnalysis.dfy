/**
 * src/compile/definition_analysis.{h,cpp}: a one-pass walk with a stack of scope
 * records decides which scopes have to declare each local variable.
 *
 * A scope is identified with its path from the function body: the positions
 * (statement index, scope of that statement) that lead to it. Each position
 * holds its own ScopeStmt object, so paths stand for the scope pointers.
 */
module DefinitionAnalysis {
  import opened Ast

  type Step = (nat, nat)
  type Path = seq<Step>

  /** Variables are compared by uid (src/ast/variable.h:64). */
  datatype ScopeRecord = ScopeRecord(scope: Path, variables: set<nat>, propagated: map<nat, set<Path>>) {

    function Reference(v: nat): ScopeRecord {
      this.(variables := variables + {v})
    }

    function Propagate(v: nat, child: Path): ScopeRecord {
      this.(propagated := propagated[v := Known(propagated, v) + {child}])
    }

    function Finalize(): ScopeRecord {
      this.(variables := variables + set v | v in propagated && |propagated[v]| > 1)
    }

    /** `Reference` for every variable of a set. */
    function ReferenceAll(vs: set<nat>): ScopeRecord {
      this.(variables := variables + vs)
    }

    /** `Propagate` for every variable of a set. */
    function PropagateAll(vs: set<nat>, child: Path): ScopeRecord {
      this.(propagated := Grow(propagated, vs, child))
    }
  }

  function Grow(m: map<nat, set<Path>>, vs: set<nat>, child: Path): (r: map<nat, set<Path>>)
    ensures r.Keys == m.Keys + vs
    ensures forall v | v in r ::
              r[v] == if v in vs then Known(m, v) + {child} else Known(m, v)
  {
    map v | v in m.Keys + vs :: if v in vs then Known(m, v) + {child} else Known(m, v)
  }

  function Known(m: map<nat, set<Path>>, v: nat): set<Path> {
    if v in m then m[v] else {}
  }

  lemma GrowTwice(m: map<nat, set<Path>>, a: set<nat>, b: set<nat>, child: Path)
    ensures Grow(Grow(m, a, child), b, child) == Grow(m, a + b, child)
  {
    hide Grow;
    var x := Grow(Grow(m, a, child), b, child);
    var y := Grow(m, a + b, child);
    forall v | v in x
      ensures x[v] == y[v]
    {
      if v in a && v in b {
        assert Known(m, v) + {child} + {child} == Known(m, v) + {child};
      }
    }
  }

  lemma GrowNone(m: map<nat, set<Path>>, child: Path)
    ensures Grow(m, {}, child) == m
  {
    hide Grow;
    var x := Grow(m, {}, child);
    forall v | v in x
      ensures x[v] == m[v]
    {
    }
  }

  // ----- The recursive specification: what each scope references -----

  predicate Tracked(v: Variable, arguments: set<nat>) {
    v.tag.Local? && v.uid !in arguments
  }

  /** The tracked variables an expression refers to. */
  function Refs(e: Expr, arguments: set<nat>): set<nat>
    decreases ExprSize(e), 0
  {
    if e.Ref? then
      if Tracked(e.variable, arguments) then {e.variable.uid} else {}
    else
      RefsUpTo(e, |Operands(e)|, arguments)
  }

  function RefsUpTo(e: Expr, n: nat, arguments: set<nat>): set<nat>
    requires n <= |Operands(e)|
    decreases ExprSize(e), 0, n
  {
    if n == 0 then {} else
      OperandSmaller(e, n - 1);
      RefsUpTo(e, n - 1, arguments) + Refs(Operands(e)[n - 1], arguments)
  }

  function RefsOf(es: seq<Expr>, arguments: set<nat>): set<nat> {
    if es == [] then {} else RefsOf(es[..|es| - 1], arguments) + Refs(es[|es| - 1], arguments)
  }

  /** Referenced by the statements of a scope themselves, outside nested scopes. */
  function Direct(body: seq<Stmt>, arguments: set<nat>): set<nat> {
    DirectUpTo(body, |body|, arguments)
  }

  function DirectUpTo(body: seq<Stmt>, n: nat, arguments: set<nat>): set<nat>
    requires n <= |body|
    decreases n
  {
    if n == 0 then {} else DirectUpTo(body, n - 1, arguments) + RefsOf(Exprs(body[n - 1]), arguments)
  }

  /** A position of a nested scope. */
  predicate IsStep(body: seq<Stmt>, c: Step) {
    c.0 < |body| && c.1 < |Bodies(body[c.0])|
  }

  function Nested(body: seq<Stmt>, c: Step): (b: seq<Stmt>)
    requires IsStep(body, c)
    ensures BodySize(b) < BodySize(body)
  {
    StmtInBody(body, c.0);
    NestedSmaller(body[c.0], c.1);
    Bodies(body[c.0])[c.1]
  }

  /** Whether a path leads to a scope, and which. */
  predicate IsPath(body: seq<Stmt>, p: Path) {
    p != [] ==> IsStep(body, p[0]) && IsPath(Nested(body, p[0]), p[1..])
  }

  function At(body: seq<Stmt>, p: Path): seq<Stmt>
    requires IsPath(body, p)
  {
    if p == [] then body else At(Nested(body, p[0]), p[1..])
  }

  /** v is referenced directly in the scope at p. */
  predicate ReferencedAt(body: seq<Stmt>, p: Path, v: nat, arguments: set<nat>) {
    IsPath(body, p) && v in Direct(At(body, p), arguments)
  }

  /** Everything referenced in a scope or in a scope nested in it. */
  function All(body: seq<Stmt>, arguments: set<nat>): set<nat>
    decreases BodySize(body)
  {
    Direct(body, arguments) + set i: nat, b: nat, v |
      i < |body| && b < |Bodies(body[i])| && v in All(Nested(body, (i, b)), arguments) :: v
  }

  /** v is referenced within the nested scope at c. */
  predicate Through(body: seq<Stmt>, c: Step, v: nat, arguments: set<nat>) {
    IsStep(body, c) && v in All(Nested(body, c), arguments)
  }

  /** What a scope has to declare: what it references directly or through two nested scopes. */
  ghost predicate Lists(body: seq<Stmt>, v: nat, arguments: set<nat>) {
    || v in Direct(body, arguments)
    || exists c, d :: c != d && Through(body, c, v, arguments) && Through(body, d, v, arguments)
  }

  ghost predicate ListedAt(body: seq<Stmt>, p: Path, v: nat, arguments: set<nat>) {
    IsPath(body, p) && Lists(At(body, p), v, arguments)
  }

  ghost function Listed(body: seq<Stmt>, arguments: set<nat>): set<nat> {
    set v | v in All(body, arguments) && Lists(body, v, arguments)
  }

  // ----- What a visit does to the stack -----

  type Stack = seq<ScopeRecord>

  /** References inside `child`, a scope nested in the one on top of the stack. */
  function FromBelow(stack: Stack, child: Path, vs: set<nat>): (r: Stack)
    ensures |r| == |stack| && (r != [] ==> r[|r| - 1].scope == stack[|r| - 1].scope)
  {
    if stack == [] then [] else
      var n := |stack| - 1;
      FromBelow(stack[..n], stack[n].scope, vs) + [stack[n].PropagateAll(vs, child)]
  }

  /** References in the scope on top of the stack. */
  function FromTop(stack: Stack, vs: set<nat>): (r: Stack)
    requires |stack| > 0
    ensures |r| == |stack| && r[|r| - 1].scope == stack[|r| - 1].scope
  {
    var n := |stack| - 1;
    FromBelow(stack[..n], stack[n].scope, vs) + [stack[n].ReferenceAll(vs)]
  }

  /** The first b nested scopes of statement i of the scope on top of the stack. */
  function AfterBodies(stack: Stack, body: seq<Stmt>, i: nat, b: nat, arguments: set<nat>): (r: Stack)
    requires |stack| > 0 && i < |body| && b <= |Bodies(body[i])|
    ensures |r| == |stack| && r[|r| - 1].scope == stack[|r| - 1].scope
    decreases b
  {
    if b == 0 then stack else
      FromBelow(AfterBodies(stack, body, i, b - 1, arguments),
                stack[|stack| - 1].scope + [(i, b - 1)], All(Nested(body, (i, b - 1)), arguments))
  }

  function AfterStmt(stack: Stack, body: seq<Stmt>, i: nat, arguments: set<nat>): (r: Stack)
    requires |stack| > 0 && i < |body|
    ensures |r| == |stack| && r[|r| - 1].scope == stack[|r| - 1].scope
  {
    AfterBodies(FromTop(stack, RefsOf(Exprs(body[i]), arguments)), body, i, |Bodies(body[i])|, arguments)
  }

  /** The first i statements of the scope on top of the stack. */
  function AfterStmts(stack: Stack, body: seq<Stmt>, i: nat, arguments: set<nat>): (r: Stack)
    requires |stack| > 0 && i <= |body|
    ensures |r| == |stack| && r[|r| - 1].scope == stack[|r| - 1].scope
    decreases i
  {
    if i == 0 then stack else AfterStmt(AfterStmts(stack, body, i - 1, arguments), body, i - 1, arguments)
  }

  lemma {:induction false} FromBelowTwice(stack: Stack, child: Path, a: set<nat>, b: set<nat>)
    ensures FromBelow(FromBelow(stack, child, a), child, b) == FromBelow(stack, child, a + b)
  {
    hide Grow;
    if stack != [] {
      var n := |stack| - 1;
      FromBelowTwice(stack[..n], stack[n].scope, a, b);
      assert FromBelow(stack, child, a)[..n] == FromBelow(stack[..n], stack[n].scope, a);
      GrowTwice(stack[n].propagated, a, b, child);
    }
  }

  lemma FromTopTwice(stack: Stack, a: set<nat>, b: set<nat>)
    requires |stack| > 0
    ensures FromTop(FromTop(stack, a), b) == FromTop(stack, a + b)
  {
    var n := |stack| - 1;
    var lower := FromBelow(stack[..n], stack[n].scope, a);
    assert FromTop(stack, a)[..n] == lower;
    FromBelowTwice(stack[..n], stack[n].scope, a, b);
    assert stack[n].variables + a + b == stack[n].variables + (a + b);
  }

  lemma {:induction false} NothingBelow(stack: Stack, child: Path)
    ensures FromBelow(stack, child, {}) == stack
  {
    hide Grow;
    if stack != [] {
      var n := |stack| - 1;
      NothingBelow(stack[..n], stack[n].scope);
      GrowNone(stack[n].propagated, child);
    }
  }

  lemma NothingFromTop(stack: Stack)
    requires |stack| > 0
    ensures FromTop(stack, {}) == stack
  {
    var n := |stack| - 1;
    NothingBelow(stack[..n], stack[n].scope);
    assert stack[n].ReferenceAll({}) == stack[n];
  }

  lemma PropagateOne(r: ScopeRecord, v: nat, child: Path)
    ensures r.Propagate(v, child) == r.PropagateAll({v}, child)
  {
    var x := r.Propagate(v, child).propagated;
    var y := r.PropagateAll({v}, child).propagated;
    forall w | w in x
      ensures x[w] == y[w]
    {
    }
    assert x == y;
  }

  lemma PropagateStep(stack: Stack, k: nat, child: Path, v: nat)
    requires k < |stack|
    ensures var r := stack[k].Propagate(v, child);
            && FromBelow(stack[..k + 1], child, {v}) + stack[k + 1..] ==
               FromBelow(stack[k := r][..k], r.scope, {v}) + stack[k := r][k..]
  {
    PropagateOne(stack[k], v, child);
    hide Grow;
    var r := stack[k].Propagate(v, child);
    assert stack[..k + 1][..k] == stack[..k] == stack[k := r][..k];
    assert stack[k := r][k..] == [r] + stack[k + 1..];
    var lower := FromBelow(stack[..k], r.scope, {v});
    assert FromBelow(stack[..k + 1], child, {v}) == lower + [r];
    assert lower + [r] + stack[k + 1..] == lower + ([r] + stack[k + 1..]);
  }

  lemma NothingLeft(stack: Stack, child: Path, v: nat)
    ensures FromBelow(stack[..0], child, {v}) + stack[0..] == stack
  {
  }

  // ----- What a visit does to the table -----

  /** q is the scope at `path`, of body `body`, or is nested in it. */
  predicate Within(body: seq<Stmt>, path: Path, q: Path) {
    path <= q && IsPath(body, q[|path|..])
  }

  ghost function ListedWithin(body: seq<Stmt>, path: Path, q: Path, arguments: set<nat>): set<nat>
    requires Within(body, path, q)
  {
    Listed(At(body, q[|path|..]), arguments)
  }

  /** q is nested in the scope at `path`, within one of the positions `done`. */
  predicate WithinSteps(body: seq<Stmt>, path: Path, q: Path, done: set<Step>) {
    Within(body, path, q) && |path| < |q| && q[|path|] in done
  }

  /** One entry was added for each scope within the positions `done` of `body`; old entries stay. */
  ghost predicate Added(
    before: map<Path, set<nat>>, after: map<Path, set<nat>>,
    body: seq<Stmt>, path: Path, done: set<Step>, arguments: set<nat>)
  {
    forall q ::
      && (q in after <==> q in before || WithinSteps(body, path, q, done))
      && (q in after ==> after[q] == if q in before then before[q] else ListedWithin(body, path, q, arguments))
  }

  /** One entry was added for `body` and one for each scope nested in it; old entries stay. */
  ghost predicate AddedAll(
    before: map<Path, set<nat>>, after: map<Path, set<nat>>,
    body: seq<Stmt>, path: Path, arguments: set<nat>)
  {
    forall q ::
      && (q in after <==> q in before || Within(body, path, q))
      && (q in after ==> after[q] == if q in before then before[q] else ListedWithin(body, path, q, arguments))
  }

  lemma WithinNested(body: seq<Stmt>, path: Path, c: Step, q: Path)
    requires IsStep(body, c)
    ensures Within(Nested(body, c), path + [c], q)
            <==> Within(body, path, q) && |path| < |q| && q[|path|] == c
    ensures Within(Nested(body, c), path + [c], q) ==>
              At(body, q[|path|..]) == At(Nested(body, c), q[|path| + 1..])
  {
    if path <= q && |path| < |q| && q[|path|] == c {
      assert q == q[..|path|] + q[|path|..];
      assert path + [c] <= q;
      assert q[|path|..][1..] == q[|path| + 1..];
    }
  }

  lemma NestedAdded(
    before: map<Path, set<nat>>, after: map<Path, set<nat>>,
    body: seq<Stmt>, path: Path, c: Step, arguments: set<nat>)
    requires IsStep(body, c)
    requires AddedAll(before, after, Nested(body, c), path + [c], arguments)
    ensures Added(before, after, body, path, {c}, arguments)
  {
    hide Within, ListedWithin, Nested;
    forall q
      ensures q in after <==> q in before || WithinSteps(body, path, q, {c})
      ensures q in after ==> after[q] == if q in before then before[q] else ListedWithin(body, path, q, arguments)
    {
      NestedEntry(body, path, c, q, arguments);
    }
  }

  lemma NestedEntry(body: seq<Stmt>, path: Path, c: Step, q: Path, arguments: set<nat>)
    requires IsStep(body, c)
    ensures Within(Nested(body, c), path + [c], q) <==> WithinSteps(body, path, q, {c})
    ensures WithinSteps(body, path, q, {c}) ==> Within(body, path, q)
    ensures WithinSteps(body, path, q, {c}) ==>
              ListedWithin(Nested(body, c), path + [c], q, arguments) == ListedWithin(body, path, q, arguments)
  {
    hide At, IsPath, Nested, Listed;
    WithinNested(body, path, c, q);
  }

  lemma AddedTwice(
    before: map<Path, set<nat>>, mid: map<Path, set<nat>>, after: map<Path, set<nat>>,
    body: seq<Stmt>, path: Path, first: set<Step>, second: set<Step>, arguments: set<nat>)
    requires Added(before, mid, body, path, first, arguments)
    requires Added(mid, after, body, path, second, arguments)
    ensures Added(before, after, body, path, first + second, arguments)
  {
    hide Within;
    forall q
      ensures q in after <==> q in before || WithinSteps(body, path, q, first + second)
      ensures q in after ==> after[q] == if q in before then before[q] else ListedWithin(body, path, q, arguments)
    {
    }
  }

  lemma NothingAdded(table: map<Path, set<nat>>, body: seq<Stmt>, path: Path, i: nat, arguments: set<nat>)
    ensures Added(table, table, body, path, StepsOf(i, 0), arguments)
  {
  }

  /** The last entry is the scope's own, unless the table has it already. */
  lemma SelfAdded(
    before: map<Path, set<nat>>, mid: map<Path, set<nat>>, after: map<Path, set<nat>>,
    body: seq<Stmt>, path: Path, arguments: set<nat>)
    requires Added(before, mid, body, path, StepsBefore(body, |body|, 0), arguments)
    requires after == if path in mid then mid else mid[path := Listed(body, arguments)]
    ensures AddedAll(before, after, body, path, arguments)
  {
    hide Listed, StepsBefore;
    EveryStepBefore(body);
    var all := StepsBefore(body, |body|, 0);
    assert path[|path|..] == [];
    forall q: Path
      ensures Within(body, path, q) <==> WithinSteps(body, path, q, all) || q == path
    {
      if Within(body, path, q) && q != path {
        assert q == q[..|path|] + q[|path|..];
      }
    }
  }

  // ----- The record of one scope -----

  /** The record of a scope after its own statements referred to `direct` and the nested scopes `done` were visited. */
  ghost predicate IsRecord(
      r: ScopeRecord, body: seq<Stmt>, path: Path, direct: set<nat>, done: set<Step>, arguments: set<nat>) {
    && r.scope == path
    && r.variables == direct
    && (forall v :: v in r.propagated ==> r.propagated[v] != {})
    && forall v, p :: p in Known(r.propagated, v) <==> IsChildPath(body, path, done, v, p, arguments)
  }

  /** p is one of the nested scopes `done`, and v is referenced within it. */
  predicate IsChildPath(body: seq<Stmt>, path: Path, done: set<Step>, v: nat, p: Path, arguments: set<nat>) {
    |p| == |path| + 1 && p[..|path|] == path && p[|path|] in done && Through(body, p[|path|], v, arguments)
  }

  lemma RecordReference(
      r: ScopeRecord, body: seq<Stmt>, path: Path, direct: set<nat>, done: set<Step>, vs: set<nat>, arguments: set<nat>)
    requires IsRecord(r, body, path, direct, done, arguments)
    ensures IsRecord(r.ReferenceAll(vs), body, path, direct + vs, done, arguments)
  {
  }

  lemma RecordPropagate(
      r: ScopeRecord, body: seq<Stmt>, path: Path, direct: set<nat>, done: set<Step>, c: Step, arguments: set<nat>)
    requires IsRecord(r, body, path, direct, done, arguments)
    requires IsStep(body, c)
    ensures var grown := r.PropagateAll(All(Nested(body, c), arguments), path + [c]);
            IsRecord(grown, body, path, direct, done + {c}, arguments)
  {
    var vs := All(Nested(body, c), arguments);
    hide All, Nested;
    var s := r.PropagateAll(vs, path + [c]);
    GrownPaths(r.propagated, vs, path + [c]);
    hide Grow, Known, Through;
    forall v, p
      ensures p in Known(s.propagated, v) <==> IsChildPath(body, path, done + {c}, v, p, arguments)
    {
      OneMoreChild(body, path, done, c, v, p, arguments);
    }
  }

  lemma GrownPaths(m: map<nat, set<Path>>, vs: set<nat>, child: Path)
    ensures var grown := Grow(m, vs, child);
            && (forall v, p :: p in Known(grown, v) <==> p in Known(m, v) || (v in vs && p == child))
            && ((forall v :: v in m ==> m[v] != {}) ==> forall v :: v in grown ==> grown[v] != {})
  {
    hide Grow;
  }

  lemma OneMoreChild(body: seq<Stmt>, path: Path, done: set<Step>, c: Step, v: nat, p: Path, arguments: set<nat>)
    requires IsStep(body, c)
    ensures IsChildPath(body, path, done + {c}, v, p, arguments) <==>
            || IsChildPath(body, path, done, v, p, arguments)
            || (v in All(Nested(body, c), arguments) && p == path + [c])
  {
    hide All, Nested;
    assert |p| == |path| + 1 && p[..|path|] == path ==> p == path + [p[|path|]];
  }

  lemma TwoElements<T>(s: set<T>)
    ensures |s| > 1 <==> exists a, b :: a in s && b in s && a != b
  {
    if |s| > 1 {
      var a :| a in s;
      assert |s - {a}| > 0;
      var b :| b in s - {a};
    }
    if a, b :| a in s && b in s && a != b {
      assert b in s - {a};
      assert |s - {a}| == |s| - 1;
    }
  }

  /** Finalizing the record of a whole scope yields exactly what the scope lists. */
  lemma FinalizedIsListed(r: ScopeRecord, body: seq<Stmt>, path: Path, done: set<Step>, arguments: set<nat>)
    requires IsRecord(r, body, path, Direct(body, arguments), done, arguments)
    requires forall c :: c in done <==> IsStep(body, c)
    ensures r.Finalize().variables == Listed(body, arguments)
  {
    forall v
      ensures v in r.Finalize().variables <==> v in Listed(body, arguments)
    {
      ThroughTwo(r, body, path, done, v, arguments);
      ThroughIsInAll(body, v, arguments);
      assert v in r.propagated && |r.propagated[v]| > 1 <==> |Known(r.propagated, v)| > 1;
    }
  }

  lemma ThroughIsInAll(body: seq<Stmt>, v: nat, arguments: set<nat>)
    ensures v in All(body, arguments) <==>
            v in Direct(body, arguments) || exists c :: Through(body, c, v, arguments)
  {
    hide Direct, Nested;
    if v in All(body, arguments) && v !in Direct(body, arguments) {
      var i: nat, b: nat :| i < |body| && b < |Bodies(body[i])| && v in All(Nested(body, (i, b)), arguments);
      assert Through(body, (i, b), v, arguments);
    }
    if c :| Through(body, c, v, arguments) {
      assert c == (c.0, c.1);
    }
  }

  lemma ThroughAStep(body: seq<Stmt>, arguments: set<nat>)
    ensures forall c, v :: Through(body, c, v, arguments) ==> IsStep(body, c)
  {
  }

  lemma ThroughTwo(r: ScopeRecord, body: seq<Stmt>, path: Path, done: set<Step>, v: nat, arguments: set<nat>)
    requires IsRecord(r, body, path, Direct(body, arguments), done, arguments)
    requires forall c :: c in done <==> IsStep(body, c)
    ensures |Known(r.propagated, v)| > 1 <==>
            exists c, d :: c != d && Through(body, c, v, arguments) && Through(body, d, v, arguments)
  {
    hide Through, Direct, Known, IsStep;
    ThroughAStep(body, arguments);
    var ps := Known(r.propagated, v);
    TwoElements(ps);
    if p, q :| p in ps && q in ps && p != q {
      assert p == path + [p[|path|]] && q == path + [q[|path|]];
      assert p[|path|] != q[|path|];
    }
    if c, d :| c != d && Through(body, c, v, arguments) && Through(body, d, v, arguments) {
      assert (path + [c])[|path|] == c && (path + [d])[|path|] == d;
      assert IsChildPath(body, path, done, v, path + [c], arguments);
      assert IsChildPath(body, path, done, v, path + [d], arguments);
    }
  }

  /** Everything referenced by `direct` or within the nested scopes `done`. */
  ghost predicate IsSeen(seen: set<nat>, body: seq<Stmt>, direct: set<nat>, done: set<Step>, arguments: set<nat>) {
    forall v :: v in seen <==> v in direct || exists c :: c in done && Through(body, c, v, arguments)
  }

  /** The stack in the middle of visiting the scope on top of it, in terms of the stack before. */
  ghost predicate Visiting(
    stack: Stack, base: Stack, path: Path, body: seq<Stmt>,
    seen: set<nat>, direct: set<nat>, done: set<Step>, arguments: set<nat>)
  {
    && |stack| == |base| + 1
    && stack[..|base|] == FromBelow(base, path, seen)
    && IsRecord(stack[|base|], body, path, direct, done, arguments)
    && IsSeen(seen, body, direct, done, arguments)
  }

  lemma VisitingStarts(base: Stack, path: Path, body: seq<Stmt>, arguments: set<nat>)
    ensures Visiting(base + [ScopeRecord(path, {}, map[])], base, path, body, {}, {}, {}, arguments)
  {
    NothingBelow(base, path);
  }

  lemma VisitingDirect(
    stack: Stack, base: Stack, path: Path, body: seq<Stmt>,
    seen: set<nat>, direct: set<nat>, done: set<Step>, vs: set<nat>, arguments: set<nat>)
    requires Visiting(stack, base, path, body, seen, direct, done, arguments)
    ensures Visiting(FromTop(stack, vs), base, path, body, seen + vs, direct + vs, done, arguments)
  {
    hide IsRecord, Through;
    RecordScope(stack[|base|], body, path, direct, done, arguments);
    FromBelowTwice(base, path, seen, vs);
    RecordReference(stack[|base|], body, path, direct, done, vs, arguments);
  }

  lemma RecordScope(r: ScopeRecord, body: seq<Stmt>, path: Path, direct: set<nat>, done: set<Step>, arguments: set<nat>)
    requires IsRecord(r, body, path, direct, done, arguments)
    ensures r.scope == path
  {
  }

  lemma SeenNested(seen: set<nat>, body: seq<Stmt>, direct: set<nat>, done: set<Step>, c: Step, arguments: set<nat>)
    requires IsSeen(seen, body, direct, done, arguments)
    requires IsStep(body, c)
    ensures IsSeen(seen + All(Nested(body, c), arguments), body, direct, done + {c}, arguments)
  {
    hide All;
    var more := seen + All(Nested(body, c), arguments);
    forall v
      ensures v in more <==> v in direct || exists d :: d in done + {c} && Through(body, d, v, arguments)
    {
      if v in All(Nested(body, c), arguments) {
        assert c in done + {c} && Through(body, c, v, arguments);
      }
    }
  }

  lemma VisitingNested(
    stack: Stack, base: Stack, path: Path, body: seq<Stmt>,
    seen: set<nat>, direct: set<nat>, done: set<Step>, c: Step, arguments: set<nat>)
    requires Visiting(stack, base, path, body, seen, direct, done, arguments)
    requires IsStep(body, c)
    ensures Visiting(FromBelow(stack, path + [c], All(Nested(body, c), arguments)), base, path, body,
                     seen + All(Nested(body, c), arguments), direct, done + {c}, arguments)
  {
    hide IsRecord, Through, All, Nested, IsSeen;
    var vs := All(Nested(body, c), arguments);
    RecordScope(stack[|base|], body, path, direct, done, arguments);
    FromBelowTwice(base, path, seen, vs);
    RecordPropagate(stack[|base|], body, path, direct, done, c, arguments);
    SeenNested(seen, body, direct, done, c, arguments);
  }

  /** Position c comes before scope b of statement i. */
  predicate Before(c: Step, i: nat, b: nat) {
    c.0 < i || (c.0 == i && c.1 < b)
  }

  function StepsBefore(body: seq<Stmt>, n: nat, m: nat): set<Step> {
    set i: nat, b: nat | i < |body| && b < |Bodies(body[i])| && Before((i, b), n, m) :: (i, b)
  }

  lemma OneMoreStep(body: seq<Stmt>, i: nat, b: nat)
    requires IsStep(body, (i, b))
    ensures StepsBefore(body, i, b + 1) == StepsBefore(body, i, b) + {(i, b)}
  {
  }

  /** The first b positions of statement i. */
  function StepsOf(i: nat, b: nat): set<Step> {
    set c: nat | c < b :: (i, c)
  }

  lemma OneMoreStepOf(i: nat, b: nat)
    ensures StepsOf(i, b + 1) == StepsOf(i, b) + {(i, b)}
  {
  }

  lemma NoStepsOf()
    ensures StepsOf(0, 0) == {}
  {
  }

  lemma EveryStepBefore(body: seq<Stmt>)
    ensures forall c :: c in StepsBefore(body, |body|, 0) <==> IsStep(body, c)
  {
    forall c: Step
      ensures c in StepsBefore(body, |body|, 0) <==> IsStep(body, c)
    {
      assert c == (c.0, c.1);
    }
  }

  lemma NoStepsBefore(body: seq<Stmt>)
    ensures StepsBefore(body, 0, 0) == {}
  {
  }

  lemma NextStmtSteps(body: seq<Stmt>, i: nat)
    requires i < |body|
    ensures StepsBefore(body, i + 1, 0) == StepsBefore(body, i, 0) + StepsOf(i, |Bodies(body[i])|)
    ensures StepsBefore(body, i + 1, 0) == StepsBefore(body, i, |Bodies(body[i])|)
  {
  }

  lemma {:induction false} VisitingBodies(
    stack: Stack, base: Stack, path: Path, body: seq<Stmt>, seen: set<nat>, direct: set<nat>,
    i: nat, b: nat, arguments: set<nat>) returns (now: set<nat>)
    requires i < |body| && b <= |Bodies(body[i])|
    requires Visiting(stack, base, path, body, seen, direct, StepsBefore(body, i, 0), arguments)
    ensures Visiting(AfterBodies(stack, body, i, b, arguments), base, path, body,
                     now, direct, StepsBefore(body, i, b), arguments)
    decreases b
  {
    hide FromBelow, StepsBefore, Through, All;
    if b == 0 {
      return seen;
    }
    var was := VisitingBodies(stack, base, path, body, seen, direct, i, b - 1, arguments);
    RecordScope(stack[|base|], body, path, direct, StepsBefore(body, i, 0), arguments);
    VisitingNested(AfterBodies(stack, body, i, b - 1, arguments), base, path, body, was, direct,
                   StepsBefore(body, i, b - 1), (i, b - 1), arguments);
    OneMoreStep(body, i, b - 1);
    return was + All(Nested(body, (i, b - 1)), arguments);
  }

  lemma {:induction false} VisitingStmts(
    base: Stack, path: Path, body: seq<Stmt>, i: nat, arguments: set<nat>) returns (now: set<nat>)
    requires i <= |body|
    ensures Visiting(AfterStmts(base + [ScopeRecord(path, {}, map[])], body, i, arguments), base, path, body,
                     now, DirectUpTo(body, i, arguments), StepsBefore(body, i, 0), arguments)
  {
    hide Visiting, StepsBefore, RefsOf, FromTop, FromBelow, AfterBodies, Through, All, Nested, Exprs, Bodies;
    if i == 0 {
      assert StepsBefore(body, 0, 0) == {} by { NoStepsBefore(body); }
      VisitingStarts(base, path, body, arguments);
      return {};
    }
    var was := VisitingStmts(base, path, body, i - 1, arguments);
    var stack := AfterStmts(base + [ScopeRecord(path, {}, map[])], body, i - 1, arguments);
    var vs := RefsOf(Exprs(body[i - 1]), arguments);
    VisitingDirect(stack, base, path, body,
                   was, DirectUpTo(body, i - 1, arguments), StepsBefore(body, i - 1, 0), vs, arguments);
    now := VisitingBodies(FromTop(stack, vs), base, path, body, was + vs, DirectUpTo(body, i, arguments),
                          i - 1, |Bodies(body[i - 1])|, arguments);
    NextStmtSteps(body, i - 1);
  }

  /** The stack walk of a whole scope: the record holds what the scope lists,
    every enclosing record all it references. */
  lemma ScopeEffect(base: Stack, path: Path, body: seq<Stmt>, arguments: set<nat>)
    ensures var stack := AfterStmts(base + [ScopeRecord(path, {}, map[])], body, |body|, arguments);
            && stack[..|base|] == FromBelow(base, path, All(body, arguments))
            && stack[|base|].Finalize().variables == Listed(body, arguments)
  {
    hide AfterStmts, IsRecord, IsSeen, All, Listed, StepsBefore;
    var now := VisitingStmts(base, path, body, |body|, arguments);
    var stack := AfterStmts(base + [ScopeRecord(path, {}, map[])], body, |body|, arguments);
    var done := StepsBefore(body, |body|, 0);
    WholeScope(stack, base, path, body, now, done, arguments);
  }

  lemma WholeScope(
      stack: Stack, base: Stack, path: Path, body: seq<Stmt>, seen: set<nat>, done: set<Step>, arguments: set<nat>)
    requires Visiting(stack, base, path, body, seen, Direct(body, arguments), done, arguments)
    requires done == StepsBefore(body, |body|, 0)
    ensures seen == All(body, arguments)
    ensures stack[|base|].Finalize().variables == Listed(body, arguments)
  {
    EveryStepBefore(body);
    FinalizedIsListed(stack[|base|], body, path, done, arguments);
    forall v
      ensures v in seen <==> v in All(body, arguments)
    {
      ThroughIsInAll(body, v, arguments);
    }
  }

  // ----- The analysis -----

  class DefinitionAnalysis {
    var arguments: set<nat>
    var scopeStack: Stack
    var scopedVariables: map<Path, set<nat>>

    constructor ()
      ensures arguments == {} && scopeStack == [] && scopedVariables == map[]
    {
      arguments, scopeStack, scopedVariables := {}, [], map[];
    }

    method Reset()
      modifies this
      ensures arguments == {} && scopedVariables == map[] && scopeStack == old(scopeStack)
    {
      scopedVariables := map[];
      arguments := {};
    }

    method VisitRef(v: Variable)
      requires |scopeStack| > 0
      modifies this`scopeStack
      ensures scopeStack == FromTop(old(scopeStack), if Tracked(v, arguments) then {v.uid} else {})
    {
      hide Grow, FromBelow;
      if v.tag.Local? && v.uid !in arguments {
        var k := |scopeStack| - 1;
        scopeStack := scopeStack[k := scopeStack[k].Reference(v.uid)];
        var scope := scopeStack[k].scope;
        assert scopeStack[..k] == old(scopeStack)[..k];
        while k > 0
          invariant 0 <= k < |scopeStack|
          invariant FromBelow(scopeStack[..k], scope, {v.uid}) + scopeStack[k..] == FromTop(old(scopeStack), {v.uid})
        {
          k := k - 1;
          PropagateStep(scopeStack, k, scope, v.uid);
          scopeStack := scopeStack[k := scopeStack[k].Propagate(v.uid, scope)];
          scope := scopeStack[k].scope;
        }
        NothingLeft(scopeStack, scope, v.uid);
      } else {
        NothingFromTop(scopeStack);
      }
    }

    method VisitExpr(e: Expr)
      requires |scopeStack| > 0
      modifies this`scopeStack
      ensures scopeStack == FromTop(old(scopeStack), Refs(e, arguments))
      decreases ExprSize(e)
    {
      hide FromTop;
      if e.Ref? {
        VisitRef(e.variable);
        return;
      }
      var i := 0;
      NothingFromTop(scopeStack);
      while i < |Operands(e)|
        invariant i <= |Operands(e)|
        invariant scopeStack == FromTop(old(scopeStack), RefsUpTo(e, i, arguments))
      {
        OperandSmaller(e, i);
        FromTopTwice(old(scopeStack), RefsUpTo(e, i, arguments), Refs(Operands(e)[i], arguments));
        VisitExpr(Operands(e)[i]);
        i := i + 1;
      }
    }

    method VisitExprs(es: seq<Expr>)
      requires |scopeStack| > 0
      modifies this`scopeStack
      ensures scopeStack == FromTop(old(scopeStack), RefsOf(es, arguments))
    {
      hide FromTop;
      NothingFromTop(scopeStack);
      for i := 0 to |es|
        invariant |scopeStack| == |old(scopeStack)|
        invariant scopeStack == FromTop(old(scopeStack), RefsOf(es[..i], arguments))
      {
        assert es[..i + 1][..i] == es[..i];
        FromTopTwice(old(scopeStack), RefsOf(es[..i], arguments), Refs(es[i], arguments));
        VisitExpr(es[i]);
      }
      assert es[..|es|] == es;
    }

    /** Statement i of the scope on top of the stack. */
    method VisitStmt(body: seq<Stmt>, i: nat, path: Path)
      requires |scopeStack| > 0 && i < |body| && path == scopeStack[|scopeStack| - 1].scope
      modifies this`scopeStack, this`scopedVariables
      ensures scopeStack == AfterStmt(old(scopeStack), body, i, arguments)
      ensures Added(old(scopedVariables), scopedVariables, body, path, StepsOf(i, |Bodies(body[i])|), arguments)
      decreases BodySize(body), 0
    {
      hide Added, AddedAll, FromTop, FromBelow, All, StepsOf;
      VisitExprs(Exprs(body[i]));
      ghost var entered := scopeStack;
      NothingAdded(scopedVariables, body, path, i, arguments);
      for b := 0 to |Bodies(body[i])|
        invariant scopeStack == AfterBodies(entered, body, i, b, arguments)
        invariant Added(old(scopedVariables), scopedVariables, body, path, StepsOf(i, b), arguments)
      {
        ghost var table := scopedVariables;
        VisitScope(Nested(body, (i, b)), path + [(i, b)]);
        NestedAdded(table, scopedVariables, body, path, (i, b), arguments);
        AddedTwice(old(scopedVariables), table, scopedVariables, body, path, StepsOf(i, b), {(i, b)}, arguments);
        OneMoreStepOf(i, b);
      }
    }

    method VisitScope(body: seq<Stmt>, path: Path)
      modifies this`scopeStack, this`scopedVariables
      ensures scopeStack == FromBelow(old(scopeStack), path, All(body, arguments))
      ensures AddedAll(old(scopedVariables), scopedVariables, body, path, arguments)
      decreases BodySize(body), 1
    {
      hide Added, AddedAll, FromBelow, AfterStmt, All, Listed, StepsOf, StepsBefore;
      scopeStack := scopeStack + [ScopeRecord(path, {}, map[])];
      ghost var pushed := scopeStack;
      NoStepsBefore(body);
      NothingAdded(scopedVariables, body, path, 0, arguments);
      assert StepsOf(0, 0) == {} by { NoStepsOf(); }
      for i := 0 to |body|
        invariant scopeStack == AfterStmts(pushed, body, i, arguments)
        invariant Added(old(scopedVariables), scopedVariables, body, path, StepsBefore(body, i, 0), arguments)
      {
        ghost var table := scopedVariables;
        VisitStmt(body, i, path);
        AddedTwice(old(scopedVariables), table, scopedVariables, body, path,
                   StepsBefore(body, i, 0), StepsOf(i, |Bodies(body[i])|), arguments);
        NextStmtSteps(body, i);
      }
      ScopeEffect(old(scopeStack), path, body, arguments);
      var n := |scopeStack| - 1;
      var variables := scopeStack[n].Finalize().variables;
      scopeStack := scopeStack[..n];
      ghost var table := scopedVariables;
      if path !in scopedVariables {
        scopedVariables := scopedVariables[path := variables];
      }
      SelfAdded(old(scopedVariables), table, scopedVariables, body, path, arguments);
    }

    /** `warned`: the stack was not empty afterwards, and is cleared. */
    method Analyze(formals: seq<Variable>, body: seq<Stmt>) returns (warned: bool)
      modifies this
      ensures arguments == old(arguments) + set i | 0 <= i < |formals| :: formals[i].uid
      ensures AddedAll(old(scopedVariables), scopedVariables, body, [], arguments)
      ensures warned == (old(scopeStack) != [])
      ensures scopeStack == []
    {
      hide AddedAll, All;
      for i := 0 to |formals|
        invariant scopeStack == old(scopeStack) && scopedVariables == old(scopedVariables)
        invariant arguments == old(arguments) + set k | 0 <= k < i :: formals[k].uid
      {
        arguments := arguments + {formals[i].uid};
      }
      VisitScope(body, []);
      warned := scopeStack != [];
      if warned {
        scopeStack := [];
      }
    }
  }

  // ----- Where a variable is declared -----

  /** The scope that has to declare v: the innermost one around all references to it. */
  ghost function Home(body: seq<Stmt>, v: nat, arguments: set<nat>): Path
    requires v in All(body, arguments)
    decreases BodySize(body)
  {
    if Lists(body, v, arguments) then [] else
      ThroughIsInAll(body, v, arguments);
      var c :| Through(body, c, v, arguments);
      [c] + Home(Nested(body, c), v, arguments)
  }

  lemma {:induction false} ReferencedIsInAll(body: seq<Stmt>, p: Path, v: nat, arguments: set<nat>)
    requires ReferencedAt(body, p, v, arguments)
    ensures v in All(body, arguments)
    ensures p != [] ==> Through(body, p[0], v, arguments)
    decreases |p|
  {
    ThroughIsInAll(body, v, arguments);
    if p != [] {
      ReferencedIsInAll(Nested(body, p[0]), p[1..], v, arguments);
    }
  }

  lemma {:induction false} InAllIsReferenced(body: seq<Stmt>, v: nat, arguments: set<nat>) returns (p: Path)
    requires v in All(body, arguments)
    ensures ReferencedAt(body, p, v, arguments)
    decreases BodySize(body)
  {
    ThroughIsInAll(body, v, arguments);
    if v in Direct(body, arguments) {
      p := [];
    } else {
      var c :| Through(body, c, v, arguments);
      var q := InAllIsReferenced(Nested(body, c), v, arguments);
      p := [c] + q;
      assert p[1..] == q;
    }
  }

  /** Something is listed only where it is referenced. */
  lemma {:induction false} ListedIsInAll(body: seq<Stmt>, p: Path, v: nat, arguments: set<nat>)
    requires ListedAt(body, p, v, arguments)
    ensures v in All(body, arguments)
    ensures p != [] ==> Through(body, p[0], v, arguments)
    decreases |p|
  {
    ThroughIsInAll(body, v, arguments);
    if p != [] {
      ListedIsInAll(Nested(body, p[0]), p[1..], v, arguments);
    }
  }

  lemma {:induction false} HomeLists(body: seq<Stmt>, v: nat, arguments: set<nat>)
    requires v in All(body, arguments)
    ensures ListedAt(body, Home(body, v, arguments), v, arguments)
    decreases BodySize(body)
  {
    if !Lists(body, v, arguments) {
      var h := Home(body, v, arguments);
      assert Through(body, h[0], v, arguments);
      HomeLists(Nested(body, h[0]), v, arguments);
    }
  }

  lemma {:induction false} HomeEncloses(body: seq<Stmt>, v: nat, p: Path, arguments: set<nat>)
    requires v in All(body, arguments)
    requires ReferencedAt(body, p, v, arguments) || ListedAt(body, p, v, arguments)
    ensures Home(body, v, arguments) <= p
    decreases |p|
  {
    hide All, Direct;
    if !Lists(body, v, arguments) {
      if ReferencedAt(body, p, v, arguments) {
        ReferencedIsInAll(body, p, v, arguments);
      } else {
        ListedIsInAll(body, p, v, arguments);
      }
      HomeNested(body, v, p[0], arguments);
      HomeEncloses(Nested(body, p[0]), v, p[1..], arguments);
      assert p == [p[0]] + p[1..];
    }
  }

  /** q encloses every reference to v. */
  ghost predicate EnclosesAll(body: seq<Stmt>, q: Path, v: nat, arguments: set<nat>) {
    forall p :: ReferencedAt(body, p, v, arguments) ==> q <= p
  }

  lemma ReferenceThrough(body: seq<Stmt>, c: Step, v: nat, arguments: set<nat>) returns (p: Path)
    requires Through(body, c, v, arguments)
    ensures ReferencedAt(body, p, v, arguments) && p != [] && p[0] == c
  {
    var q := InAllIsReferenced(Nested(body, c), v, arguments);
    p := [c] + q;
    assert p[1..] == q;
  }

  lemma EnclosesNested(body: seq<Stmt>, q: Path, v: nat, arguments: set<nat>)
    requires q != [] && IsStep(body, q[0])
    requires EnclosesAll(body, q, v, arguments)
    ensures EnclosesAll(Nested(body, q[0]), q[1..], v, arguments)
  {
    forall p | ReferencedAt(Nested(body, q[0]), p, v, arguments)
      ensures q[1..] <= p
    {
      assert ([q[0]] + p)[1..] == p;
      assert ReferencedAt(body, [q[0]] + p, v, arguments);
    }
  }

  /** Only a scope that lists v can be the innermost one around all references to it. */
  lemma EnclosingStep(body: seq<Stmt>, v: nat, q: Path, arguments: set<nat>)
    requires v in All(body, arguments)
    requires EnclosesAll(body, q, v, arguments)
    requires q != []
    ensures !Lists(body, v, arguments) && Through(body, q[0], v, arguments)
  {
    hide Through, Direct, All, ReferencedAt;
    ThroughIsInAll(body, v, arguments);
    forall c | Through(body, c, v, arguments)
      ensures c == q[0]
    {
      var r := ReferenceThrough(body, c, v, arguments);
      assert q <= r;
    }
    if v in Direct(body, arguments) {
      RootReference(body, v, arguments);
      assert false;
    }
  }

  lemma RootReference(body: seq<Stmt>, v: nat, arguments: set<nat>)
    ensures ReferencedAt(body, [], v, arguments) <==> v in Direct(body, arguments)
  {
  }

  lemma HomeNested(body: seq<Stmt>, v: nat, c: Step, arguments: set<nat>)
    requires v in All(body, arguments)
    requires !Lists(body, v, arguments) && Through(body, c, v, arguments)
    ensures Home(body, v, arguments) == [c] + Home(Nested(body, c), v, arguments)
  {
  }

  lemma {:induction false} HomeIsInnermost(body: seq<Stmt>, v: nat, q: Path, arguments: set<nat>)
    requires v in All(body, arguments)
    requires EnclosesAll(body, q, v, arguments)
    ensures q <= Home(body, v, arguments)
    decreases |q|
  {
    hide Home, Lists, All, EnclosesAll;
    if q != [] {
      EnclosingStep(body, v, q, arguments);
      HomeNested(body, v, q[0], arguments);
      EnclosesNested(body, q, v, arguments);
      HomeIsInnermost(Nested(body, q[0]), v, q[1..], arguments);
      assert q == [q[0]] + q[1..];
    }
  }

  /**
   * The analysis makes v declared in the lowest common ancestor of all references to it,
   * and lists it in no scope outside that one. So the outermost scope that lists v on
   * the way to any reference is always the same scope, and it encloses all uses.
   */
  lemma DeclaredAroundAllUses(body: seq<Stmt>, v: nat, arguments: set<nat>)
    requires v in All(body, arguments)
    ensures var home := Home(body, v, arguments);
            && ListedAt(body, home, v, arguments)
            && EnclosesAll(body, home, v, arguments)
            && (forall q :: ListedAt(body, q, v, arguments) ==> home <= q)
            && (forall q :: EnclosesAll(body, q, v, arguments) ==> q <= home)
  {
    HomeLists(body, v, arguments);
    forall p | ReferencedAt(body, p, v, arguments) || ListedAt(body, p, v, arguments)
      ensures Home(body, v, arguments) <= p
    {
      HomeEncloses(body, v, p, arguments);
    }
    forall q | EnclosesAll(body, q, v, arguments)
      ensures q <= Home(body, v, arguments)
    {
      HomeIsInnermost(body, v, q, arguments);
    }
  }

  lemma TableLists(body: seq<Stmt>, table: map<Path, set<nat>>, arguments: set<nat>)
    requires AddedAll(map[], table, body, [], arguments)
    ensures forall q :: q in table <==> IsPath(body, q)
    ensures forall q :: q in table ==> table[q] == Listed(At(body, q), arguments)
  {
    hide Listed;
    forall q: Path
      ensures Within(body, [], q) <==> IsPath(body, q)
      ensures IsPath(body, q) ==> ListedWithin(body, [], q, arguments) == Listed(At(body, q), arguments)
    {
      assert q[0..] == q;
    }
  }

  lemma ListedAtIsListed(body: seq<Stmt>, q: Path, v: nat, arguments: set<nat>)
    requires IsPath(body, q)
    ensures v in Listed(At(body, q), arguments) <==> ListedAt(body, q, v, arguments)
  {
    ThroughIsInAll(At(body, q), v, arguments);
  }

  /** The same about the table the analysis leaves behind: it has one entry for each scope, ... */
  lemma OneEntryPerScope(body: seq<Stmt>, table: map<Path, set<nat>>, q: Path, arguments: set<nat>)
    requires AddedAll(map[], table, body, [], arguments)
    ensures q in table <==> IsPath(body, q)
    ensures q in table ==> table[q] == Listed(At(body, q), arguments)
  {
    TableLists(body, table, arguments);
  }

  /** ... a variable is declared around each reference to it, ... */
  lemma TableDeclares(body: seq<Stmt>, table: map<Path, set<nat>>, p: Path, v: nat, arguments: set<nat>)
    requires AddedAll(map[], table, body, [], arguments)
    requires ReferencedAt(body, p, v, arguments)
    ensures v in All(body, arguments)
    ensures var home := Home(body, v, arguments);
            home <= p && home in table && v in table[home]
  {
    TableLists(body, table, arguments);
    hide *;
    ReferenceDeclared(body, p, v, arguments);
  }

  /** ... and nowhere outside the innermost scope around all of them. */
  lemma TableDeclaresOnce(body: seq<Stmt>, table: map<Path, set<nat>>, q: Path, v: nat, arguments: set<nat>)
    requires AddedAll(map[], table, body, [], arguments)
    requires q in table && v in table[q]
    ensures v in All(body, arguments) && Home(body, v, arguments) <= q
  {
    TableLists(body, table, arguments);
    hide *;
    EntryIsAfterHome(body, q, v, arguments);
  }

  lemma EntryIsAfterHome(body: seq<Stmt>, q: Path, v: nat, arguments: set<nat>)
    requires IsPath(body, q) && v in Listed(At(body, q), arguments)
    ensures v in All(body, arguments) && Home(body, v, arguments) <= q
  {
    hide *;
    ListedAtIsListed(body, q, v, arguments);
    ListedIsInAll(body, q, v, arguments);
    HomeEncloses(body, v, q, arguments);
  }

  lemma ReferenceDeclared(body: seq<Stmt>, p: Path, v: nat, arguments: set<nat>)
    requires ReferencedAt(body, p, v, arguments)
    ensures v in All(body, arguments)
    ensures var home := Home(body, v, arguments);
            home <= p && IsPath(body, home) && v in Listed(At(body, home), arguments)
  {
    hide *;
    ReferencedIsInAll(body, p, v, arguments);
    HomeLists(body, v, arguments);
    HomeEncloses(body, v, p, arguments);
    ListedIsPath(body, Home(body, v, arguments), v, arguments);
    ListedAtIsListed(body, Home(body, v, arguments), v, arguments);
  }

  lemma ListedIsPath(body: seq<Stmt>, p: Path, v: nat, arguments: set<nat>)
    requires ListedAt(body, p, v, arguments)
    ensures IsPath(body, p)
  {
  }
}
