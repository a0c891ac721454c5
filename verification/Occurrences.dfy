/**
 * Where variables occur, said on the fields of expressions and statements alone: what the
 * visitors of src/compile/definition_analysis.cpp must reach, and declare.
 */
module Occurrences {
  import opened Types
  import opened Ast
  import opened DefinitionAnalysis

  // ----- Occurrence -----

  predicate Occurs(e: Expr, w: Variable) {
    match e
    case Unary(_, _, x) => Occurs(x, w)
    case Binary(_, _, l, r) => Occurs(l, w) || Occurs(r, w)
    case Member(_, x, _) => Occurs(x, w)
    case Swizzle(_, x, _, _) => Occurs(x, w)
    case Access(_, r, i) => Occurs(r, w) || Occurs(i, w)
    case Literal(_, _) => false
    case Ref(v) => v == w
    case Constant(_, _) => false
    case Call(_, _, args) => exists i | 0 <= i < |args| :: Occurs(args[i], w)
    case Cast(_, _, x) => Occurs(x, w)
  }

  /** In an expression that the statement evaluates itself. */
  predicate OccursDirectly(s: Stmt, w: Variable) {
    match s
    case Break => false
    case Continue => false
    case Return(v) => v.Some? && Occurs(v.value, w)
    case Scope(_) => false
    case If(c, _, _) => Occurs(c, w)
    case Loop(_) => false
    case ExprStmt(e) => Occurs(e, w)
    case Switch(e, _) => Occurs(e, w)
    case Case(e, _) => Occurs(e, w)
    case Default(_) => false
    case Assign(l, r) => Occurs(l, w) || Occurs(r, w)
    case For(v, c, st, _) => Occurs(v, w) || Occurs(c, w) || Occurs(st, w)
    case Comment(_) => false
  }

  /** Anywhere in the statement or in the scopes nested in it. */
  predicate OccursIn(s: Stmt, w: Variable)
    decreases s, 0
  {
    || OccursDirectly(s, w)
    || match s
       case Scope(b) => OccursInBody(b, w)
       case If(_, t, f) => OccursInBody(t, w) || OccursInBody(f, w)
       case Loop(b) => OccursInBody(b, w)
       case Switch(_, b) => OccursInBody(b, w)
       case Case(_, b) => OccursInBody(b, w)
       case Default(b) => OccursInBody(b, w)
       case For(_, _, _, b) => OccursInBody(b, w)
       case _ => false
  }

  predicate OccursInBody(body: seq<Stmt>, w: Variable)
    decreases body, 1
  {
    exists i | 0 <= i < |body| :: OccursIn(body[i], w)
  }

  /** The scope that a path leads to: a step names a statement and, in an if-statement, its branch. */
  function ScopeAt(body: seq<Stmt>, p: Path): Option<seq<Stmt>>
    decreases |p|
  {
    if p == [] then Some(body)
    else if p[0].0 >= |body| then None
    else
      match body[p[0].0]
      case If(_, t, f) =>
        if p[0].1 == 0 then ScopeAt(t, p[1..]) else if p[0].1 == 1 then ScopeAt(f, p[1..]) else None
      case Scope(b) => if p[0].1 == 0 then ScopeAt(b, p[1..]) else None
      case Loop(b) => if p[0].1 == 0 then ScopeAt(b, p[1..]) else None
      case Switch(_, b) => if p[0].1 == 0 then ScopeAt(b, p[1..]) else None
      case Case(_, b) => if p[0].1 == 0 then ScopeAt(b, p[1..]) else None
      case Default(b) => if p[0].1 == 0 then ScopeAt(b, p[1..]) else None
      case For(_, _, _, b) => if p[0].1 == 0 then ScopeAt(b, p[1..]) else None
      case _ => None
  }

  /** Directly in the scope at p. */
  predicate OccursAt(body: seq<Stmt>, p: Path, w: Variable) {
    var scope := ScopeAt(body, p);
    scope.Some? && exists i | 0 <= i < |scope.value| :: OccursDirectly(scope.value[i], w)
  }

  // ----- The visitors reach what occurs -----

  /** A local variable that is no argument; variables are compared by uid. */
  predicate LocalNamed(w: Variable, v: nat, arguments: set<nat>) {
    w.tag == Local && w.uid == v && v !in arguments
  }

  lemma OccursInOperand(e: Expr, w: Variable)
    requires !e.Ref?
    ensures Occurs(e, w) <==> exists k | 0 <= k < |Operands(e)| :: Occurs(Operands(e)[k], w)
  {
    var es := Operands(e);
    if Occurs(e, w) && !e.Call? {
      assert Occurs(es[0], w) || (|es| > 1 && Occurs(es[1], w));
    }
  }

  /** Visiting an expression references exactly the local variables that occur in it. */
  lemma {:induction false} RefsAreOccurrences(e: Expr, v: nat, arguments: set<nat>)
    ensures v in Refs(e, arguments) <==> exists w :: LocalNamed(w, v, arguments) && Occurs(e, w)
    decreases ExprSize(e), 0
  {
    if e.Ref? {
      if v in Refs(e, arguments) {
        assert LocalNamed(e.variable, v, arguments) && Occurs(e, e.variable);
      }
    } else {
      var n := |Operands(e)|;
      RefsUpToAreOccurrences(e, n, v, arguments);
      hide Occurs, Operands;
      if k, w :| 0 <= k < n && LocalNamed(w, v, arguments) && Occurs(Operands(e)[k], w) {
        OccursInOperand(e, w);
      }
      if w :| LocalNamed(w, v, arguments) && Occurs(e, w) {
        OccursInOperand(e, w);
      }
    }
  }

  lemma {:induction false} RefsUpToAreOccurrences(e: Expr, n: nat, v: nat, arguments: set<nat>)
    requires n <= |Operands(e)|
    ensures v in RefsUpTo(e, n, arguments) <==>
            exists k, w :: 0 <= k < n && LocalNamed(w, v, arguments) && Occurs(Operands(e)[k], w)
    decreases ExprSize(e), 0, n
  {
    hide Occurs, Operands, LocalNamed;
    if n > 0 {
      OperandSmaller(e, n - 1);
      RefsUpToAreOccurrences(e, n - 1, v, arguments);
      RefsAreOccurrences(Operands(e)[n - 1], v, arguments);
    }
  }

  lemma {:induction false} RefsOfAreOccurrences(es: seq<Expr>, v: nat, arguments: set<nat>)
    ensures v in RefsOf(es, arguments) <==>
            exists k, w :: 0 <= k < |es| && LocalNamed(w, v, arguments) && Occurs(es[k], w)
    decreases |es|
  {
    hide Occurs, LocalNamed, Refs;
    if es != [] {
      RefsOfAreOccurrences(es[..|es| - 1], v, arguments);
      RefsAreOccurrences(es[|es| - 1], v, arguments);
    }
  }

  lemma OccursInExprs(s: Stmt, w: Variable)
    ensures OccursDirectly(s, w) <==> exists k | 0 <= k < |Exprs(s)| :: Occurs(Exprs(s)[k], w)
  {
    hide Occurs;
    var es := Exprs(s);
    if OccursDirectly(s, w) {
      assert Occurs(es[0], w) || (|es| > 1 && Occurs(es[1], w)) || (|es| > 2 && Occurs(es[2], w));
    }
  }

  /** And a statement references those in its own expressions, ... */
  lemma StmtRefsAreOccurrences(s: Stmt, v: nat, arguments: set<nat>)
    ensures v in RefsOf(Exprs(s), arguments) <==> exists w :: LocalNamed(w, v, arguments) && OccursDirectly(s, w)
  {
    RefsOfAreOccurrences(Exprs(s), v, arguments);
    hide RefsOf, Exprs, LocalNamed, Occurs, OccursDirectly;
    if k, w :| 0 <= k < |Exprs(s)| && LocalNamed(w, v, arguments) && Occurs(Exprs(s)[k], w) {
      OccursInExprs(s, w);
    }
    if w :| LocalNamed(w, v, arguments) && OccursDirectly(s, w) {
      OccursInExprs(s, w);
    }
  }

  lemma {:induction false} DirectAreOccurrences(body: seq<Stmt>, n: nat, v: nat, arguments: set<nat>)
    requires n <= |body|
    ensures v in DirectUpTo(body, n, arguments) <==>
            exists i, w :: 0 <= i < n && LocalNamed(w, v, arguments) && OccursDirectly(body[i], w)
    decreases n
  {
    hide OccursDirectly, LocalNamed, RefsOf, Exprs;
    if n > 0 {
      DirectAreOccurrences(body, n - 1, v, arguments);
      StmtRefsAreOccurrences(body[n - 1], v, arguments);
    }
  }

  /** ... the paths of the analysis lead to exactly the nested scopes, ... */
  lemma {:induction false} PathsLeadToScopes(body: seq<Stmt>, p: Path)
    ensures IsPath(body, p) <==> ScopeAt(body, p).Some?
    ensures IsPath(body, p) ==> ScopeAt(body, p) == Some(At(body, p))
    decreases |p|
  {
    if p != [] && IsStep(body, p[0]) {
      PathsLeadToScopes(Nested(body, p[0]), p[1..]);
    }
  }

  /** ... and a variable is referenced at a path exactly if it occurs directly in that scope. */
  lemma ReferencedIffOccurs(body: seq<Stmt>, p: Path, v: nat, arguments: set<nat>)
    ensures ReferencedAt(body, p, v, arguments) <==> exists w :: LocalNamed(w, v, arguments) && OccursAt(body, p, w)
  {
    PathsLeadToScopes(body, p);
    hide IsPath, At, ScopeAt, OccursDirectly, LocalNamed, DirectUpTo;
    if IsPath(body, p) {
      var scope := At(body, p);
      DirectAreOccurrences(scope, |scope|, v, arguments);
      if i, w :| 0 <= i < |scope| && LocalNamed(w, v, arguments) && OccursDirectly(scope[i], w) {
        assert OccursAt(body, p, w);
      }
    }
  }

  // ----- Paths reach every occurrence -----

  lemma ScopeBelow(body: seq<Stmt>, c: Step, q: Path)
    requires ScopeAt(body, [c]).Some?
    ensures ScopeAt(body, [c] + q) == ScopeAt(ScopeAt(body, [c]).value, q)
  {
    var one: Path := [c];
    assert (one + q)[1..] == q && one[1..] == [];
  }

  lemma EntersStep(body: seq<Stmt>, p: Path)
    requires p != [] && ScopeAt(body, p).Some?
    ensures ScopeAt(body, [p[0]]).Some?
  {
    var one: Path := [p[0]];
    assert one[1..] == [];
  }

  lemma {:induction false} OccursSomewhere(body: seq<Stmt>, w: Variable) returns (p: Path)
    requires OccursInBody(body, w)
    ensures OccursAt(body, p, w)
    decreases BodySize(body), 0
  {
    var i: nat :| i < |body| && OccursIn(body[i], w);
    hide OccursDirectly;
    StmtInBody(body, i);
    if OccursDirectly(body[i], w) {
      p := [];
      return;
    }
    match body[i]
    case Scope(b) => p := OccursBelow(body, (i, 0), b, w);
    case If(_, t, f) =>
      if OccursInBody(t, w) {
        p := OccursBelow(body, (i, 0), t, w);
      } else {
        p := OccursBelow(body, (i, 1), f, w);
      }
    case Loop(b) => p := OccursBelow(body, (i, 0), b, w);
    case Switch(_, b) => p := OccursBelow(body, (i, 0), b, w);
    case Case(_, b) => p := OccursBelow(body, (i, 0), b, w);
    case Default(b) => p := OccursBelow(body, (i, 0), b, w);
    case For(_, _, _, b) => p := OccursBelow(body, (i, 0), b, w);
  }

  lemma {:induction false} OccursBelow(body: seq<Stmt>, c: Step, scope: seq<Stmt>, w: Variable) returns (p: Path)
    requires ScopeAt(body, [c]) == Some(scope) && OccursInBody(scope, w)
    ensures OccursAt(body, p, w)
    decreases BodySize(scope), 1
  {
    hide ScopeAt, OccursDirectly, OccursInBody;
    var q := OccursSomewhere(scope, w);
    ScopeBelow(body, c, q);
    p := [c] + q;
  }

  lemma {:induction false} OccursAtIsInBody(body: seq<Stmt>, p: Path, w: Variable)
    requires OccursAt(body, p, w)
    ensures OccursInBody(body, w)
    decreases |p|
  {
    hide OccursDirectly;
    if p == [] {
      var i :| 0 <= i < |body| && OccursDirectly(body[i], w);
      assert OccursIn(body[i], w);
    } else {
      assert [p[0]] + p[1..] == p;
      EntersStep(body, p);
      var scope := ScopeAt(body, [p[0]]).value;
      ScopeBelow(body, p[0], p[1..]);
      OccursAtIsInBody(scope, p[1..], w);
      assert OccursIn(body[p[0].0], w);
    }
  }

  /** What a body references is what occurs anywhere in it. */
  lemma AllAreOccurrences(body: seq<Stmt>, v: nat, arguments: set<nat>)
    ensures v in All(body, arguments) <==> exists w :: LocalNamed(w, v, arguments) && OccursInBody(body, w)
  {
    hide All, OccursInBody, OccursAt, LocalNamed, ReferencedAt;
    if v in All(body, arguments) {
      var p := InAllIsReferenced(body, v, arguments);
      ReferencedIffOccurs(body, p, v, arguments);
      var w :| LocalNamed(w, v, arguments) && OccursAt(body, p, w);
      OccursAtIsInBody(body, p, w);
    }
    if w :| LocalNamed(w, v, arguments) && OccursInBody(body, w) {
      var p := OccursSomewhere(body, w);
      ReferencedIffOccurs(body, p, v, arguments);
      ReferencedIsInAll(body, p, v, arguments);
    }
  }

  // ----- Every occurrence is declared -----

  /** q encloses every scope in which a variable with this uid occurs. */
  ghost predicate AroundAll(body: seq<Stmt>, q: Path, v: nat, arguments: set<nat>) {
    forall p: Path, w :: LocalNamed(w, v, arguments) && OccursAt(body, p, w) ==> q <= p
  }

  /**
   * The table that the analysis leaves behind has an entry for each scope, and declares
   * every local variable that occurs in the body: in the innermost scope around all its
   * occurrences, and in no scope that is not within that one.
   */
  lemma OccurrencesAreDeclared(body: seq<Stmt>, table: map<Path, set<nat>>, w: Variable, arguments: set<nat>)
    returns (home: Path)
    requires AddedAll(map[], table, body, [], arguments)
    requires OccursInBody(body, w) && w.tag == Local && w.uid !in arguments
    ensures home in table && w.uid in table[home]
    ensures AroundAll(body, home, w.uid, arguments)
    ensures forall q: Path :: AroundAll(body, q, w.uid, arguments) ==> q <= home
    ensures forall q :: q in table && w.uid in table[q] ==> home <= q
  {
    hide OccursInBody, OccursAt, AddedAll, All, ReferencedAt, ListedAt, ScopeAt;
    var v := w.uid;
    assert LocalNamed(w, v, arguments);
    AllAreOccurrences(body, v, arguments);
    home := Home(body, v, arguments);
    DeclaredAroundAllUses(body, v, arguments);
    var p0 := OccursSomewhere(body, w);
    ReferencedIffOccurs(body, p0, v, arguments);
    TableDeclares(body, table, p0, v, arguments);
    forall p: Path, x | LocalNamed(x, v, arguments) && OccursAt(body, p, x)
      ensures home <= p
    {
      ReferencedIffOccurs(body, p, v, arguments);
    }
    forall q: Path | AroundAll(body, q, v, arguments)
      ensures q <= home
    {
      forall p: Path | ReferencedAt(body, p, v, arguments) ensures q <= p {
        ReferencedIffOccurs(body, p, v, arguments);
        var x :| LocalNamed(x, v, arguments) && OccursAt(body, p, x);
      }
      assert EnclosesAll(body, q, v, arguments);
    }
    forall q | q in table && v in table[q]
      ensures home <= q
    {
      TableDeclaresOnce(body, table, q, v, arguments);
    }
  }

  /** Nothing is declared that does not occur, and each entry is a scope of the body. */
  lemma DeclaredOccurs(body: seq<Stmt>, table: map<Path, set<nat>>, q: Path, v: nat, arguments: set<nat>)
    requires AddedAll(map[], table, body, [], arguments)
    ensures q in table <==> ScopeAt(body, q).Some?
    ensures q in table && v in table[q] ==> exists w :: LocalNamed(w, v, arguments) && OccursInBody(body, w)
  {
    PathsLeadToScopes(body, q);
    OneEntryPerScope(body, table, q, arguments);
    hide *;
    if q in table && v in table[q] {
      TableDeclaresOnce(body, table, q, v, arguments);
      AllAreOccurrences(body, v, arguments);
    }
  }
}
