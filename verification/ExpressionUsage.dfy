/**
 * Which variables an expression reads and an assignment writes: what the constructors of
 * src/ast/expression.h and src/ast/statement.h mark, for whole expression trees.
 */
module ExpressionUsage {
  import opened Types
  import opened Ast
  import opened Occurrences
  import U = UsageMarking

  /** The variable that the expression is, or is a part of. */
  function Target(e: Expr): Option<nat> {
    match e
    case Ref(v) => Some(v.uid)
    case Member(_, x, _) => Target(x)
    case Swizzle(_, x, _, _) => Target(x)
    case Access(_, r, _) => Target(r)
    case _ => None
  }

  ghost predicate Named(e: Expr, uid: nat) {
    exists w: Variable :: w.uid == uid && Occurs(e, w)
  }

  /** Calls are of operations that do not write. */
  predicate Plain(e: Expr, variables: nat) {
    match e
    case Unary(_, _, x) => Plain(x, variables)
    case Binary(_, _, l, r) => Plain(l, variables) && Plain(r, variables)
    case Member(_, x, _) => Plain(x, variables)
    case Swizzle(_, x, _, _) => Plain(x, variables)
    case Access(_, r, i) => Plain(r, variables) && Plain(i, variables)
    case Literal(_, _) => true
    case Ref(v) => v.uid < variables
    case Constant(_, _) => true
    case Call(_, callee, args) =>
      && callee.Builtin? && callee.op !in U.WRITERS
      && forall i | 0 <= i < |args| :: Plain(args[i], variables)
    case Cast(_, _, x) => Plain(x, variables)
  }

  /** Read when the expression is made: all that occurs in it but the variable it is a part of. */
  ghost predicate ReadIn(e: Expr, uid: nat) {
    match e
    case Unary(_, _, x) => Named(x, uid)
    case Binary(_, _, l, r) => Named(l, uid) || Named(r, uid)
    case Member(_, x, _) => ReadIn(x, uid)
    case Swizzle(_, x, _, _) => ReadIn(x, uid)
    case Access(_, r, i) => Named(r, uid) || Named(i, uid)
    case Literal(_, _) => false
    case Ref(_) => false
    case Constant(_, _) => false
    case Call(_, _, args) => exists i | 0 <= i < |args| :: Named(args[i], uid)
    case Cast(_, _, x) => Named(x, uid)
  }

  lemma {:induction false} NamedIff(e: Expr, uid: nat)
    ensures Named(e, uid) <==> ReadIn(e, uid) || Target(e) == Some(uid)
    decreases e
  {
    match e
    case Ref(v) => assert Occurs(e, v);
    case Member(_, x, _) => NamedIff(x, uid); SameNames(e, x, uid);
    case Swizzle(_, x, _, _) => NamedIff(x, uid); SameNames(e, x, uid);
    case Access(_, r, i) => NamedIff(r, uid); BothNames(e, r, i, uid);
    case Unary(_, _, x) => SameNames(e, x, uid);
    case Cast(_, _, x) => SameNames(e, x, uid);
    case Binary(_, _, l, r) => BothNames(e, l, r, uid);
    case Call(_, _, args) => ArgumentNames(e, uid);
    case Literal(_, _) =>
    case Constant(_, _) =>
  }

  lemma SameNames(e: Expr, x: Expr, uid: nat)
    requires forall w :: Occurs(e, w) <==> Occurs(x, w)
    ensures Named(e, uid) <==> Named(x, uid)
  {
    hide Occurs;
  }

  lemma BothNames(e: Expr, x: Expr, y: Expr, uid: nat)
    requires forall w :: Occurs(e, w) <==> Occurs(x, w) || Occurs(y, w)
    ensures Named(e, uid) <==> Named(x, uid) || Named(y, uid)
  {
    hide Occurs;
  }

  lemma ArgumentNames(e: Expr, uid: nat)
    requires e.Call?
    ensures Named(e, uid) <==> exists i | 0 <= i < |e.arguments| :: Named(e.arguments[i], uid)
  {
    var args := e.arguments;
    if w: Variable :| w.uid == uid && Occurs(e, w) {
      var i :| 0 <= i < |args| && Occurs(args[i], w);
      assert Named(args[i], uid);
    }
    if i :| 0 <= i < |args| && Named(args[i], uid) {
      var w: Variable :| w.uid == uid && Occurs(args[i], w);
      assert Occurs(e, w);
    }
  }

  // ----- Making expressions -----

  lemma {:induction false} RootsStay(nodes: seq<U.Node>, more: seq<U.Node>, e: nat)
    requires e < |nodes| && nodes <= more
    ensures U.Root(more, e) == U.Root(nodes, e)
    decreases e
  {
    if nodes[e].Chain? && nodes[e].child < e {
      RootsStay(nodes, more, nodes[e].child);
    }
  }

  /** Since `before` no variable was written, and exactly those in `vs` were read. */
  ghost predicate ReadSince(before: seq<U.Usage>, after: seq<U.Usage>, vs: iset<nat>) {
    && |before| == |after|
    && forall uid: nat | uid < |after| ::
         && after[uid].write == before[uid].write
         && (after[uid].read <==> before[uid].read || uid in vs)
  }

  ghost function ReadOf(e: Expr): iset<nat> {
    iset uid | ReadIn(e, uid)
  }

  ghost function ReadOfAll(es: seq<Expr>): iset<nat> {
    iset uid | SomeReads(es, uid)
  }

  ghost predicate SomeReads(es: seq<Expr>, uid: nat) {
    exists i | 0 <= i < |es| :: ReadIn(es[i], uid)
  }

  ghost function TargetsOf(es: seq<Expr>): iset<nat> {
    iset uid | SomeTarget(es, uid)
  }

  predicate SomeTarget(es: seq<Expr>, uid: nat) {
    exists i | 0 <= i < |es| :: Target(es[i]) == Some(uid)
  }

  lemma ReadTwice(a: seq<U.Usage>, b: seq<U.Usage>, c: seq<U.Usage>, vs: iset<nat>, ws: iset<nat>)
    requires ReadSince(a, b, vs) && ReadSince(b, c, ws)
    ensures ReadSince(a, c, vs + ws)
  {
  }

  /** What is read in the operands and the operands themselves: all that occurs in them. */
  lemma OperandsRead(e: Expr)
    requires !e.Ref? && !e.Member? && !e.Swizzle?
    ensures ReadOf(e) == ReadOfAll(Operands(e)) + TargetsOf(Operands(e))
  {
    var es := Operands(e);
    forall uid: nat ensures uid in ReadOf(e) <==> uid in ReadOfAll(es) + TargetsOf(es) {
      NamedOperand(e, uid);
      forall i | 0 <= i < |es| ensures Named(es[i], uid) <==> ReadIn(es[i], uid) || Target(es[i]) == Some(uid) {
        NamedIff(es[i], uid);
      }
    }
  }

  lemma NamedOperand(e: Expr, uid: nat)
    requires !e.Ref? && !e.Member? && !e.Swizzle?
    ensures ReadIn(e, uid) <==> exists i | 0 <= i < |Operands(e)| :: Named(Operands(e)[i], uid)
  {
    hide Named;
    var es := Operands(e);
    match e
    case Unary(_, _, x) => assert es[0] == x;
    case Binary(_, _, l, r) => assert es[0] == l && es[1] == r;
    case Access(_, r, i) => assert es[0] == r && es[1] == i;
    case Cast(_, _, x) => assert es[0] == x;
    case Call(_, _, _) =>
    case Literal(_, _) =>
    case Constant(_, _) =>
  }

  lemma OperandsSmaller(e: Expr)
    ensures ExprsSize(Operands(e)) < ExprSize(e)
  {
    var es := Operands(e);
    if !e.Call? && es != [] {
      assert ExprsSize(es) == ExprSize(es[0]) + ExprsSize(es[1..]);
      assert |es| > 1 ==> es[1..] == [es[1]] && ExprsSize([es[1]]) == ExprSize(es[1]) + ExprsSize([es[1]][1..]);
    }
  }

  lemma PlainOperands(e: Expr, variables: nat)
    requires Plain(e, variables)
    ensures forall i | 0 <= i < |Operands(e)| :: Plain(Operands(e)[i], variables)
  {
  }

  /** Marking expressions as read reads their targets. */
  lemma MarkedTargets(nodes: seq<U.Node>, table: seq<U.Usage>, ns: seq<nat>, es: seq<Expr>, marks: seq<U.Mark>)
    requires |ns| == |es| == |marks|
    requires forall i | 0 <= i < |ns| ::
               && ns[i] < |nodes| && U.Root(nodes, ns[i]) == Target(es[i])
               && marks[i] == U.Mark(ns[i], U.READ)
    ensures ReadSince(table, U.NaiveMarks(nodes, table, marks), TargetsOf(es))
  {
    hide U.Root, Target;
    forall uid: nat | uid < |table|
      ensures var after := U.NaiveMarks(nodes, table, marks);
              && after[uid].write == table[uid].write
              && (after[uid].read <==> table[uid].read || uid in TargetsOf(es))
    {
      U.MarksEffect(nodes, table, marks, uid);
      if i :| 0 <= i < |es| && Target(es[i]) == Some(uid) {
        assert marks[i].u.read && U.Root(nodes, marks[i].e) == Some(uid);
      }
    }
  }

  predicate Made(nodes: seq<U.Node>, ns: seq<nat>, es: seq<Expr>) {
    && |ns| == |es|
    && forall i | 0 <= i < |ns| :: ns[i] < |nodes| && U.Root(nodes, ns[i]) == Target(es[i])
  }

  lemma StillMade(nodes: seq<U.Node>, more: seq<U.Node>, ns: seq<nat>, es: seq<Expr>)
    requires Made(nodes, ns, es) && nodes <= more
    ensures Made(more, ns, es)
  {
    hide U.Root, Target;
    forall i | 0 <= i < |ns| ensures U.Root(more, ns[i]) == U.Root(nodes, ns[i]) {
      RootsStay(nodes, more, ns[i]);
    }
  }

  /** The constructor of one expression. */
  method Construct(b: U.Expressions, e: Expr, ns: seq<nat>) returns (n: nat)
    requires b.Valid() && Plain(e, |b.table|) && Made(b.nodes, ns, Operands(e))
    modifies b
    ensures b.Valid() && n < |b.nodes| && old(b.nodes) <= b.nodes
    ensures U.Root(b.nodes, n) == Target(e)
    ensures if e.Ref? || e.Member? || e.Swizzle? then b.table == old(b.table)
            else ReadSince(old(b.table), b.table, TargetsOf(Operands(e)))
  {
    ghost var marks: seq<U.Mark> := [];
    match e {
      case Ref(v) => n := b.MakeRef(v.uid);
      case Member(_, _, _) => n := b.MakeMember(ns[0]);
      case Swizzle(_, _, _, _) => n := b.MakeMember(ns[0]);
      case Unary(_, _, _) =>
        n := b.MakeUnary(ns[0]);
        marks := [U.Mark(ns[0], U.READ)];
      case Cast(_, _, _) =>
        n := b.MakeUnary(ns[0]);
        marks := [U.Mark(ns[0], U.READ)];
      case Binary(_, _, _, _) =>
        n := b.MakeBinary(ns[0], ns[1]);
        marks := [U.Mark(ns[0], U.READ), U.Mark(ns[1], U.READ)];
      case Access(_, _, _) =>
        n := b.MakeAccess(ns[0], ns[1]);
        marks := [U.Mark(ns[0], U.READ), U.Mark(ns[1], U.READ)];
      case Call(_, callee, _) =>
        n := b.MakeBuiltinCall(callee.op, ns);
        marks := U.BuiltinCallMarks(callee.op, ns);
        U.WritersAreNamed(callee.op);
      case Literal(_, _) => n := b.Make(U.Opaque, []);
      case Constant(_, _) => n := b.Make(U.Opaque, []);
    }
    StillMade(old(b.nodes), b.nodes, ns, Operands(e));
    if !e.Ref? && !e.Member? && !e.Swizzle? {
      MarkedTargets(b.nodes, old(b.table), ns, Operands(e), marks);
    }
  }

  /** Makes the expression after its operands; its constructor marks what it reads. */
  method Make(b: U.Expressions, e: Expr) returns (n: nat)
    requires b.Valid() && Plain(e, |b.table|)
    modifies b
    ensures b.Valid() && n < |b.nodes| && old(b.nodes) <= b.nodes
    ensures U.Root(b.nodes, n) == Target(e)
    ensures ReadSince(old(b.table), b.table, ReadOf(e))
    decreases ExprSize(e), 0
  {
    hide U.Root, Target, Plain, Operands;
    OperandsSmaller(e);
    PlainOperands(e, |b.table|);
    var ns := MakeAll(b, Operands(e));
    ghost var between := b.table;
    n := Construct(b, e, ns);
    if e.Member? || e.Swizzle? || e.Ref? {
      ChainReads(e);
    } else {
      OperandsRead(e);
      ReadTwice(old(b.table), between, b.table, ReadOfAll(Operands(e)), TargetsOf(Operands(e)));
    }
  }

  lemma ChainReads(e: Expr)
    requires e.Member? || e.Swizzle? || e.Ref?
    ensures ReadOf(e) == ReadOfAll(Operands(e))
  {
    var es := Operands(e);
    forall uid: nat ensures uid in ReadOf(e) <==> uid in ReadOfAll(es) {
      if !e.Ref? {
        assert ReadIn(e, uid) <==> ReadIn(es[0], uid);
      }
    }
  }

  method MakeAll(b: U.Expressions, es: seq<Expr>) returns (ns: seq<nat>)
    requires b.Valid() && forall i | 0 <= i < |es| :: Plain(es[i], |b.table|)
    modifies b
    ensures b.Valid() && old(b.nodes) <= b.nodes && Made(b.nodes, ns, es)
    ensures ReadSince(old(b.table), b.table, ReadOfAll(es))
    decreases ExprsSize(es), 1
  {
    hide U.Root, Target, Plain, ReadIn;
    ns := [];
    for i := 0 to |es|
      invariant b.Valid() && old(b.nodes) <= b.nodes && Made(b.nodes, ns, es[..i])
      invariant ReadSince(old(b.table), b.table, ReadOfAll(es[..i]))
    {
      ElementSize(es, i);
      ghost var nodes, table := b.nodes, b.table;
      var n := Make(b, es[i]);
      StillMade(nodes, b.nodes, ns, es[..i]);
      ReadTwice(old(b.table), table, b.table, ReadOfAll(es[..i]), ReadOf(es[i]));
      assert es[..i + 1] == es[..i] + [es[i]];
      OneMoreRead(es[..i], es[i]);
      ns := ns + [n];
    }
    assert es[..|es|] == es;
  }

  lemma OneMoreRead(es: seq<Expr>, e: Expr)
    ensures ReadOfAll(es + [e]) == ReadOfAll(es) + ReadOf(e)
  {
    hide ReadIn;
    forall uid: nat ensures uid in ReadOfAll(es + [e]) <==> uid in ReadOfAll(es) + ReadOf(e) {
      assert (es + [e])[|es|] == e;
      if i :| 0 <= i < |es| && ReadIn(es[i], uid) {
        assert ReadIn((es + [e])[i], uid);
      }
    }
  }

  // ----- Statements -----

  /** An expression that is read, in a condition or a return: exactly what occurs in it is marked as read. */
  method Read(b: U.Expressions, e: Expr)
    requires b.Valid() && Plain(e, |b.table|)
    modifies b
    ensures b.Valid() && |b.table| == |old(b.table)|
    ensures forall uid: nat | uid < |b.table| ::
              && b.table[uid].write == old(b.table)[uid].write
              && (b.table[uid].read <==> old(b.table)[uid].read || Named(e, uid))
  {
    var n := Make(b, e);
    ghost var table := b.table;
    var marks := [U.Mark(n, U.READ)];
    MarkedTargets(b.nodes, table, [n], [e], marks);
    b.MarkAll(marks);
    forall uid: nat ensures Named(e, uid) <==> uid in ReadOf(e) || Target(e) == Some(uid) {
      NamedIff(e, uid);
    }
    assert [e][0] == e;
  }

  /**
   * An assignment writes the variable that its left side is a part of, and no other; it reads
   * what occurs on the right, and on the left what is needed to find the part.
   */
  method Assign(b: U.Expressions, l: Expr, r: Expr)
    requires b.Valid() && Plain(l, |b.table|) && Plain(r, |b.table|)
    modifies b
    ensures b.Valid() && |b.table| == |old(b.table)|
    ensures forall uid: nat | uid < |b.table| ::
              && (b.table[uid].write <==> old(b.table)[uid].write || Target(l) == Some(uid))
              && (b.table[uid].read <==> old(b.table)[uid].read || ReadIn(l, uid) || Named(r, uid))
  {
    hide U.Root, Target, Plain, ReadIn, Named;
    var m := Make(b, l);
    ghost var nodes, first := b.nodes, b.table;
    var n := Make(b, r);
    RootsStay(nodes, b.nodes, m);
    ReadTwice(old(b.table), first, b.table, ReadOf(l), ReadOf(r));
    b.Assign(m, n);
    forall uid: nat ensures Named(r, uid) <==> uid in ReadOf(r) || Target(r) == Some(uid) {
      NamedIff(r, uid);
    }
  }
}
