/**
 * What building primitives leave in the body of a function
 * (src/ast/function_builder.cpp:80-102, 227-277, 433-518).
 */
module Bodies {
  import opened Integers
  import opened Types
  import opened Ast
  import opened Functions
  import B = Building

  // ----- Access to literals -----

  /** No variable of f has this uid. */
  predicate Unused(f: Function, uid: nat) {
    && (forall i | 0 <= i < |f.builtins| :: f.builtins[i].uid != uid)
    && (forall i | 0 <= i < |f.arguments| :: f.arguments[i].uid != uid)
    && (forall i | 0 <= i < |f.locals| :: f.locals[i].uid != uid)
    && (forall i | 0 <= i < |f.shareds| :: f.shareds[i].uid != uid)
  }

  /**
   * An access to a literal reads a fresh local variable that the last statement has assigned
   * the literal: with the assigned value in its place the access is the one asked for.
   */
  lemma AccessUnfolds(f: Function, ty: Type, range: Expr, index: Expr)
    requires B.Ordered(f)
    ensures var g, e := MakeAccess(f, ty, range, index).0, MakeAccess(f, ty, range, index).1;
            && e.Access?
            && if range.Literal? then
                 && |g.body| == |f.body| + 1 && g.body[..|f.body|] == f.body
                 && var s := g.body[|f.body|];
                    && s.Assign? && s.lhs == e.range && e.(range := s.rhs) == Access(ty, range, index)
                    && e.range.Ref? && e.range.variable.tag == Local && e.range.variable.ty == range.ty
                    && g.locals == f.locals + [e.range.variable] && Unused(f, e.range.variable.uid)
               else
                 g == f && e == Access(ty, range, index)
  {
  }

  // ----- Whole bodies -----

  /** The statement that a primitive appends. */
  function Appended(lib: B.Library, f: Function, op: B.Op): seq<Stmt>
    requires B.Sound(lib) && |f.arguments| == |f.bindings|
  {
    match op
    case CallOp(None, x, args) => [ExprStmt(Call(None, Callee.Builtin(x), args))]
    case CallFunction(None, k, args) =>
      if k < |lib| && Place(f, lib[k], 0, args).Ok?
      then [ExprStmt(Call(None, Custom(k), Place(f, lib[k], 0, args).value.0))] else []
    case AppendStmt(s) => [s]
    case AppendReturn(value) => [Return(value)]
    case AccessLiteral(_, range, _) =>
      if range.Literal? then [Assign(Ref(Variable(range.ty, Local, f.count)), range)] else []
    case _ => []
  }

  lemma {:induction false} PlaceKeepsBody(f: Function, callee: Function, i: nat, args: seq<Expr>)
    requires |f.arguments| == |f.bindings| && |callee.arguments| == |callee.bindings| && i <= |callee.arguments|
    requires Place(f, callee, i, args).Ok?
    ensures var g := Place(f, callee, i, args).value.1;
            && g.body == f.body && g.returnType == f.returnType
            && g.kernel == f.kernel && g.blockSize == f.blockSize
    decreases |callee.arguments| - i
  {
    hide FindTag, FindResource, IsBuiltin;
    if i < |callee.arguments| {
      var v := callee.arguments[i];
      var b := callee.bindings[i];
      if IsBuiltin(v.tag) {
        PlaceKeepsBody(Functions.Builtin(f, v.tag).0, callee, i + 1, args);
      } else if b.NoBinding? {
        PlaceKeepsBody(f, callee, i + 1, args[1..]);
      } else {
        PlaceKeepsBody(Bind(f, v.ty, b).0, callee, i + 1, args);
      }
    }
  }

  lemma CallAppends(f: Function, ty: Option<Type>, k: Key, callee: Function, args: seq<Expr>)
    requires |f.arguments| == |f.bindings| && |callee.arguments| == |callee.bindings|
    requires CallCustom(f, ty, k, callee, args).Ok?
    ensures Place(f, callee, 0, args).Ok?
    ensures var g := CallCustom(f, ty, k, callee, args).value.1;
            && g.returnType == f.returnType && g.kernel == f.kernel
            && g.body == f.body + if ty.None? then
                                    [ExprStmt(Call(None, Custom(k), Place(f, callee, 0, args).value.0))]
                                  else []
  {
    PlaceKeepsBody(f, callee, 0, args);
    hide Place, AppendNew;
  }

  lemma DoAppends(lib: B.Library, f: Function, op: B.Op)
    requires B.Sound(lib) && |f.arguments| == |f.bindings| && B.Do(lib, f, op).Ok?
    ensures B.Do(lib, f, op).value.body == f.body + Appended(lib, f, op)
    ensures B.Do(lib, f, op).value.kernel == f.kernel
    ensures !op.AppendReturn? ==> B.Do(lib, f, op).value.returnType == f.returnType
  {
    hide CallCustom, Place;
    match op
    case CallFunction(ty, k, args) => CallAppends(f, ty, k, lib[k], args);
    case _ =>
  }

  function AllAppended(lib: B.Library, kernel: bool, ops: seq<B.Op>): seq<Stmt>
    requires B.Sound(lib) && B.Run(lib, kernel, ops).Ok?
  {
    if ops == [] then [] else
      var front := ops[..|ops| - 1];
      AllAppended(lib, kernel, front) + Appended(lib, B.Run(lib, kernel, front).value, ops[|ops| - 1])
  }

  /** The body of a definition is what its primitives append, in order. */
  lemma {:induction false} BodyIsAppended(lib: B.Library, kernel: bool, ops: seq<B.Op>)
    requires B.Sound(lib) && B.Run(lib, kernel, ops).Ok?
    ensures B.Run(lib, kernel, ops).value.body == AllAppended(lib, kernel, ops)
    ensures B.Run(lib, kernel, ops).value.kernel == kernel
  {
    hide B.Do, Appended;
    if ops != [] {
      var front := ops[..|ops| - 1];
      BodyIsAppended(lib, kernel, front);
      DoAppends(lib, B.Run(lib, kernel, front).value, ops[|ops| - 1]);
    }
  }

  lemma {:induction false} BodyGrows(lib: B.Library, kernel: bool, ops: seq<B.Op>, i: nat)
    requires B.Sound(lib) && B.Run(lib, kernel, ops).Ok? && i < |ops|
    ensures B.Run(lib, kernel, ops[..i]).Ok?
    ensures var f := B.Run(lib, kernel, ops[..i]).value;
            f.body + Appended(lib, f, ops[i]) <= B.Run(lib, kernel, ops).value.body
    ensures B.Run(lib, kernel, ops[..i]).value.kernel == kernel
    decreases |ops|
  {
    hide B.Do, Appended;
    var n := |ops| - 1;
    var front := ops[..n];
    BodyIsAppended(lib, kernel, front);
    DoAppends(lib, B.Run(lib, kernel, front).value, ops[n]);
    if i < n {
      BodyGrows(lib, kernel, front, i);
      assert front[..i] == ops[..i];
    }
  }

  /**
   * Every literal that a definition accesses is assigned to a fresh local variable, in the
   * open scope, by the statement right behind those appended before.
   */
  lemma LiteralsAreAssigned(lib: B.Library, kernel: bool, ops: seq<B.Op>, i: nat)
    requires B.Sound(lib) && B.Run(lib, kernel, ops).Ok?
    requires i < |ops| && ops[i].AccessLiteral? && ops[i].range.Literal?
    ensures B.Run(lib, kernel, ops[..i]).Ok?
    ensures var f, g := B.Run(lib, kernel, ops[..i]).value, B.Run(lib, kernel, ops).value;
            && |f.body| < |g.body| && f.body == g.body[..|f.body|]
            && var s := g.body[|f.body|];
               && s.Assign? && s.lhs.Ref? && s.rhs == ops[i].range
               && s.lhs.variable.tag == Local && Unused(f, s.lhs.variable.uid)
  {
    hide B.Run, B.Ordered;
    BodyGrows(lib, kernel, ops, i);
    B.DefinitionsAreOrdered(lib, kernel, ops[..i]);
    var f := B.Run(lib, kernel, ops[..i]).value;
    AccessUnfolds(f, ops[i].ty, ops[i].range, ops[i].index);
  }

  // ----- Returns -----

  /** A value of some type is returned. */
  predicate Returns(op: B.Op) {
    op.AppendReturn? && op.value.Some? && TypeOf(op.value.value).Some?
  }

  lemma {:induction false} ReturnTypeKnown(lib: B.Library, kernel: bool, ops: seq<B.Op>)
    requires B.Sound(lib) && B.Run(lib, kernel, ops).Ok?
    ensures B.Run(lib, kernel, ops).value.kernel == kernel
    ensures var f := B.Run(lib, kernel, ops).value;
            && (f.returnType.Some? ==> exists i :: 0 <= i < |ops| && Returns(ops[i]))
            && forall i | 0 <= i < |ops| && Returns(ops[i]) ::
                 ops[i].AppendReturn? && ops[i].value.Some? && !kernel
                 && f.returnType.Some? && f.returnType == TypeOf(ops[i].value.value)
  {
    hide B.Do, Returns, AllAppended;
    BodyIsAppended(lib, kernel, ops);
    if ops != [] {
      var front, op := ops[..|ops| - 1], ops[|ops| - 1];
      ReturnTypeKnown(lib, kernel, front);
      ReturnTypeSet(lib, B.Run(lib, kernel, front).value, op);
      assert forall i | 0 <= i < |front| :: ops[i] == front[i];
      if Returns(op) {
        assert Returns(ops[|ops| - 1]);
      } else if i :| 0 <= i < |front| && Returns(front[i]) {
        assert Returns(ops[i]);
      }
    }
  }

  lemma ReturnTypeSet(lib: B.Library, f: Function, op: B.Op)
    requires B.Sound(lib) && |f.arguments| == |f.bindings| && B.Do(lib, f, op).Ok?
    ensures var g := B.Do(lib, f, op).value;
            if Returns(op) then
              && op.AppendReturn? && op.value.Some? && !f.kernel && g.returnType == TypeOf(op.value.value)
              && g.returnType.Some? && (f.returnType.Some? ==> f.returnType == g.returnType)
            else
              g.returnType == f.returnType
  {
    hide TypeOf;
    if !op.AppendReturn? {
      DoAppends(lib, f, op);
    }
  }

  /**
   * A return is accepted exactly if a kernel returns no value and the type agrees with that of
   * every value returned before.
   */
  lemma ReturnAcceptedIff(lib: B.Library, kernel: bool, ops: seq<B.Op>, value: Option<Expr>)
    requires B.Sound(lib) && B.Run(lib, kernel, ops).Ok?
    ensures B.Do(lib, B.Run(lib, kernel, ops).value, B.AppendReturn(value)).Ok? <==>
            && (kernel ==> value.None?)
            && forall i | 0 <= i < |ops| && Returns(ops[i]) ::
                 value.Some? && TypeOf(value.value) == TypeOf(ops[i].value.value)
  {
    ReturnTypeKnown(lib, kernel, ops);
    hide B.Run, TypeOf;
  }

  // ----- Which primitives are accepted -----

  /** A primitive other than a return fails only for these reasons. */
  lemma AcceptedIff(lib: B.Library, f: Function, op: B.Op)
    requires B.Sound(lib) && |f.arguments| == |f.bindings| && !op.AppendReturn?
    ensures B.Do(lib, f, op).Ok? <==>
            match op
            case MakeBuiltin(tag) => tag in {ThreadId, BlockId, DispatchId, DispatchSize}
            case MakeArgument(_, tag) =>
              tag in {Local, Reference, BufferTag, TextureTag, BindlessArrayTag, AccelTag}
            case MakeBinding(_, b) => b != NoBinding
            case UseConstant(ty, _) => ty.Array?
            case CallOp(_, x, _) => x != 0
            case CallFunction(_, k, args) =>
              k < |lib| && !lib[k].kernel && |args| == B.ExplicitBefore(lib[k], |lib[k].arguments|)
            case _ => true
  {
    hide CallCustom, B.ExplicitBefore, Bind, Functions.Builtin;
    if op.CallFunction? && op.callee < |lib| {
      B.CallSucceedsIff(f, op.result, op.callee, lib[op.callee], op.args);
    }
  }

  /**
   * The checks at the end of a definition fail exactly for a function that traces rays, itself
   * or through calls, and has shared variables or synchronizes a block.
   */
  lemma FinishesIff(lib: B.Library, defs: seq<B.Definition>, n: nat)
    requires B.IsLibrary(lib, defs) && n < |lib|
    ensures Finish(lib[n]).Ok? <==>
            !(&& (B.Performs(defs, n, TRACE_CLOSEST) || B.Performs(defs, n, TRACE_ANY))
              && (lib[n].shareds != [] || B.Performs(defs, n, SYNCHRONIZE_BLOCK)))
  {
    assert B.FinishedBy(lib, n, defs[n]);
    ReturnTypeKnown(lib[..n], defs[n].kernel, defs[n].ops);
    hide B.Performs, B.Run, Returns;
    B.OpsAreReachable(lib, defs, n, TRACE_CLOSEST);
    B.OpsAreReachable(lib, defs, n, TRACE_ANY);
    B.OpsAreReachable(lib, defs, n, SYNCHRONIZE_BLOCK);
  }

  // ----- Folded swizzles -----

  /** The code of a swizzle holds the components to pick, four bits each, the first one lowest. */
  function SwizzleCode(components: seq<nat>): nat {
    if components == [] then 0 else components[0] + 16 * SwizzleCode(components[1..])
  }

  lemma DivideTwice(x: nat, a: nat, b: nat)
    requires a > 0 && b > 0
    ensures a * b > 0 && x / (a * b) == x / a / b
  {
    var y := x / a;
    assert x == y * a + x % a;
    assert y == y / b * b + y % b;
    QuotientOfParts(x, y, a, b, y / b, y % b, x % a);
  }

  lemma QuotientOfParts(x: nat, y: nat, a: nat, b: nat, q: nat, r: nat, s: nat)
    requires s < a && r < b && x == y * a + s && y == q * b + r
    ensures a * b > 0 && x / (a * b) == q
  {
    Remainder(r, b, s, a);
    Regroup(q, b, r, a);
    DivModUnique(r * a + s, q, a * b);
  }

  lemma Remainder(r: nat, b: nat, s: nat, a: nat)
    requires r < b && s < a
    ensures r * a + s < a * b
  {
    MulMonotone(r + 1, b, a);
  }

  lemma Regroup(q: nat, b: nat, r: nat, a: nat)
    ensures (q * b + r) * a == q * (a * b) + r * a
  {
  }

  lemma {:induction false} DigitOfCode(components: seq<nat>, k: nat)
    requires k < |components| && forall i | 0 <= i < |components| :: components[i] < 4
    ensures Digit4(SwizzleCode(components), k) == components[k]
    decreases k
  {
    hide Digit4;
    var rest := SwizzleCode(components[1..]);
    if k == 0 {
      FirstDigit(components[0], rest);
    } else {
      DigitOfCode(components[1..], k - 1);
      NextDigit(components[0], rest, k);
    }
  }

  lemma FirstDigit(c: nat, rest: nat)
    requires c < 4
    ensures Digit4(c + 16 * rest, 0) == c
  {
    var code := c + 16 * rest;
    assert code % 4 == c;
    assert Power16(0) == 1 && code / 1 == code;
  }

  lemma NextDigit(c: nat, rest: nat, k: nat)
    requires c < 4 && k > 0
    ensures Digit4(c + 16 * rest, k) == Digit4(rest, k - 1)
  {
    var code := c + 16 * rest;
    assert code / 16 == rest;
    DivideTwice(code, 16, Power16(k - 1));
  }

  /** A swizzle of a literal vector picks its components one by one, and fails if one is out of range. */
  lemma SwizzlePicks(ty: Type, source: Type, kind: Kind, xs: seq<int>, components: seq<nat>)
    requires 1 <= |components| <= 4 && forall k | 0 <= k < |components| :: components[k] < 4
    ensures var r := MakeSwizzle(ty, Literal(source, VectorValue(kind, xs)), |components|, SwizzleCode(components));
            && (r.Ok? <==> forall k | 0 <= k < |components| :: components[k] < |xs|)
            && (r.Ok? ==>
                  && r.value.Literal?
                  && (|components| == 1 ==> r.value.value == ScalarValue(kind, xs[components[0]]))
                  && (|components| > 1 ==>
                        && r.value.value.VectorValue? && r.value.value.kind == kind
                        && |r.value.value.xs| == |components|
                        && forall k | 0 <= k < |components| :: r.value.value.xs[k] == xs[components[k]]))
  {
    forall k: nat | k < |components|
      ensures Digit4(SwizzleCode(components), k) == components[k]
    {
      DigitOfCode(components, k);
    }
    hide Digit4, SwizzleCode;
  }
}
