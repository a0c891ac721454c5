/**
 * What holds after any sequence of building primitives (src/ast/function_builder.cpp):
 * arguments and their bindings, the placement of call arguments, and the lists of used
 * callables, builtin operations and constants.
 */
module Building {
  import opened Types
  import opened Ast
  import opened Functions

  /** Finished functions, in the order in which they were finished; a function's key is its position. */
  type Library = seq<Function>

  datatype Op =
    | MakeLocal(ty: Type)
    | MakeShared(ty: Type)
    | MakeArgument(ty: Type, tag: Tag)
    | MakeBinding(ty: Type, wanted: Binding)
    | MakeBuiltin(tag: Tag)
    | UseConstant(ty: Type, key: Key)
    | CallOp(result: Option<Type>, op: nat, args: seq<Expr>)
    | CallFunction(result: Option<Type>, callee: Key, args: seq<Expr>)
    | AppendStmt(s: Stmt)
    | AppendReturn(value: Option<Expr>)
    | AccessLiteral(ty: Type, range: Expr, index: Expr)
    | SetBlockSize(size: (nat, nat, nat))

  function Forget<T>(r: Result<(T, Function)>): Result<Function> {
    if r.Ok? then Ok(r.value.1) else Err(r.message)
  }

  /** Arguments are created by argument, reference, buffer, texture, bindless_array and accel. */
  predicate ArgumentTag(tag: Tag) {
    !IsBuiltin(tag) && !tag.Shared?
  }

  predicate Sound(lib: Library) {
    forall k | 0 <= k < |lib| :: |lib[k].arguments| == |lib[k].bindings|
  }

  function Do(lib: Library, f: Function, op: Op): (r: Result<Function>)
    requires |f.arguments| == |f.bindings| && Sound(lib)
    ensures r.Ok? ==> |r.value.arguments| == |r.value.bindings|
  {
    match op
    case MakeLocal(ty) => Ok(Functions.Local(f, ty).0)
    case MakeShared(ty) => Ok(Functions.Shared(f, ty).0)
    case MakeArgument(ty, tag) =>
      if ArgumentTag(tag) then Ok(Argument(f, ty, tag, NoBinding).0) else Err("No such primitive")
    case MakeBinding(ty, b) =>
      if b.NoBinding? then Err("No such primitive") else Ok(Bind(f, ty, b).0)
    case MakeBuiltin(tag) =>
      if IsBuiltin(tag) then Ok(Functions.Builtin(f, tag).0) else Err("No such primitive")
    case UseConstant(ty, key) =>
      var r :- MakeConstant(f, ty, key);
      Ok(r.0)
    case CallOp(ty, op, args) => Forget(CallBuiltin(f, ty, op, args))
    case CallFunction(ty, k, args) =>
      if k >= |lib| then Err("No such function") else Forget(CallCustom(f, ty, k, lib[k], args))
    case AppendStmt(s) => Ok(Append(f, s))
    case AppendReturn(value) => MakeReturn(f, value)
    case AccessLiteral(ty, range, index) => Ok(MakeAccess(f, ty, range, index).0)
    case SetBlockSize(size) => Ok(if f.kernel then f.(blockSize := size) else f)
  }

  /** A whole definition. */
  function Run(lib: Library, kernel: bool, ops: seq<Op>): (r: Result<Function>)
    requires Sound(lib)
    ensures r.Ok? ==> |r.value.arguments| == |r.value.bindings|
  {
    if ops == [] then Ok(NewFunction(kernel)) else
      var f :- Run(lib, kernel, ops[..|ops| - 1]);
      Do(lib, f, ops[|ops| - 1])
  }

  // ----- Arguments and bindings -----

  predicate Increasing(vs: seq<Variable>) {
    forall i, j | 0 <= i < j < |vs| :: vs[i].uid < vs[j].uid
  }

  predicate NoneTwice(arguments: seq<Variable>, bindings: seq<Binding>)
    requires |arguments| == |bindings|
  {
    forall i, j | 0 <= i < j < |arguments| ::
      !SameView(arguments[i], bindings[i], arguments[j].ty, bindings[j])
  }

  /** A bound argument has the tag and the type of its resource. */
  predicate Fitting(v: Variable, b: Binding) {
    b != NoBinding ==> v.tag == ResourceTag(b) && v.ty == ResourceType(b, v.ty)
  }

  predicate DistinctTags(vs: seq<Variable>) {
    forall i, j | 0 <= i < j < |vs| :: vs[i].tag != vs[j].tag
  }

  predicate Ordered(f: Function) {
    && |f.arguments| == |f.bindings|
    && Below(f.arguments, f.count) && Below(f.builtins, f.count)
    && Below(f.locals, f.count) && Below(f.shareds, f.count)
    && Increasing(f.arguments) && Increasing(f.builtins) && Increasing(f.locals) && Increasing(f.shareds)
    && NoneTwice(f.arguments, f.bindings)
    && (forall i | 0 <= i < |f.arguments| :: Fitting(f.arguments[i], f.bindings[i]))
    && DistinctTags(f.builtins)
  }

  /** One request to bind a resource. */
  datatype Request = Request(ty: Type, binding: Binding)

  predicate Answers(v: Variable, bound: Binding, r: Request) {
    SameView(v, bound, r.ty, r.binding)
  }

  predicate Answered(f: Function, r: Request)
    requires |f.arguments| == |f.bindings|
  {
    exists i | 0 <= i < |f.arguments| :: Satisfies(f.arguments[i], f.bindings[i], r)
  }

  predicate Satisfies(v: Variable, bound: Binding, r: Request) {
    Answers(v, bound, r) && (r.binding.BufferBinding? ==> r.binding.size <= bound.size)
  }

  lemma WidenedSatisfies(v: Variable, bound: Binding, r: Request, q: Request)
    ensures Satisfies(v, bound, q) ==> Satisfies(v, Widened(bound, r.binding), q)
    ensures Answers(v, bound, r) ==> Satisfies(v, Widened(bound, r.binding), r)
  {
  }

  /** The size of a bound buffer was requested. */
  predicate SizeRequested(v: Variable, bound: Binding, rs: seq<Request>) {
    exists r | r in rs :: Answers(v, bound, r) && r.binding.BufferBinding? && r.binding.size == bound.size
  }

  /** Every requested resource is bound, a buffer with the largest size requested for it. */
  predicate Served(f: Function, rs: seq<Request>)
    requires |f.arguments| == |f.bindings|
  {
    && (forall r | r in rs :: Answered(f, r))
    && forall i | 0 <= i < |f.arguments| ::
         f.bindings[i].BufferBinding? ==> SizeRequested(f.arguments[i], f.bindings[i], rs)
  }

  lemma NewArgumentOrdered(f: Function, ty: Type, tag: Tag, b: Binding)
    requires Ordered(f)
    requires Fitting(Variable(ty, tag, f.count), b)
    requires forall i | 0 <= i < |f.arguments| :: !SameView(f.arguments[i], f.bindings[i], ty, b)
    ensures Ordered(Argument(f, ty, tag, b).0)
  {
    hide SameView, Fitting;
  }

  lemma NewArgumentServed(f: Function, ty: Type, tag: Tag, b: Binding, rs: seq<Request>, r: Request)
    requires Ordered(f) && Served(f, rs)
    requires b == r.binding != NoBinding && ty == ResourceType(b, r.ty)
    ensures Served(Argument(f, ty, tag, b).0, rs + [r])
  {
    var g := Argument(f, ty, tag, b).0;
    var n := |f.arguments|;
    assert Satisfies(g.arguments[n], g.bindings[n], r);
    assert Answered(g, r);
    forall q | q in rs
      ensures Answered(g, q)
    {
      var i :| 0 <= i < n && Satisfies(f.arguments[i], f.bindings[i], q);
      assert g.arguments[i] == f.arguments[i] && g.bindings[i] == f.bindings[i];
    }
    forall i | 0 <= i <= n && g.bindings[i].BufferBinding?
      ensures SizeRequested(g.arguments[i], g.bindings[i], rs + [r])
    {
      if i < n {
        assert SizeRequested(f.arguments[i], f.bindings[i], rs);
      } else {
        assert r in rs + [r];
      }
    }
  }

  /** Binding a resource again keeps one binding, with the larger size. */
  lemma BindKeeps(f: Function, ty: Type, b: Binding, rs: seq<Request>)
    requires Ordered(f) && Served(f, rs) && b != NoBinding
    ensures Ordered(Bind(f, ty, b).0)
    ensures Served(Bind(f, ty, b).0, rs + [Request(ty, b)])
  {
    var k := FindResource(f, 0, ty, b);
    if k < |f.arguments| {
      RebindOrdered(f, ty, b, k);
      RebindServed(f, ty, b, k, rs);
    } else {
      forall i | 0 <= i < |f.arguments|
        ensures !SameView(f.arguments[i], f.bindings[i], ResourceType(b, ty), b)
      {
      }
      NewArgumentOrdered(f, ResourceType(b, ty), ResourceTag(b), b);
      NewArgumentServed(f, ResourceType(b, ty), ResourceTag(b), b, rs, Request(ty, b));
    }
  }

  lemma WidenedIsSame(v: Variable, bound: Binding, wanted: Binding, w: Variable, other: Binding)
    ensures SameView(v, Widened(bound, wanted), w.ty, other) == SameView(v, bound, w.ty, other)
    ensures SameView(w, other, v.ty, Widened(bound, wanted)) == SameView(w, other, v.ty, bound)
    ensures Fitting(v, Widened(bound, wanted)) == Fitting(v, bound)
  {
  }

  lemma RebindOrdered(f: Function, ty: Type, b: Binding, k: nat)
    requires Ordered(f) && k < |f.arguments| && SameView(f.arguments[k], f.bindings[k], ty, b)
    ensures Ordered(f.(bindings := f.bindings[k := Widened(f.bindings[k], b)]))
  {
    var g := f.(bindings := f.bindings[k := Widened(f.bindings[k], b)]);
    forall i, j | 0 <= i < j < |f.arguments|
      ensures !SameView(g.arguments[i], g.bindings[i], g.arguments[j].ty, g.bindings[j])
    {
      assert !SameView(f.arguments[i], f.bindings[i], f.arguments[j].ty, f.bindings[j]);
      WidenedIsSame(f.arguments[k], f.bindings[k], b, f.arguments[i], f.bindings[i]);
      WidenedIsSame(f.arguments[k], f.bindings[k], b, f.arguments[j], f.bindings[j]);
    }
    WidenedIsSame(f.arguments[k], f.bindings[k], b, f.arguments[k], f.bindings[k]);
  }

  lemma RebindAnswers(f: Function, ty: Type, b: Binding, k: nat, rs: seq<Request>)
    requires Ordered(f) && Served(f, rs)
    requires k < |f.arguments| && SameView(f.arguments[k], f.bindings[k], ty, b)
    ensures var g := f.(bindings := f.bindings[k := Widened(f.bindings[k], b)]);
            forall q | q in rs + [Request(ty, b)] :: Answered(g, q)
  {
    var g := f.(bindings := f.bindings[k := Widened(f.bindings[k], b)]);
    var r := Request(ty, b);
    assert Answers(f.arguments[k], f.bindings[k], r);
    hide Satisfies, Answers, Widened, Ordered;
    WidenedSatisfies(f.arguments[k], f.bindings[k], r, r);
    assert Satisfies(g.arguments[k], g.bindings[k], r);
    forall q | q in rs
      ensures Answered(g, q)
    {
      var i :| 0 <= i < |f.arguments| && Satisfies(f.arguments[i], f.bindings[i], q);
      WidenedSatisfies(f.arguments[k], f.bindings[k], r, q);
      assert Satisfies(g.arguments[i], g.bindings[i], q);
    }
  }

  lemma RebindServed(f: Function, ty: Type, b: Binding, k: nat, rs: seq<Request>)
    requires Ordered(f) && Served(f, rs)
    requires k < |f.arguments| && SameView(f.arguments[k], f.bindings[k], ty, b)
    ensures Served(f.(bindings := f.bindings[k := Widened(f.bindings[k], b)]), rs + [Request(ty, b)])
  {
    RebindAnswers(f, ty, b, k, rs);
    hide Answered, Ordered, SizeRequested;
    var g := f.(bindings := f.bindings[k := Widened(f.bindings[k], b)]);
    var r := Request(ty, b);
    forall i | 0 <= i < |f.arguments| && g.bindings[i].BufferBinding?
      ensures SizeRequested(g.arguments[i], g.bindings[i], rs + [r])
    {
      StillRequested(f.arguments[i], f.bindings[i], rs, r);
    }
  }

  /** A buffer keeps a requested size, or gets the size of the new request. */
  lemma StillRequested(v: Variable, bound: Binding, rs: seq<Request>, r: Request)
    requires bound.BufferBinding? && SizeRequested(v, bound, rs)
    ensures SizeRequested(v, bound, rs + [r])
    ensures Answers(v, bound, r) ==> SizeRequested(v, Widened(bound, r.binding), rs + [r])
  {
    var q :| q in rs && Answers(v, bound, q) && q.binding.BufferBinding? && q.binding.size == bound.size;
    assert q in rs + [r] && r in rs + [r];
  }

  lemma BuiltinKeeps(f: Function, tag: Tag, rs: seq<Request>)
    requires Ordered(f) && Served(f, rs) && IsBuiltin(tag)
    ensures Ordered(Functions.Builtin(f, tag).0) && Served(Functions.Builtin(f, tag).0, rs)
  {
    if FindTag(f.builtins, tag).None? {
      NoTag(f.builtins, tag);
      var v := Variable(UINT3, tag, f.count);
      var g := f.(builtins := f.builtins + [v]);
      if !f.kernel {
        NewArgumentOrdered(f, UINT3, tag, NoBinding);
        UnboundServed(f, UINT3, tag, rs);
      }
    }
  }

  lemma {:induction false} NoTag(vs: seq<Variable>, tag: Tag)
    ensures FindTag(vs, tag).None? <==> forall i | 0 <= i < |vs| :: vs[i].tag != tag
    ensures FindTag(vs, tag).Some? ==> FindTag(vs, tag).value in vs && FindTag(vs, tag).value.tag == tag
  {
    if vs != [] {
      NoTag(vs[1..], tag);
    }
  }

  lemma UnboundServed(f: Function, ty: Type, tag: Tag, rs: seq<Request>)
    requires Ordered(f) && Served(f, rs)
    ensures Served(Argument(f, ty, tag, NoBinding).0, rs)
  {
    var g := Argument(f, ty, tag, NoBinding).0;
    hide Satisfies;
    forall q | q in rs
      ensures Answered(g, q)
    {
      var i :| 0 <= i < |f.arguments| && Satisfies(f.arguments[i], f.bindings[i], q);
      assert g.arguments[i] == f.arguments[i] && g.bindings[i] == f.bindings[i];
    }
  }

  // ----- The placement of call arguments -----

  /** What placing the arguments from position i on asks to bind. */
  function Captures(callee: Function, i: nat): seq<Request>
    requires |callee.arguments| == |callee.bindings| && i <= |callee.arguments|
    decreases |callee.arguments| - i
  {
    if i == |callee.arguments| then []
    else if IsBuiltin(callee.arguments[i].tag) || callee.bindings[i].NoBinding? then Captures(callee, i + 1)
    else [Request(callee.arguments[i].ty, callee.bindings[i])] + Captures(callee, i + 1)
  }

  /** The position takes an argument of the caller. */
  predicate Explicit(callee: Function, i: nat)
    requires |callee.arguments| == |callee.bindings| && i < |callee.arguments|
  {
    !IsBuiltin(callee.arguments[i].tag) && callee.bindings[i].NoBinding?
  }

  /** The number of such positions before i. */
  function ExplicitBefore(callee: Function, i: nat): nat
    requires |callee.arguments| == |callee.bindings| && i <= |callee.arguments|
  {
    if i == 0 then 0 else ExplicitBefore(callee, i - 1) + if Explicit(callee, i - 1) then 1 else 0
  }

  lemma {:induction false} PlaceKeeps(f: Function, callee: Function, i: nat, args: seq<Expr>, rs: seq<Request>)
    requires Ordered(f) && Served(f, rs) && |callee.arguments| == |callee.bindings| && i <= |callee.arguments|
    requires Place(f, callee, i, args).Ok?
    ensures Ordered(Place(f, callee, i, args).value.1)
    ensures Served(Place(f, callee, i, args).value.1, rs + Captures(callee, i))
    decreases |callee.arguments| - i
  {
    hide Ordered, Served, Functions.Builtin, Bind;
    if i == |callee.arguments| {
      assert rs + [] == rs;
    } else {
      OrderedLengths(f);
      var v := callee.arguments[i];
      var b := callee.bindings[i];
      if IsBuiltin(v.tag) {
        BuiltinKeeps(f, v.tag, rs);
        PlaceKeeps(Functions.Builtin(f, v.tag).0, callee, i + 1, args, rs);
      } else if b.NoBinding? {
        PlaceKeeps(f, callee, i + 1, args[1..], rs);
      } else {
        BindKeeps(f, v.ty, b, rs);
        var r := Request(v.ty, b);
        PlaceKeeps(Bind(f, v.ty, b).0, callee, i + 1, args, rs + [r]);
        assert rs + [r] + Captures(callee, i + 1) == rs + ([r] + Captures(callee, i + 1));
      }
    }
  }

  lemma OrderedLengths(f: Function)
    requires Ordered(f)
    ensures |f.arguments| == |f.bindings|
  {
  }

  /** Variables and bindings stay, and buffers only get wider. */
  predicate Extends(f: Function, g: Function)
    requires |f.arguments| == |f.bindings| && |g.arguments| == |g.bindings|
  {
    && f.arguments <= g.arguments && f.builtins <= g.builtins
    && forall k | 0 <= k < |f.arguments| :: SameKey(f.bindings[k], g.bindings[k])
  }

  predicate SameKey(a: Binding, b: Binding) {
    match a
    case BufferBinding(h, o, n) => b.BufferBinding? && b.handle == h && b.offset == o && n <= b.size
    case _ => a == b
  }

  lemma ExtendsTwice(f: Function, g: Function, h: Function)
    requires |f.arguments| == |f.bindings| && |g.arguments| == |g.bindings| && |h.arguments| == |h.bindings|
    requires Extends(f, g) && Extends(g, h)
    ensures Extends(f, h)
  {
  }

  lemma BuiltinExtends(f: Function, tag: Tag)
    requires |f.arguments| == |f.bindings|
    ensures var p := Functions.Builtin(f, tag);
            |p.0.arguments| == |p.0.bindings| && Extends(f, p.0) && p.1 in p.0.builtins && p.1.tag == tag
  {
    NoTag(f.builtins, tag);
  }

  lemma BindExtends(f: Function, ty: Type, b: Binding)
    requires |f.arguments| == |f.bindings| && b != NoBinding
    ensures var p := Bind(f, ty, b);
            |p.0.arguments| == |p.0.bindings| && Extends(f, p.0) && BoundTo(p.0, p.1, ty, b)
  {
    BindIsBound(f, ty, b);
    hide FindResource, BoundTo;
  }

  lemma BindIsBound(f: Function, ty: Type, b: Binding)
    requires |f.arguments| == |f.bindings| && b != NoBinding
    ensures BoundTo(Bind(f, ty, b).0, Bind(f, ty, b).1, ty, b)
  {
    var p := Bind(f, ty, b);
    var k := FindResource(f, 0, ty, b);
    hide FindResource;
    assert p.0.arguments[k] == p.1;
  }

  /**
   * Binding a resource, new or again, returns an argument that gives access to what was
   * asked for: its handle, the offset or the level, the type, and at least the size.
   */
  lemma BindFields(f: Function, ty: Type, b: Binding) returns (k: nat)
    requires |f.arguments| == |f.bindings| && b != NoBinding
    requires forall i | 0 <= i < |f.arguments| :: Fitting(f.arguments[i], f.bindings[i])
    ensures var p := Bind(f, ty, b);
            && k < |p.0.arguments| == |p.0.bindings| && p.0.arguments[k] == p.1
            && var bound := p.0.bindings[k];
               match b
               case BufferBinding(handle, offset, size) =>
                 && bound.BufferBinding? && bound.handle == handle && bound.offset == offset && size <= bound.size
                 && p.1.ty == ty && p.1.tag == BufferTag
               case TextureBinding(handle, level) =>
                 && bound.TextureBinding? && bound.handle == handle && bound.level == level
                 && p.1.ty == ty && p.1.tag == TextureTag
               case BindlessArrayBinding(handle) =>
                 && bound.BindlessArrayBinding? && bound.handle == handle
                 && p.1.ty == BindlessArray && p.1.tag == BindlessArrayTag
               case AccelBinding(handle) =>
                 && bound.AccelBinding? && bound.handle == handle && p.1.ty == Accel && p.1.tag == AccelTag
  {
    k := FindResource(f, 0, ty, b);
    BindAt(f, ty, b);
    hide FindResource, Bind, Widened, WithoutSize;
    var p := Bind(f, ty, b);
    SearchedView(p.1, p.0.bindings[k], ResourceType(b, ty), b);
    hide SameView;
  }

  lemma BindAt(f: Function, ty: Type, b: Binding)
    requires |f.arguments| == |f.bindings| && b != NoBinding
    requires forall i | 0 <= i < |f.arguments| :: Fitting(f.arguments[i], f.bindings[i])
    ensures var p, k := Bind(f, ty, b), FindResource(f, 0, ty, b);
            && k < |p.0.arguments| == |p.0.bindings| && p.0.arguments[k] == p.1
            && SameView(p.1, p.0.bindings[k], ResourceType(b, ty), b) && Fitting(p.1, p.0.bindings[k])
            && (b.BufferBinding? ==> b.size <= p.0.bindings[k].size)
  {
    hide FindResource;
  }

  /** v is an argument that is bound to this resource. */
  predicate BoundTo(f: Function, v: Variable, ty: Type, b: Binding)
    requires |f.arguments| == |f.bindings|
  {
    exists k | 0 <= k < |f.arguments| ::
      && f.arguments[k] == v && SameView(v, f.bindings[k], ResourceType(b, ty), b)
      && (b.BufferBinding? ==> b.size <= f.bindings[k].size)
  }

  lemma BoundStays(f: Function, g: Function, v: Variable, ty: Type, b: Binding)
    requires |f.arguments| == |f.bindings| && |g.arguments| == |g.bindings|
    requires Extends(f, g) && BoundTo(f, v, ty, b)
    ensures BoundTo(g, v, ty, b)
  {
    var k :| 0 <= k < |f.arguments| && f.arguments[k] == v && SameView(v, f.bindings[k], ResourceType(b, ty), b)
      && (b.BufferBinding? ==> b.size <= f.bindings[k].size);
    assert g.arguments[k] == v;
  }

  /** Position i of a call, with the caller's arguments from `args`. */
  predicate PlacedAt(g: Function, callee: Function, i: nat, placed: Expr, args: seq<Expr>, n: nat)
    requires |g.arguments| == |g.bindings| && |callee.arguments| == |callee.bindings| && i < |callee.arguments|
  {
    var v := callee.arguments[i];
    if IsBuiltin(v.tag) then
      placed.Ref? && placed.variable in g.builtins && placed.variable.tag == v.tag
    else if callee.bindings[i] != NoBinding then
      placed.Ref? && BoundTo(g, placed.variable, v.ty, callee.bindings[i])
    else
      n < |args| && placed == args[n]
  }

  /**
   * Builtin variables and captures go to the callee's positions; the explicit arguments
   * are consumed exactly once, in order.
   */
  lemma {:induction false} PlacedRight(f: Function, callee: Function, i: nat, args: seq<Expr>)
    requires |f.arguments| == |f.bindings| && |callee.arguments| == |callee.bindings| && i <= |callee.arguments|
    requires ExplicitBefore(callee, i) <= |args|
    requires Place(f, callee, i, args[ExplicitBefore(callee, i)..]).Ok?
    ensures PlacedFrom(f, callee, i, args, Place(f, callee, i, args[ExplicitBefore(callee, i)..]).value)
    decreases |callee.arguments| - i
  {
    hide Functions.Builtin, Bind, Extends, BoundTo, PlacedFrom;
    var n := ExplicitBefore(callee, i);
    if i == |callee.arguments| {
      PlacedNothing(f, callee, args);
    } else {
      var v := callee.arguments[i];
      var b := callee.bindings[i];
      var r := Place(f, callee, i, args[n..]).value;
      assert ExplicitBefore(callee, i + 1) == n + if Explicit(callee, i) then 1 else 0;
      if IsBuiltin(v.tag) {
        var p := Functions.Builtin(f, v.tag);
        BuiltinExtends(f, v.tag);
        PlacedRight(p.0, callee, i + 1, args);
        PlacedBuiltin(f, callee, i, args, p.0, p.1, Place(p.0, callee, i + 1, args[n..]).value);
      } else if b.NoBinding? {
        assert args[n..][1..] == args[n + 1..];
        PlacedRight(f, callee, i + 1, args);
        PlacedExplicit(f, callee, i, args, Place(f, callee, i + 1, args[n + 1..]).value);
      } else {
        var p := Bind(f, v.ty, b);
        BindExtends(f, v.ty, b);
        PlacedRight(p.0, callee, i + 1, args);
        PlacedBound(f, callee, i, args, p.0, p.1, Place(p.0, callee, i + 1, args[n..]).value);
      }
    }
  }

  predicate PlacedFrom(f: Function, callee: Function, i: nat, args: seq<Expr>, r: (seq<Expr>, Function, seq<Expr>))
    requires |f.arguments| == |f.bindings| && |callee.arguments| == |callee.bindings| && i <= |callee.arguments|
  {
    && |r.0| == |callee.arguments| - i
    && |r.1.arguments| == |r.1.bindings| && Extends(f, r.1)
    && ExplicitBefore(callee, |callee.arguments|) <= |args|
    && r.2 == args[ExplicitBefore(callee, |callee.arguments|)..]
    && forall k | i <= k < |callee.arguments| ::
         PlacedAt(r.1, callee, k, r.0[k - i], args, ExplicitBefore(callee, k))
  }

  lemma PlacedNothing(f: Function, callee: Function, args: seq<Expr>)
    requires |f.arguments| == |f.bindings| && |callee.arguments| == |callee.bindings|
    requires ExplicitBefore(callee, |callee.arguments|) <= |args|
    ensures PlacedFrom(f, callee, |callee.arguments|, args, ([], f, args[ExplicitBefore(callee, |callee.arguments|)..]))
  {
    ExtendsSelf(f);
  }

  /** One more position in front. */
  lemma PlacedOne(
    f: Function, callee: Function, i: nat, args: seq<Expr>, g: Function, e: Expr, r: (seq<Expr>, Function, seq<Expr>))
    requires |f.arguments| == |f.bindings| && |callee.arguments| == |callee.bindings| && i < |callee.arguments|
    requires |g.arguments| == |g.bindings| && Extends(f, g)
    requires PlacedFrom(g, callee, i + 1, args, r)
    requires |r.1.arguments| == |r.1.bindings| && PlacedAt(r.1, callee, i, e, args, ExplicitBefore(callee, i))
    ensures PlacedFrom(f, callee, i, args, ([e] + r.0, r.1, r.2))
  {
    hide Extends, PlacedAt, ExplicitBefore;
    ExtendsTwice(f, g, r.1);
  }

  lemma PlacedBuiltin(
    f: Function, callee: Function, i: nat, args: seq<Expr>, g: Function, v: Variable,
    r: (seq<Expr>, Function, seq<Expr>))
    requires |f.arguments| == |f.bindings| && |callee.arguments| == |callee.bindings| && i < |callee.arguments|
    requires |g.arguments| == |g.bindings| && Extends(f, g) && PlacedFrom(g, callee, i + 1, args, r)
    requires IsBuiltin(callee.arguments[i].tag) && v in g.builtins && v.tag == callee.arguments[i].tag
    ensures PlacedFrom(f, callee, i, args, ([Ref(v)] + r.0, r.1, r.2))
  {
    hide Extends, ExplicitBefore, BoundTo;
    BuiltinStays(g, r.1, v);
    PlacedOne(f, callee, i, args, g, Ref(v), r);
  }

  lemma PlacedExplicit(f: Function, callee: Function, i: nat, args: seq<Expr>, r: (seq<Expr>, Function, seq<Expr>))
    requires |f.arguments| == |f.bindings| && |callee.arguments| == |callee.bindings| && i < |callee.arguments|
    requires PlacedFrom(f, callee, i + 1, args, r)
    requires Explicit(callee, i) && ExplicitBefore(callee, i) < |args|
    ensures PlacedFrom(f, callee, i, args, ([args[ExplicitBefore(callee, i)]] + r.0, r.1, r.2))
  {
    hide Extends, ExplicitBefore, BoundTo;
    ExtendsSelf(f);
    PlacedOne(f, callee, i, args, f, args[ExplicitBefore(callee, i)], r);
  }

  lemma PlacedBound(
    f: Function, callee: Function, i: nat, args: seq<Expr>, g: Function, v: Variable,
    r: (seq<Expr>, Function, seq<Expr>))
    requires |f.arguments| == |f.bindings| && |callee.arguments| == |callee.bindings| && i < |callee.arguments|
    requires |g.arguments| == |g.bindings| && Extends(f, g) && PlacedFrom(g, callee, i + 1, args, r)
    requires !IsBuiltin(callee.arguments[i].tag) && callee.bindings[i] != NoBinding
    requires BoundTo(g, v, callee.arguments[i].ty, callee.bindings[i])
    ensures PlacedFrom(f, callee, i, args, ([Ref(v)] + r.0, r.1, r.2))
  {
    hide Extends, ExplicitBefore, BoundTo;
    BoundStays(g, r.1, v, callee.arguments[i].ty, callee.bindings[i]);
    PlacedOne(f, callee, i, args, g, Ref(v), r);
  }

  lemma ExtendsSelf(f: Function)
    requires |f.arguments| == |f.bindings|
    ensures Extends(f, f)
  {
  }

  lemma BuiltinStays(f: Function, g: Function, v: Variable)
    requires |f.arguments| == |f.bindings| && |g.arguments| == |g.bindings|
    requires Extends(f, g) && v in f.builtins
    ensures v in g.builtins
  {
  }

  /** A call succeeds exactly when the callee is a callable and the numbers of explicit arguments agree. */
  lemma CallSucceedsIff(f: Function, ty: Option<Type>, key: Key, callee: Function, args: seq<Expr>)
    requires |f.arguments| == |f.bindings| && |callee.arguments| == |callee.bindings|
    ensures CallCustom(f, ty, key, callee, args).Ok? <==>
            !callee.kernel && |args| == ExplicitBefore(callee, |callee.arguments|)
  {
    hide Place, ExplicitBefore, Propagate, CallResult;
    PlaceSucceedsIff(f, callee, 0, args);
    NoneExplicitBefore(callee);
    assert args[0..] == args;
    if Place(f, callee, 0, args).Ok? {
      PlacedRight(f, callee, 0, args);
    }
  }

  /** The arguments of a call that succeeds. */
  lemma CallIsPlaced(f: Function, ty: Option<Type>, key: Key, callee: Function, args: seq<Expr>)
    requires |f.arguments| == |f.bindings| && |callee.arguments| == |callee.bindings|
    requires CallCustom(f, ty, key, callee, args).Ok?
    ensures var p := Place(f, callee, 0, args).value;
            && PlacedFrom(f, callee, 0, args, p) && p.2 == []
            && CallCustom(f, ty, key, callee, args)
               == Ok(CallResult(Propagate(p.1, key, callee), Call(ty, Custom(key), p.0)))
  {
    NoneExplicitBefore(callee);
    assert args[0..] == args;
    PlacedRight(f, callee, 0, args);
    hide Place, PlacedFrom, Propagate, CallResult;
  }

  lemma NoneExplicitBefore(callee: Function)
    requires |callee.arguments| == |callee.bindings|
    ensures ExplicitBefore(callee, 0) == 0
  {
  }

  lemma {:induction false} ExplicitGrows(callee: Function, i: nat, j: nat)
    requires |callee.arguments| == |callee.bindings| && i <= j <= |callee.arguments|
    ensures ExplicitBefore(callee, i) <= ExplicitBefore(callee, j)
    decreases j
  {
    if i < j {
      ExplicitGrows(callee, i, j - 1);
    }
  }

  lemma {:induction false} PlaceSucceedsIff(f: Function, callee: Function, i: nat, args: seq<Expr>)
    requires |f.arguments| == |f.bindings| && |callee.arguments| == |callee.bindings| && i <= |callee.arguments|
    ensures ExplicitBefore(callee, i) <= ExplicitBefore(callee, |callee.arguments|)
    ensures Place(f, callee, i, args).Ok? <==>
            |args| >= ExplicitBefore(callee, |callee.arguments|) - ExplicitBefore(callee, i)
    decreases |callee.arguments| - i
  {
    hide Functions.Builtin, Bind;
    ExplicitGrows(callee, i, |callee.arguments|);
    if i < |callee.arguments| {
      var v := callee.arguments[i];
      var b := callee.bindings[i];
      ExplicitGrows(callee, i + 1, |callee.arguments|);
      if IsBuiltin(v.tag) {
        BuiltinExtends(f, v.tag);
        PlaceSucceedsIff(Functions.Builtin(f, v.tag).0, callee, i + 1, args);
      } else if b.NoBinding? {
        if args != [] {
          PlaceSucceedsIff(f, callee, i + 1, args[1..]);
        }
      } else {
        BindExtends(f, v.ty, b);
        PlaceSucceedsIff(Bind(f, v.ty, b).0, callee, i + 1, args);
      }
    }
  }

  // ----- Whole definitions -----

  function RequestsOf(lib: Library, op: Op): seq<Request>
    requires Sound(lib)
  {
    match op
    case MakeBinding(ty, b) => if b.NoBinding? then [] else [Request(ty, b)]
    case CallFunction(_, k, _) => if k < |lib| then Captures(lib[k], 0) else []
    case _ => []
  }

  function Requests(lib: Library, ops: seq<Op>): seq<Request>
    requires Sound(lib)
  {
    if ops == [] then [] else Requests(lib, ops[..|ops| - 1]) + RequestsOf(lib, ops[|ops| - 1])
  }

  lemma PlainVariableKeeps(f: Function, g: Function, rs: seq<Request>)
    requires Ordered(f) && Served(f, rs)
    requires g.arguments == f.arguments && g.bindings == f.bindings && g.builtins == f.builtins
    requires g.count == f.count && g.locals == f.locals && g.shareds == f.shareds
    ensures Ordered(g) && Served(g, rs)
  {
    SameBindingsServed(f, g, rs);
    hide Served;
  }

  lemma SameBindingsServed(f: Function, g: Function, rs: seq<Request>)
    requires |f.arguments| == |f.bindings| && Served(f, rs)
    requires g.arguments == f.arguments && g.bindings == f.bindings
    ensures Served(g, rs)
  {
    hide Satisfies, SizeRequested;
    forall r | r in rs
      ensures Answered(g, r)
    {
      assert Answered(f, r);
    }
  }

  lemma LocalKeeps(f: Function, ty: Type, rs: seq<Request>)
    requires Ordered(f) && Served(f, rs)
    ensures Ordered(Functions.Local(f, ty).0) && Served(Functions.Local(f, ty).0, rs)
  {
    SameBindingsServed(f, Functions.Local(f, ty).0, rs);
    hide Served;
  }

  lemma SharedKeeps(f: Function, ty: Type, rs: seq<Request>)
    requires Ordered(f) && Served(f, rs)
    ensures Ordered(Functions.Shared(f, ty).0) && Served(Functions.Shared(f, ty).0, rs)
  {
    SameBindingsServed(f, Functions.Shared(f, ty).0, rs);
    hide Served;
  }

  lemma ArgumentKeeps(f: Function, ty: Type, tag: Tag, rs: seq<Request>)
    requires Ordered(f) && Served(f, rs)
    ensures Ordered(Argument(f, ty, tag, NoBinding).0) && Served(Argument(f, ty, tag, NoBinding).0, rs)
  {
    NewArgumentOrdered(f, ty, tag, NoBinding);
    UnboundServed(f, ty, tag, rs);
  }

  lemma CallKeeps(f: Function, ty: Option<Type>, key: Key, callee: Function, args: seq<Expr>, rs: seq<Request>)
    requires Ordered(f) && Served(f, rs) && |callee.arguments| == |callee.bindings|
    requires |f.arguments| == |f.bindings| && CallCustom(f, ty, key, callee, args).Ok?
    ensures var g := CallCustom(f, ty, key, callee, args).value.1;
            Ordered(g) && Served(g, rs + Captures(callee, 0))
  {
    PlaceKeeps(f, callee, 0, args, rs);
    var g := CallCustom(f, ty, key, callee, args).value.1;
    var p := Place(f, callee, 0, args).value.1;
    hide Ordered, Served, Place, Captures, AppendNew;
    PlainVariableKeeps(p, g, rs + Captures(callee, 0));
  }

  lemma DoKeeps(lib: Library, f: Function, op: Op, rs: seq<Request>)
    requires Sound(lib) && Ordered(f) && Served(f, rs)
    requires |f.arguments| == |f.bindings| && Do(lib, f, op).Ok?
    ensures Ordered(Do(lib, f, op).value) && Served(Do(lib, f, op).value, rs + RequestsOf(lib, op))
  {
    hide Ordered, Served, CallCustom, Bind, Functions.Builtin, Captures;
    assert rs + [] == rs;
    match op
    case MakeLocal(ty) => LocalKeeps(f, ty, rs);
    case MakeShared(ty) => SharedKeeps(f, ty, rs);
    case MakeArgument(ty, tag) => ArgumentKeeps(f, ty, tag, rs);
    case MakeBinding(ty, b) => BindKeeps(f, ty, b, rs);
    case MakeBuiltin(tag) => BuiltinKeeps(f, tag, rs);
    case CallFunction(ty, k, args) => CallKeeps(f, ty, k, lib[k], args, rs);
    case AccessLiteral(ty, range, index) =>
      if range.Literal? {
        LocalKeeps(f, range.ty, rs);
        PlainVariableKeeps(Functions.Local(f, range.ty).0, Do(lib, f, op).value, rs);
      } else {
        PlainVariableKeeps(f, Do(lib, f, op).value, rs);
      }
    case _ => PlainVariableKeeps(f, Do(lib, f, op).value, rs);
  }

  /**
   * After any definition: arguments match their bindings, uids are distinct, increasing and
   * below the size of the usage table, no resource and no builtin variable occurs twice, and
   * each buffer is bound with the largest size that was requested for it.
   */
  lemma {:induction false} DefinitionsAreOrdered(lib: Library, kernel: bool, ops: seq<Op>)
    requires Sound(lib) && Run(lib, kernel, ops).Ok?
    ensures var f := Run(lib, kernel, ops).value;
            Ordered(f) && Served(f, Requests(lib, ops))
  {
    hide RequestsOf, Do;
    if ops != [] {
      hide Ordered, Served;
      var front := ops[..|ops| - 1];
      DefinitionsAreOrdered(lib, kernel, front);
      DoKeeps(lib, Run(lib, kernel, front).value, ops[|ops| - 1], Requests(lib, front));
    }
  }

  /** After any definition, two bound arguments differ in a handle, an offset, a level or a type. */
  lemma BoundArgumentsDiffer(lib: Library, kernel: bool, ops: seq<Op>, i: nat, j: nat)
    requires Sound(lib) && Run(lib, kernel, ops).Ok? && i < j < |Run(lib, kernel, ops).value.arguments|
    ensures var f := Run(lib, kernel, ops).value;
            var b, c := f.bindings[i], f.bindings[j];
            && (b.BufferBinding? && c.BufferBinding? && f.arguments[i].ty == f.arguments[j].ty ==>
                  b.handle != c.handle || b.offset != c.offset)
            && (b.TextureBinding? && c.TextureBinding? && f.arguments[i].ty == f.arguments[j].ty ==>
                  b.handle != c.handle || b.level != c.level)
            && (b.BindlessArrayBinding? && c.BindlessArrayBinding? ==> b.handle != c.handle)
            && (b.AccelBinding? && c.AccelBinding? ==> b.handle != c.handle)
  {
    DefinitionsAreOrdered(lib, kernel, ops);
    hide Run, Served;
  }

  // ----- Used callables, operations and constants -----

  /** What a definition uses itself. */
  function Marked(ops: seq<Op>): set<nat> {
    if ops == [] then {} else Marked(ops[..|ops| - 1]) + MarkedBy(ops[|ops| - 1])
  }

  function MarkedBy(op: Op): set<nat> {
    if op.CallOp? then {op.op} else {}
  }

  function Called(ops: seq<Op>): set<Key> {
    if ops == [] then {} else Called(ops[..|ops| - 1]) + CalledBy(ops[|ops| - 1])
  }

  function CalledBy(op: Op): set<Key> {
    if op.CallFunction? then {op.callee} else {}
  }

  predicate Within<T(==)>(xs: seq<T>, ys: seq<T>) {
    forall i | 0 <= i < |xs| :: xs[i] in ys
  }

  /** Everything a used callable uses is used. */
  predicate Closed(lib: Library, f: Function) {
    forall k | k in f.customs ::
      && k < |lib|
      && lib[k].ops <= f.ops
      && Within(lib[k].customs, f.customs)
      && Within(lib[k].constants, f.constants)
  }

  lemma PropagateCloses(lib: Library, f: Function, key: Key)
    requires Closed(lib, f) && key < |lib| && Closed(lib, lib[key])
    ensures Closed(lib, Propagate(f, key, lib[key]))
    ensures key in Propagate(f, key, lib[key]).customs
  {
  }

  predicate UsedOp(lib: Library, marked: set<nat>, called: set<Key>, op: nat) {
    op in marked || exists c | c in called :: c < |lib| && op in lib[c].ops
  }

  predicate UsedCallable(lib: Library, called: set<Key>, k: Key) {
    k in called || exists c | c in called :: c < |lib| && k in lib[c].customs
  }

  /** The lists hold exactly what is used directly or by a callable that is called directly. */
  ghost predicate Uses(lib: Library, f: Function, marked: set<nat>, called: set<Key>) {
    && (forall x :: x in f.ops <==> UsedOp(lib, marked, called, x))
    && (forall k :: k in f.customs <==> UsedCallable(lib, called, k))
  }

  lemma PropagateUses(lib: Library, f: Function, key: Key, marked: set<nat>, called: set<Key>)
    requires Closed(lib, f) && key < |lib| && Uses(lib, f, marked, called)
    ensures Uses(lib, Propagate(f, key, lib[key]), marked, called + {key})
  {
    var g := Propagate(f, key, lib[key]);
    hide Closed;
    if key in f.customs {
      KnownCallee(lib, f, key);
    }
    forall x
      ensures x in g.ops <==> UsedOp(lib, marked, called + {key}, x)
    {
      assert UsedOp(lib, marked, called + {key}, x) <==> UsedOp(lib, marked, called, x) || x in lib[key].ops;
    }
    forall k
      ensures k in g.customs <==> UsedCallable(lib, called + {key}, k)
    {
      assert UsedCallable(lib, called + {key}, k) <==>
             UsedCallable(lib, called, k) || k == key || k in lib[key].customs;
    }
  }

  lemma KnownCallee(lib: Library, f: Function, key: Key)
    requires Closed(lib, f) && key in f.customs
    ensures key < |lib| && lib[key].ops <= f.ops && forall k | k in lib[key].customs :: k in f.customs
  {
  }

  lemma BindUsesNothing(f: Function, ty: Type, b: Binding)
    requires |f.arguments| == |f.bindings|
    ensures var g := Bind(f, ty, b).0; g.ops == f.ops && g.customs == f.customs && g.constants == f.constants
  {
  }

  lemma BuiltinUsesNothing(f: Function, tag: Tag)
    ensures var g := Functions.Builtin(f, tag).0;
            g.ops == f.ops && g.customs == f.customs && g.constants == f.constants
  {
  }

  /** Placing arguments uses nothing. */
  lemma {:induction false} PlaceUsesNothing(f: Function, callee: Function, i: nat, args: seq<Expr>)
    requires |f.arguments| == |f.bindings| && |callee.arguments| == |callee.bindings| && i <= |callee.arguments|
    requires Place(f, callee, i, args).Ok?
    ensures var g := Place(f, callee, i, args).value.1;
            g.ops == f.ops && g.customs == f.customs && g.constants == f.constants
    decreases |callee.arguments| - i
  {
    if i < |callee.arguments| {
      var v := callee.arguments[i];
      var b := callee.bindings[i];
      if IsBuiltin(v.tag) {
        PlaceUsesNothing(Functions.Builtin(f, v.tag).0, callee, i + 1, args);
      } else if b.NoBinding? {
        PlaceUsesNothing(f, callee, i + 1, args[1..]);
      } else {
        PlaceUsesNothing(Bind(f, v.ty, b).0, callee, i + 1, args);
      }
    }
  }

  predicate LibraryClosed(lib: Library) {
    forall k | 0 <= k < |lib| :: Closed(lib, lib[k])
  }

  lemma SameLists(lib: Library, f: Function, g: Function, marked: set<nat>, called: set<Key>)
    requires Closed(lib, f) && Uses(lib, f, marked, called)
    requires g.ops == f.ops && g.customs == f.customs && forall c | c in f.constants :: c in g.constants
    ensures Closed(lib, g) && Uses(lib, g, marked, called)
  {
  }

  lemma MarkUses(lib: Library, f: Function, op: nat, marked: set<nat>, called: set<Key>)
    requires Closed(lib, f) && Uses(lib, f, marked, called)
    ensures var g := f.(ops := f.ops + {op});
            Closed(lib, g) && Uses(lib, g, marked + {op}, called)
  {
  }

  lemma DoUses(lib: Library, f: Function, op: Op, marked: set<nat>, called: set<Key>)
    requires Sound(lib) && LibraryClosed(lib) && |f.arguments| == |f.bindings| && Do(lib, f, op).Ok?
    requires Closed(lib, f) && Uses(lib, f, marked, called)
    ensures Closed(lib, Do(lib, f, op).value)
    ensures Uses(lib, Do(lib, f, op).value, marked + MarkedBy(op), called + CalledBy(op))
  {
    hide Closed, Uses, CallCustom, Bind, Functions.Builtin;
    var g := Do(lib, f, op).value;
    assert marked + {} == marked && called + {} == called;
    match op
    case MakeBinding(ty, b) =>
      BindUsesNothing(f, ty, b);
      SameLists(lib, f, g, marked, called);
    case MakeBuiltin(tag) =>
      BuiltinUsesNothing(f, tag);
      SameLists(lib, f, g, marked, called);
    case CallOp(_, x, _) =>
      MarkUses(lib, f, x, marked, called);
      SameLists(lib, f.(ops := f.ops + {x}), g, marked + {x}, called);
    case CallFunction(ty, k, args) => CallUses(lib, f, ty, k, args, marked, called);
    case _ => SameLists(lib, f, g, marked, called);
  }

  lemma CallUses(
      lib: Library, f: Function, ty: Option<Type>, k: Key, args: seq<Expr>, marked: set<nat>, called: set<Key>)
    requires Sound(lib) && LibraryClosed(lib) && |f.arguments| == |f.bindings| && k < |lib|
    requires CallCustom(f, ty, k, lib[k], args).Ok? && Closed(lib, f) && Uses(lib, f, marked, called)
    ensures var g := CallCustom(f, ty, k, lib[k], args).value.1;
            Closed(lib, g) && Uses(lib, g, marked, called + {k})
  {
    hide Closed, Uses, Place, Propagate;
    PlaceUsesNothing(f, lib[k], 0, args);
    var p := Place(f, lib[k], 0, args).value.1;
    SameLists(lib, f, p, marked, called);
    PropagateCloses(lib, p, k);
    PropagateUses(lib, p, k, marked, called);
    var g := CallCustom(f, ty, k, lib[k], args).value.1;
    SameLists(lib, Propagate(p, k, lib[k]), g, marked, called + {k});
  }

  lemma {:induction false} RunUses(lib: Library, kernel: bool, ops: seq<Op>)
    requires Sound(lib) && LibraryClosed(lib) && Run(lib, kernel, ops).Ok?
    ensures var f := Run(lib, kernel, ops).value;
            Closed(lib, f) && Uses(lib, f, Marked(ops), Called(ops))
  {
    hide Do;
    if ops != [] {
      hide Closed, Uses;
      var front := ops[..|ops| - 1];
      var op := ops[|ops| - 1];
      RunUses(lib, kernel, front);
      DoUses(lib, Run(lib, kernel, front).value, op, Marked(front), Called(front));
    }
  }

  lemma {:induction false} CalleesExist(lib: Library, kernel: bool, ops: seq<Op>)
    requires Sound(lib) && Run(lib, kernel, ops).Ok?
    ensures forall k | k in Called(ops) :: k < |lib|
  {
    if ops != [] {
      CalleesExist(lib, kernel, ops[..|ops| - 1]);
    }
  }

  datatype Definition = Definition(kernel: bool, ops: seq<Op>)

  /** Each function was finished by its definition, with the functions before it. */
  predicate IsLibrary(lib: Library, defs: seq<Definition>) {
    && |lib| == |defs|
    && Sound(lib)
    && forall n | 0 <= n < |lib| :: FinishedBy(lib, n, defs[n])
  }

  predicate FinishedBy(lib: Library, n: nat, def: Definition)
    requires Sound(lib) && n < |lib|
  {
    Run(lib[..n], def.kernel, def.ops) == Ok(lib[n])
  }

  lemma ClosedInMore(lib: Library, n: nat, f: Function)
    requires n <= |lib| && Closed(lib[..n], f)
    ensures Closed(lib, f)
  {
    hide Within;
  }

  lemma UsesInMore(lib: Library, n: nat, f: Function, marked: set<nat>, called: set<Key>)
    requires n <= |lib| && Uses(lib[..n], f, marked, called)
    requires forall k | k in called :: k < n
    ensures Uses(lib, f, marked, called)
  {
    forall x
      ensures UsedOp(lib[..n], marked, called, x) <==> UsedOp(lib, marked, called, x)
    {
    }
    forall k
      ensures UsedCallable(lib[..n], called, k) <==> UsedCallable(lib, called, k)
    {
    }
  }

  lemma {:induction false} ClosedWhenFinished(lib: Library, defs: seq<Definition>, n: nat)
    requires IsLibrary(lib, defs) && n < |lib| == |defs|
    ensures Closed(lib[..n], lib[n])
    ensures Uses(lib[..n], lib[n], Marked(defs[n].ops), Called(defs[n].ops))
    ensures forall k | k in Called(defs[n].ops) :: k < n
  {
    hide Closed, Uses, Run, Marked, Called;
    var before := lib[..n];
    forall k | 0 <= k < n
      ensures Closed(before, before[k])
    {
      ClosedWhenFinished(lib, defs, k);
      assert before[..k] == lib[..k];
      ClosedInMore(before, k, before[k]);
    }
    assert FinishedBy(lib, n, defs[n]);
    RunUses(before, defs[n].kernel, defs[n].ops);
    CalleesExist(before, defs[n].kernel, defs[n].ops);
  }

  /** In every library the lists of used callables are transitively closed, although known callees are skipped. */
  lemma LibraryUses(lib: Library, defs: seq<Definition>, n: nat)
    requires IsLibrary(lib, defs) && n < |lib| == |defs|
    ensures Closed(lib, lib[n])
    ensures Uses(lib, lib[n], Marked(defs[n].ops), Called(defs[n].ops))
    ensures forall k | k in Called(defs[n].ops) :: k < n
  {
    hide *;
    ClosedWhenFinished(lib, defs, n);
    ClosedInMore(lib, n, lib[n]);
    UsesInMore(lib, n, lib[n], Marked(defs[n].ops), Called(defs[n].ops));
  }

  /** Each function of the chain calls the next one. */
  predicate Chain(defs: seq<Definition>, p: seq<Key>) {
    && |p| > 0
    && (forall i | 0 <= i < |p| :: p[i] < |defs|)
    && forall i | 0 <= i < |p| - 1 :: p[i + 1] in Called(defs[p[i]].ops)
  }

  ghost predicate Calls(defs: seq<Definition>, n: Key, k: Key) {
    exists p :: Chain(defs, p) && |p| > 1 && p[0] == n && p[|p| - 1] == k
  }

  /** Function n, or one that it calls in any number of steps, uses the operation itself. */
  ghost predicate Performs(defs: seq<Definition>, n: Key, op: nat) {
    exists p :: Chain(defs, p) && p[0] == n && op in Marked(defs[p[|p| - 1]].ops)
  }

  lemma LongerChain(defs: seq<Definition>, n: Key, p: seq<Key>)
    requires n < |defs| && Chain(defs, p) && p[0] in Called(defs[n].ops)
    ensures Chain(defs, [n] + p) && ([n] + p)[|p|] == p[|p| - 1]
  {
    hide Called;
    var q := [n] + p;
    forall i | 0 <= i < |q| - 1
      ensures q[i + 1] in Called(defs[q[i]].ops)
    {
      if i > 0 {
        assert p[i - 1 + 1] in Called(defs[p[i - 1]].ops);
      }
    }
  }

  lemma ShorterChain(defs: seq<Definition>, p: seq<Key>)
    requires Chain(defs, p) && |p| > 1
    ensures Chain(defs, p[1..]) && p[1] in Called(defs[p[0]].ops)
  {
    hide Called;
    assert p[0 + 1] in Called(defs[p[0]].ops);
    var q := p[1..];
    forall i | 0 <= i < |q| - 1
      ensures q[i + 1] in Called(defs[q[i]].ops)
    {
      assert p[i + 1 + 1] in Called(defs[p[i + 1]].ops);
    }
  }

  lemma CallsStep(defs: seq<Definition>, n: Key, c: Key, k: Key)
    requires n < |defs| && c < |defs| && c in Called(defs[n].ops)
    requires c == k || Calls(defs, c, k)
    ensures Calls(defs, n, k)
  {
    hide Called, Chain;
    if c == k {
      OneFunction(defs, c);
      LongerChain(defs, n, [c]);
    } else {
      var p :| Chain(defs, p) && |p| > 1 && p[0] == c && p[|p| - 1] == k;
      LongerChain(defs, n, p);
    }
  }

  lemma OneFunction(defs: seq<Definition>, c: Key)
    requires c < |defs|
    ensures Chain(defs, [c])
  {
  }

  lemma CallsFirst(defs: seq<Definition>, n: Key, k: Key) returns (c: Key)
    requires Calls(defs, n, k)
    ensures n < |defs| && c in Called(defs[n].ops) && c < |defs| && (c == k || Calls(defs, c, k))
  {
    hide Called;
    var p :| Chain(defs, p) && |p| > 1 && p[0] == n && p[|p| - 1] == k;
    ShorterChain(defs, p);
    c := p[1];
    if |p| > 2 {
      assert p[1..][0] == c && p[1..][|p| - 2] == k;
    }
  }

  /** A function's list of used callables holds exactly the callables it calls in any number of steps. */
  lemma {:induction false} CustomsAreReachable(lib: Library, defs: seq<Definition>, n: nat, k: Key)
    requires IsLibrary(lib, defs) && n < |lib| == |defs|
    ensures k in lib[n].customs <==> Calls(defs, n, k)
  {
    hide Called, Calls, Closed, Marked, IsLibrary;
    LibraryUses(lib, defs, n);
    var called := Called(defs[n].ops);
    assert k in lib[n].customs <==> UsedCallable(lib, called, k);
    if UsedCallable(lib, called, k) {
      if k in called {
        CallsStep(defs, n, k, k);
      } else {
        var c :| c in called && c < |lib| && k in lib[c].customs;
        CustomsAreReachable(lib, defs, c, k);
        CallsStep(defs, n, c, k);
      }
    }
    if Calls(defs, n, k) {
      var c := CallsFirst(defs, n, k);
      if c != k {
        CustomsAreReachable(lib, defs, c, k);
      }
    }
  }

  lemma PerformsStep(defs: seq<Definition>, n: Key, c: Key, op: nat)
    requires n < |defs| && c in Called(defs[n].ops) && Performs(defs, c, op)
    ensures Performs(defs, n, op)
  {
    hide Called, Marked;
    var p :| Chain(defs, p) && p[0] == c && op in Marked(defs[p[|p| - 1]].ops);
    LongerChain(defs, n, p);
  }

  lemma PerformsItself(defs: seq<Definition>, n: Key, op: nat)
    requires n < |defs| && op in Marked(defs[n].ops)
    ensures Performs(defs, n, op)
  {
    hide Chain, Marked;
    OneFunction(defs, n);
  }

  lemma PerformsFirst(defs: seq<Definition>, n: Key, op: nat)
    requires Performs(defs, n, op)
    ensures n < |defs|
    ensures op in Marked(defs[n].ops) || exists c :: c in Called(defs[n].ops) && c < |defs| && Performs(defs, c, op)
  {
    hide Called, Marked;
    var p :| Chain(defs, p) && p[0] == n && op in Marked(defs[p[|p| - 1]].ops);
    if |p| > 1 {
      ShorterChain(defs, p);
      assert p[1..][|p| - 2] == p[|p| - 1];
      assert Performs(defs, p[1], op);
    }
  }

  /** A function's set of used operations holds exactly those it performs in any number of calls. */
  lemma {:induction false} OpsAreReachable(lib: Library, defs: seq<Definition>, n: nat, op: nat)
    requires IsLibrary(lib, defs) && n < |lib| == |defs|
    ensures op in lib[n].ops <==> Performs(defs, n, op)
  {
    hide Called, Closed, Marked, IsLibrary, Performs;
    LibraryUses(lib, defs, n);
    var called := Called(defs[n].ops);
    assert op in lib[n].ops <==> UsedOp(lib, Marked(defs[n].ops), called, op);
    if op in Marked(defs[n].ops) {
      PerformsItself(defs, n, op);
    } else if c :| c in called && c < |lib| && op in lib[c].ops {
      OpsAreReachable(lib, defs, c, op);
      PerformsStep(defs, n, c, op);
    }
    if Performs(defs, n, op) {
      PerformsFirst(defs, n, op);
      if op !in Marked(defs[n].ops) {
        var c :| c in called && c < |defs| && Performs(defs, c, op);
        OpsAreReachable(lib, defs, c, op);
      }
    }
  }

  /** raytracing(): a ray is traced in the function or in any callable it calls, however deep. */
  lemma RaytracingIff(lib: Library, defs: seq<Definition>, n: nat)
    requires IsLibrary(lib, defs) && n < |lib| == |defs|
    ensures Raytracing(lib[n]) <==> Performs(defs, n, TRACE_CLOSEST) || Performs(defs, n, TRACE_ANY)
  {
    OpsAreReachable(lib, defs, n, TRACE_CLOSEST);
    OpsAreReachable(lib, defs, n, TRACE_ANY);
  }
}
