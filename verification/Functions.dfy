/**
 * The function under construction and the building primitives of
 * src/ast/function_builder.{h,cpp}, on values: each primitive maps the builder's
 * state before the call to the state after it.
 */
module Functions {
  import opened Types
  import opened Ast

  const CUSTOM: nat := 0
  const SYNCHRONIZE_BLOCK: nat := 54
  const TRACE_CLOSEST: nat := 103
  const TRACE_ANY: nat := 104

  datatype Binding =
    | NoBinding
    | BufferBinding(handle: nat, offset: nat, size: nat)
    | TextureBinding(handle: nat, level: nat)
    | BindlessArrayBinding(handle: nat)
    | AccelBinding(handle: nat)

  datatype Const = Const(ty: Type, key: Key)

  /** `body` holds the statements of the innermost open scope; `count` is the size of the usage table. */
  datatype Function = Function(
    kernel: bool,
    blockSize: (nat, nat, nat),
    builtins: seq<Variable>,
    arguments: seq<Variable>,
    bindings: seq<Binding>,
    locals: seq<Variable>,
    shareds: seq<Variable>,
    count: nat,
    body: seq<Stmt>,
    returnType: Option<Type>,
    ops: set<nat>,
    customs: seq<Key>,
    constants: seq<Const>)

  function NewFunction(kernel: bool): Function {
    Function(kernel, (0, 0, 0), [], [], [], [], [], 0, [], None, {}, [], [])
  }

  // ----- Variables -----

  predicate Below(vs: seq<Variable>, n: nat) {
    forall i | 0 <= i < |vs| :: vs[i].uid < n
  }

  predicate IsBuiltin(tag: Tag) {
    tag.ThreadId? || tag.BlockId? || tag.DispatchId? || tag.DispatchSize?
  }

  const UINT3: Type := Vector(Uint, 3)

  function Local(f: Function, ty: Type): (Function, Variable) {
    var v := Variable(ty, Ast.Local, f.count);
    (f.(locals := f.locals + [v], count := f.count + 1), v)
  }

  function Shared(f: Function, ty: Type): (Function, Variable) {
    var v := Variable(ty, Ast.Shared, f.count);
    (f.(shareds := f.shareds + [v], count := f.count + 1), v)
  }

  /** A new argument, bound or not. */
  function Argument(f: Function, ty: Type, tag: Tag, binding: Binding): (Function, Variable) {
    var v := Variable(ty, tag, f.count);
    (f.(arguments := f.arguments + [v], bindings := f.bindings + [binding], count := f.count + 1), v)
  }

  /** The first variable with this tag. */
  function FindTag(vs: seq<Variable>, tag: Tag): Option<Variable> {
    if vs == [] then None
    else if vs[0].tag == tag then Some(vs[0])
    else FindTag(vs[1..], tag)
  }

  /** In callables, builtin variables are treated like arguments. */
  function Builtin(f: Function, tag: Tag): (Function, Variable) {
    var found := FindTag(f.builtins, tag);
    if found.Some? then (f, found.value) else
      var v := Variable(UINT3, tag, f.count);
      var g := f.(builtins := f.builtins + [v]);
      if f.kernel then (g.(count := g.count + 1), v)
      else Argument(g, UINT3, tag, NoBinding)
  }

  /** Whether an argument is already bound to the resource. */
  predicate SameResource(v: Variable, bound: Binding, ty: Type, wanted: Binding) {
    match wanted
    case NoBinding => false
    case BufferBinding(h, o, _) => bound.BufferBinding? && v.ty == ty && bound.handle == h && bound.offset == o
    case TextureBinding(h, l) => bound.TextureBinding? && v.ty == ty && bound.handle == h && bound.level == l
    case BindlessArrayBinding(h) => bound.BindlessArrayBinding? && bound.handle == h
    case AccelBinding(h) => bound.AccelBinding? && bound.handle == h
  }

  function WithoutSize(b: Binding): Binding {
    if b.BufferBinding? then b.(size := 0) else b
  }

  /** Two bindings that differ in the size of a buffer at most; buffers and textures also have their type. */
  predicate SameView(v: Variable, bound: Binding, ty: Type, wanted: Binding) {
    && wanted != NoBinding
    && WithoutSize(bound) == WithoutSize(wanted)
    && (wanted.BufferBinding? || wanted.TextureBinding? ==> v.ty == ty)
  }

  /** The searches compare exactly the fields in which two views can differ. */
  lemma SearchedView(v: Variable, bound: Binding, ty: Type, wanted: Binding)
    ensures SameResource(v, bound, ty, wanted) <==> SameView(v, bound, ty, wanted)
  {
  }

  function FindResource(f: Function, i: nat, ty: Type, wanted: Binding): (k: nat)
    requires |f.arguments| == |f.bindings|
    requires i <= |f.arguments|
    ensures i <= k <= |f.arguments|
    ensures k < |f.arguments| ==> SameResource(f.arguments[k], f.bindings[k], ty, wanted)
    ensures forall j | i <= j < k :: !SameResource(f.arguments[j], f.bindings[j], ty, wanted)
    decreases |f.arguments| - i
  {
    if i == |f.arguments| || SameResource(f.arguments[i], f.bindings[i], ty, wanted) then i
    else FindResource(f, i + 1, ty, wanted)
  }

  function Max(a: nat, b: nat): nat {
    if a < b then b else a
  }

  /** A buffer that is bound again keeps the larger size. */
  function Widened(bound: Binding, wanted: Binding): Binding {
    if bound.BufferBinding? && wanted.BufferBinding?
    then bound.(size := Max(bound.size, wanted.size))
    else bound
  }

  function ResourceTag(b: Binding): Tag {
    match b
    case NoBinding => Ast.Local
    case BufferBinding(_, _, _) => BufferTag
    case TextureBinding(_, _) => TextureTag
    case BindlessArrayBinding(_) => BindlessArrayTag
    case AccelBinding(_) => AccelTag
  }

  function ResourceType(b: Binding, ty: Type): Type {
    if b.BindlessArrayBinding? then BindlessArray
    else if b.AccelBinding? then Accel
    else ty
  }

  /** buffer_binding, texture_binding, bindless_array_binding and accel_binding. */
  function Bind(f: Function, ty: Type, wanted: Binding): (Function, Variable)
    requires |f.arguments| == |f.bindings|
  {
    var k := FindResource(f, 0, ty, wanted);
    if k < |f.arguments| then
      (f.(bindings := f.bindings[k := Widened(f.bindings[k], wanted)]), f.arguments[k])
    else
      Argument(f, ResourceType(wanted, ty), ResourceTag(wanted), wanted)
  }

  // ----- Statements and expressions -----

  function Append(f: Function, s: Stmt): Function {
    f.(body := f.body + [s])
  }

  function TypeOf(e: Expr): Option<Type> {
    if e.Call? then e.result
    else if e.Ref? then Some(e.variable.ty)
    else Some(e.ty)
  }

  function MakeReturn(f: Function, value: Option<Expr>): Result<Function> {
    if f.kernel && value.Some? then
      Err("Kernels cannot return non-void values.")
    else if f.returnType.Some? && (value.None? || TypeOf(value.value) != f.returnType) then
      Err("Mismatched return types")
    else if value.None? then
      Ok(Append(f, Return(None)))
    else
      Ok(Append(f.(returnType := TypeOf(value.value)), Return(value)))
  }

  function MakeAccess(f: Function, ty: Type, range: Expr, index: Expr): (Function, Expr) {
    if range.Literal? then
      var l := Local(f, range.ty);
      (Append(l.0, Assign(Ref(l.1), range)), Access(ty, Ref(l.1), index))
    else
      (f, Access(ty, range, index))
  }

  function Digit4(code: nat, k: nat): nat {
    code / Power16(k) % 4
  }

  function Power16(k: nat): (p: nat)
    ensures p > 0
  {
    if k == 0 then 1 else 16 * Power16(k - 1)
  }

  function ScalarType(k: Kind): Type {
    match k
    case BoolKind => Types.Bool
    case FloatKind => Types.Float
    case IntKind => Types.Int
    case UintKind => Types.Uint
  }

  /** Swizzles of literals are folded; the folded vector keeps the type of the source vector. */
  function MakeSwizzle(ty: Type, self: Expr, size: nat, code: nat): Result<Expr> {
    if self.Literal? then
      if !self.value.VectorValue? then Err("Swizzle must be a vector")
      else if size == 0 || size > 4 then Err("Invalid swizzle size.")
      else if exists k | 0 <= k < size :: Digit4(code, k) >= |self.value.xs| then Err("Component out of range")
      else
        var xs := seq(size, k requires 0 <= k < size => self.value.xs[Digit4(code, k)]);
        if size == 1 then Ok(Literal(ScalarType(self.value.kind), ScalarValue(self.value.kind, xs[0])))
        else Ok(Literal(Vector(ScalarType(self.value.kind), |self.value.xs|), VectorValue(self.value.kind, xs)))
    else if size == 0 || size > 4 then
      Err("Swizzle size must be in [1, 4]")
    else
      Ok(Swizzle(ty, self, size, code))
  }

  function MakeConstant(f: Function, ty: Type, key: Key): Result<(Function, Expr)> {
    if !ty.Array? then Err("Constant data must be array.")
    else Ok((f.(constants := f.constants + [Const(ty, key)]), Constant(ty, key)))
  }

  // ----- Calls -----

  /** A void call becomes a statement of its own, and no expression. */
  function CallResult(f: Function, call: Expr): (Option<Expr>, Function)
    requires call.Call?
  {
    if call.result.None? then (None, Append(f, ExprStmt(call))) else (Some(call), f)
  }

  function CallBuiltin(f: Function, ty: Option<Type>, op: nat, args: seq<Expr>): Result<(Option<Expr>, Function)> {
    if op == CUSTOM then Err("Custom functions are not allowed to be called with enum CallOp.")
    else Ok(CallResult(f.(ops := f.ops + {op}), Call(ty, Callee.Builtin(op), args)))
  }

  /** Builtins and captured resources go to the callee's positions, explicit arguments to the others. */
  function Place(f: Function, callee: Function, i: nat, args: seq<Expr>): (r: Result<(seq<Expr>, Function, seq<Expr>)>)
    requires |f.arguments| == |f.bindings| && |callee.arguments| == |callee.bindings|
    requires i <= |callee.arguments|
    ensures r.Ok? ==> |r.value.1.arguments| == |r.value.1.bindings|
    decreases |callee.arguments| - i
  {
    if i == |callee.arguments| then
      Ok(([], f, args))
    else
      var v := callee.arguments[i];
      var b := callee.bindings[i];
      if IsBuiltin(v.tag) then
        var p := Builtin(f, v.tag);
        var r :- Place(p.0, callee, i + 1, args);
        Ok(([Ref(p.1)] + r.0, r.1, r.2))
      else if b.NoBinding? then
        if args == [] then Err("Too few call arguments") else
          var r :- Place(f, callee, i + 1, args[1..]);
          Ok(([args[0]] + r.0, r.1, r.2))
      else
        var p := Bind(f, v.ty, b);
        var r :- Place(p.0, callee, i + 1, args);
        Ok(([Ref(p.1)] + r.0, r.1, r.2))
  }

  function AppendNew<T(==,!new)>(xs: seq<T>, ys: seq<T>): (zs: seq<T>)
    ensures forall x :: x in zs <==> x in xs || x in ys
    ensures xs <= zs
    decreases |ys|
  {
    if ys == [] then xs
    else AppendNew(if ys[0] in xs then xs else xs + [ys[0]], ys[1..])
  }

  /** The first call of a callable makes everything it uses used in the caller. */
  function Propagate(f: Function, key: Key, callee: Function): Function {
    if key in f.customs then f else
      f.(ops := f.ops + callee.ops,
         constants := AppendNew(f.constants, callee.constants),
         customs := AppendNew(f.customs + [key], callee.customs))
  }

  function CallCustom(
      f: Function, ty: Option<Type>, key: Key, callee: Function, args: seq<Expr>): (r: Result<(Option<Expr>, Function)>)
    requires |f.arguments| == |f.bindings| && |callee.arguments| == |callee.bindings|
    ensures r.Ok? ==> |r.value.1.arguments| == |r.value.1.bindings|
  {
    if callee.kernel then Err("Calling non-callable function in device code.") else
      var p :- Place(f, callee, 0, args);
      if p.2 != [] then Err("Invalid call arguments for custom callable")
      else Ok(CallResult(Propagate(p.1, key, callee), Call(ty, Custom(key), p.0)))
  }

  // ----- The end of a definition -----

  predicate Raytracing(f: Function) {
    TRACE_CLOSEST in f.ops || TRACE_ANY in f.ops
  }

  function Finish(f: Function): Result<Function> {
    if f.kernel && f.returnType.Some? then
      Err("Kernels cannot have non-void return types.")
    else if Raytracing(f) && (f.shareds != [] || SYNCHRONIZE_BLOCK in f.ops) then
      Err("Raytracing functions are not allowed to use shared storage or call synchronize_block().")
    else if |f.arguments| != |f.bindings| then
      Err("Arguments and their bindings have different sizes")
    else
      Ok(f)
  }
}
