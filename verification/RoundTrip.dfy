/**
 * Reading back what was written: the rebuilt kernel is the original one, and every
 * callable is rebuilt in closure-converted form, with captured resources and builtin
 * variables as ordinary arguments in the same positions.
 */
module RoundTrip {
  import opened Integers
  import opened Types
  import opened Descriptions
  import opened Ast
  import opened Functions
  import opened FunctionDump
  import opened FunctionParse

  // ----- What a function is rebuilt into -----

  /** A callable's builtin variables become ordinary arguments. */
  function RetagVariable(kernel: bool, v: Variable): Variable {
    if !kernel && IsBuiltin(v.tag) then v.(tag := Ast.Local) else v
  }

  function RetagExpr(kernel: bool, e: Expr): Expr
    decreases e, 0
  {
    match e
    case Unary(ty, op, x) => Unary(ty, op, RetagExpr(kernel, x))
    case Binary(ty, op, l, r) => Binary(ty, op, RetagExpr(kernel, l), RetagExpr(kernel, r))
    case Member(ty, x, i) => Member(ty, RetagExpr(kernel, x), i)
    case Swizzle(ty, x, n, c) => Swizzle(ty, RetagExpr(kernel, x), n, c)
    case Access(ty, r, i) => Access(ty, RetagExpr(kernel, r), RetagExpr(kernel, i))
    case Literal(_, _) => e
    case Ref(v) => Ref(RetagVariable(kernel, v))
    case Constant(_, _) => e
    case Call(ty, callee, args) => Call(ty, callee, RetagExprs(kernel, args))
    case Cast(ty, bitwise, x) => Cast(ty, bitwise, RetagExpr(kernel, x))
  }

  function RetagExprs(kernel: bool, es: seq<Expr>): (r: seq<Expr>)
    ensures |r| == |es|
    decreases es, 1
  {
    if es == [] then [] else [RetagExpr(kernel, es[0])] + RetagExprs(kernel, es[1..])
  }

  function RetagStmt(kernel: bool, s: Stmt): Stmt
    decreases s, 0
  {
    match s
    case Break => s
    case Continue => s
    case Return(None) => s
    case Return(Some(e)) => Return(Some(RetagExpr(kernel, e)))
    case Scope(b) => Scope(RetagStmts(kernel, b))
    case If(c, t, f) => If(RetagExpr(kernel, c), RetagStmts(kernel, t), RetagStmts(kernel, f))
    case Loop(b) => Loop(RetagStmts(kernel, b))
    case ExprStmt(e) => ExprStmt(RetagExpr(kernel, e))
    case Switch(e, b) => Switch(RetagExpr(kernel, e), RetagStmts(kernel, b))
    case Case(e, b) => Case(RetagExpr(kernel, e), RetagStmts(kernel, b))
    case Default(b) => Default(RetagStmts(kernel, b))
    case Assign(l, r) => Assign(RetagExpr(kernel, l), RetagExpr(kernel, r))
    case For(v, c, st, b) =>
      For(RetagExpr(kernel, v), RetagExpr(kernel, c), RetagExpr(kernel, st), RetagStmts(kernel, b))
    case Comment(_) => s
  }

  function RetagStmts(kernel: bool, body: seq<Stmt>): (r: seq<Stmt>)
    ensures |r| == |body|
    decreases body, 1
  {
    if body == [] then [] else [RetagStmt(kernel, body[0])] + RetagStmts(kernel, body[1..])
  }

  function RetagVariables(kernel: bool, vs: seq<Variable>): (r: seq<Variable>)
    ensures |r| == |vs| && forall i | 0 <= i < |vs| :: r[i] == RetagVariable(kernel, vs[i])
  {
    if vs == [] then [] else RetagVariables(kernel, vs[..|vs| - 1]) + [RetagVariable(kernel, vs[|vs| - 1])]
  }

  function Unbound(bs: seq<Binding>): (r: seq<Binding>)
    ensures |r| == |bs| && forall i | 0 <= i < |bs| :: r[i] == NoBinding
  {
    if bs == [] then [] else Unbound(bs[..|bs| - 1]) + [NoBinding]
  }

  function Rebuilt(f: Function): Function {
    f.(builtins := if f.kernel then f.builtins else [],
       arguments := RetagVariables(f.kernel, f.arguments),
       bindings := if f.kernel then f.bindings else Unbound(f.bindings),
       body := RetagStmts(f.kernel, f.body))
  }

  /** All but the lists of used operations, callables and constants. */
  predicate SameShape(g: Function, f: Function) {
    && g == Rebuilt(f).(ops := g.ops, customs := g.customs, constants := g.constants)
    && g.ops <= f.ops
  }

  /**
   * The lists hold exactly what the body reaches: what was used but does not occur in the
   * body is lost.
   */
  ghost predicate IsRebuilt(parsed: map<Key, Function>, g: Function, f: Function) {
    SameShape(g, f) && Lists(parsed, g, BodyMentions(f.body))
  }

  /** A kernel is rebuilt as it was. */
  lemma {:induction false} KernelExprUnchanged(e: Expr)
    ensures RetagExpr(true, e) == e
    decreases e, 0
  {
    match e
    case Unary(_, _, x) => KernelExprUnchanged(x);
    case Binary(_, _, l, r) => KernelExprUnchanged(l); KernelExprUnchanged(r);
    case Member(_, x, _) => KernelExprUnchanged(x);
    case Swizzle(_, x, _, _) => KernelExprUnchanged(x);
    case Access(_, r, i) => KernelExprUnchanged(r); KernelExprUnchanged(i);
    case Literal(_, _) =>
    case Ref(_) =>
    case Constant(_, _) =>
    case Call(_, _, args) => KernelExprsUnchanged(args);
    case Cast(_, _, x) => KernelExprUnchanged(x);
  }

  lemma {:induction false} KernelExprsUnchanged(es: seq<Expr>)
    ensures RetagExprs(true, es) == es
    decreases es, 1
  {
    if es != [] {
      KernelExprUnchanged(es[0]);
      KernelExprsUnchanged(es[1..]);
    }
  }

  lemma {:induction false} KernelStmtUnchanged(s: Stmt)
    ensures RetagStmt(true, s) == s
    decreases s, 0
  {
    match s
    case Break =>
    case Continue =>
    case Return(None) =>
    case Return(Some(e)) => KernelExprUnchanged(e);
    case Scope(b) => KernelStmtsUnchanged(b);
    case If(c, t, f) => KernelExprUnchanged(c); KernelStmtsUnchanged(t); KernelStmtsUnchanged(f);
    case Loop(b) => KernelStmtsUnchanged(b);
    case ExprStmt(e) => KernelExprUnchanged(e);
    case Switch(e, b) => KernelExprUnchanged(e); KernelStmtsUnchanged(b);
    case Case(e, b) => KernelExprUnchanged(e); KernelStmtsUnchanged(b);
    case Default(b) => KernelStmtsUnchanged(b);
    case Assign(l, r) => KernelExprUnchanged(l); KernelExprUnchanged(r);
    case For(v, c, st, b) =>
      KernelExprUnchanged(v); KernelExprUnchanged(c); KernelExprUnchanged(st); KernelStmtsUnchanged(b);
    case Comment(_) =>
  }

  lemma {:induction false} KernelStmtsUnchanged(body: seq<Stmt>)
    ensures RetagStmts(true, body) == body
    decreases body, 1
  {
    if body != [] {
      KernelStmtUnchanged(body[0]);
      KernelStmtsUnchanged(body[1..]);
    }
  }

  lemma KernelUnchanged(f: Function)
    requires f.kernel
    ensures Rebuilt(f) == f
  {
    KernelStmtsUnchanged(f.body);
    assert RetagVariables(true, f.arguments) == f.arguments;
  }

  // ----- Well-formed programs -----

  datatype Role = BuiltinRole | ArgumentRole | SharedRole | LocalRole

  /** One variable of a function; uids are handed out in the order of the declarations. */
  datatype Decl = Decl(v: Variable, role: Role, binding: Binding)

  function Declare(f: Function, d: Decl): Function {
    match d.role
    case BuiltinRole =>
      var g := f.(builtins := f.builtins + [d.v], count := f.count + 1);
      if f.kernel then g else g.(arguments := f.arguments + [d.v], bindings := f.bindings + [NoBinding])
    case ArgumentRole =>
      f.(arguments := f.arguments + [d.v], bindings := f.bindings + [d.binding], count := f.count + 1)
    case SharedRole => f.(shareds := f.shareds + [d.v], count := f.count + 1)
    case LocalRole => f.(locals := f.locals + [d.v], count := f.count + 1)
  }

  function DeclareAll(start: Function, ds: seq<Decl>): Function {
    if ds == [] then start else Declare(DeclareAll(start, ds[..|ds| - 1]), ds[|ds| - 1])
  }

  predicate IsResource(tag: Tag) {
    tag.BufferTag? || tag.TextureTag? || tag.BindlessArrayTag? || tag.AccelTag?
  }

  /** A declaration on its own. */
  predicate Proper(d: Decl) {
    && Valid(d.v.ty)
    && match d.role
       case BuiltinRole => IsBuiltin(d.v.tag) && d.v.ty == UINT3 && d.binding == NoBinding
       case ArgumentRole =>
         && (d.v.tag.Local? || d.v.tag.Reference? || IsResource(d.v.tag))
         && (d.binding == NoBinding || ResourceTag(d.binding) == d.v.tag)
         && (d.v.tag.BindlessArrayTag? ==> d.v.ty == BindlessArray)
         && (d.v.tag.AccelTag? ==> d.v.ty == Accel)
         && BindingFits(d.binding)
       case SharedRole => d.v.tag.Shared? && d.binding == NoBinding
       case LocalRole => d.v.tag.Local? && d.binding == NoBinding
  }

  /** Texture levels are 32-bit words. */
  predicate BindingFits(b: Binding) {
    b.TextureBinding? ==> b.level < UINT
  }

  /** No builtin variable and no resource is declared twice. */
  predicate Distinct(c: Decl, d: Decl) {
    && (c.role.BuiltinRole? && d.role.BuiltinRole? ==> c.v.tag != d.v.tag)
    && !SameResource(c.v, c.binding, d.v.ty, d.binding)
  }

  predicate Admissible(ds: seq<Decl>) {
    && (forall i | 0 <= i < |ds| :: ds[i].v.uid == i && Proper(ds[i]))
    && forall i, j | 0 <= i < j < |ds| :: Distinct(ds[i], ds[j])
  }

  /** f has exactly these variables. */
  predicate HasVariables(f: Function, ds: seq<Decl>) {
    var g := DeclareAll(NewFunction(f.kernel), ds);
    && f.builtins == g.builtins && f.arguments == g.arguments && f.bindings == g.bindings
    && f.shareds == g.shareds && f.locals == g.locals && f.count == g.count
  }

  /** Callables call only callables of lower rank. */
  datatype Program = Program(functions: map<Key, Function>, rank: map<Key, nat>)

  predicate IsVoidCall(e: Expr) {
    e.Call? && e.result.None?
  }

  /** The type of a literal is the type of its value. */
  predicate ValueFits(ty: Type, v: Value) {
    match v
    case ScalarValue(k, _) => ty == ScalarType(k)
    case VectorValue(k, xs) => 2 <= |xs| <= 4 && ty == Vector(ScalarType(k), |xs|)
    case MatrixValue(n, xs) => 2 <= n <= 4 && |xs| == n * n && ty == Matrix(n)
  }

  /** An expression the builder can have made inside f, which has this rank. */
  ghost predicate ExprOk(p: Program, f: Function, rank: nat, ds: seq<Decl>, e: Expr)
    decreases e, 0
  {
    match e
    case Unary(ty, _, x) => Valid(ty) && OperandOk(p, f, rank, ds, x)
    case Binary(ty, _, l, r) => Valid(ty) && OperandOk(p, f, rank, ds, l) && OperandOk(p, f, rank, ds, r)
    case Member(ty, x, i) => Valid(ty) && OperandOk(p, f, rank, ds, x) && i < UINT
    case Swizzle(ty, x, n, c) =>
      Valid(ty) && OperandOk(p, f, rank, ds, x) && 1 <= n <= 4 && c < UINT && !x.Literal?
    case Access(ty, r, i) => Valid(ty) && OperandOk(p, f, rank, ds, r) && OperandOk(p, f, rank, ds, i) && !r.Literal?
    case Literal(ty, v) => Valid(ty) && ValueFits(ty, v)
    case Ref(v) => v.uid < |ds| && ds[v.uid].v == v
    case Constant(ty, _) => Valid(ty) && ty.Array?
    case Call(ty, Builtin(op), args) =>
      && (ty.Some? ==> Valid(ty.value))
      && op != CUSTOM && op in f.ops
      && OperandsOk(p, f, rank, ds, args)
    case Call(ty, Custom(k), args) =>
      && (ty.Some? ==> Valid(ty.value))
      && k in p.functions && k in p.rank && p.rank[k] < rank
      && !p.functions[k].kernel && |args| == |p.functions[k].arguments|
      && p.functions[k].ops <= f.ops
      && OperandsOk(p, f, rank, ds, args)
    case Cast(ty, _, x) => Valid(ty) && OperandOk(p, f, rank, ds, x)
  }

  ghost predicate OperandOk(p: Program, f: Function, rank: nat, ds: seq<Decl>, e: Expr)
    decreases e, 1
  {
    ExprOk(p, f, rank, ds, e) && !IsVoidCall(e)
  }

  ghost predicate OperandsOk(p: Program, f: Function, rank: nat, ds: seq<Decl>, es: seq<Expr>)
    decreases es, 2
  {
    forall i | 0 <= i < |es| :: OperandOk(p, f, rank, ds, es[i])
  }

  /** All returns agree with the return type of the function. */
  ghost predicate StmtOk(p: Program, f: Function, rank: nat, ds: seq<Decl>, s: Stmt)
    decreases s, 0
  {
    match s
    case Break => true
    case Continue => true
    case Return(None) => f.returnType == None
    case Return(Some(e)) =>
      OperandOk(p, f, rank, ds, e) && !f.kernel && f.returnType == TypeOf(e)
    case Scope(_) => false
    case If(c, t, e) => OperandOk(p, f, rank, ds, c) && StmtsOk(p, f, rank, ds, t) && StmtsOk(p, f, rank, ds, e)
    case Loop(b) => StmtsOk(p, f, rank, ds, b)
    case ExprStmt(e) => ExprOk(p, f, rank, ds, e)
    case Switch(e, b) => OperandOk(p, f, rank, ds, e) && StmtsOk(p, f, rank, ds, b)
    case Case(e, b) => OperandOk(p, f, rank, ds, e) && StmtsOk(p, f, rank, ds, b)
    case Default(b) => StmtsOk(p, f, rank, ds, b)
    case Assign(l, r) => OperandOk(p, f, rank, ds, l) && OperandOk(p, f, rank, ds, r)
    case For(v, c, st, b) =>
      && OperandOk(p, f, rank, ds, v) && OperandOk(p, f, rank, ds, c) && OperandOk(p, f, rank, ds, st)
      && StmtsOk(p, f, rank, ds, b)
    case Comment(_) => true
  }

  ghost predicate StmtsOk(p: Program, f: Function, rank: nat, ds: seq<Decl>, body: seq<Stmt>)
    decreases body, 1
  {
    forall i | 0 <= i < |body| :: StmtOk(p, f, rank, ds, body[i])
  }

  /** A value is returned somewhere. */
  predicate ReturnsValue(s: Stmt)
    decreases s, 0
  {
    match s
    case Return(v) => v.Some?
    case If(_, t, f) => SomeReturnsValue(t) || SomeReturnsValue(f)
    case Loop(b) => SomeReturnsValue(b)
    case Switch(_, b) => SomeReturnsValue(b)
    case Case(_, b) => SomeReturnsValue(b)
    case Default(b) => SomeReturnsValue(b)
    case For(_, _, _, b) => SomeReturnsValue(b)
    case _ => false
  }

  predicate SomeReturnsValue(body: seq<Stmt>)
    decreases body, 1
  {
    body != [] && (SomeReturnsValue(body[..|body| - 1]) || ReturnsValue(body[|body| - 1]))
  }

  ghost predicate FunctionOk(p: Program, f: Function, rank: nat, ds: seq<Decl>)
  {
    && Admissible(ds)
    && HasVariables(f, ds)
    && StmtsOk(p, f, rank, ds, f.body)
    && (f.returnType.Some? <==> SomeReturnsValue(f.body))
    && (!f.kernel ==> f.blockSize == (0, 0, 0))
    && Finish(f).Ok?
  }

  ghost predicate ProgramOk(p: Program) {
    && p.functions.Keys == p.rank.Keys
    && forall k | k in p.functions :: VariablesExist(p, k)
  }

  /** Some list of variables makes function k well-formed. */
  ghost predicate VariablesExist(p: Program, k: Key)
    requires k in p.functions && k in p.rank
  {
    exists ds :: FunctionOk(p, p.functions[k], p.rank[k], ds)
  }

  // ----- What a body mentions -----

  datatype Mention = Operation(op: nat) | Callable(key: Key) | Data(ty: Type, key: Key)

  function Mentions(e: Expr): set<Mention>
    decreases e, 0
  {
    match e
    case Unary(_, _, x) => Mentions(x)
    case Binary(_, _, l, r) => Mentions(l) + Mentions(r)
    case Member(_, x, _) => Mentions(x)
    case Swizzle(_, x, _, _) => Mentions(x)
    case Access(_, r, i) => Mentions(r) + Mentions(i)
    case Literal(_, _) => {}
    case Ref(_) => {}
    case Constant(ty, k) => {Data(ty, k)}
    case Call(_, callee, args) => MentionsOf(args) + {Called(callee)}
    case Cast(_, _, x) => Mentions(x)
  }

  function Called(callee: Callee): Mention {
    match callee
    case Builtin(op) => Operation(op)
    case Custom(k) => Callable(k)
  }

  function MentionsOf(es: seq<Expr>): set<Mention>
    decreases es, 1
  {
    if es == [] then {} else MentionsOf(es[..|es| - 1]) + Mentions(es[|es| - 1])
  }

  function StmtMentions(s: Stmt): set<Mention>
    decreases s, 0
  {
    match s
    case Break => {}
    case Continue => {}
    case Return(None) => {}
    case Return(Some(e)) => Mentions(e)
    case Scope(b) => BodyMentions(b)
    case If(c, t, f) => Mentions(c) + BodyMentions(t) + BodyMentions(f)
    case Loop(b) => BodyMentions(b)
    case ExprStmt(e) => Mentions(e)
    case Switch(e, b) => Mentions(e) + BodyMentions(b)
    case Case(e, b) => Mentions(e) + BodyMentions(b)
    case Default(b) => BodyMentions(b)
    case Assign(l, r) => Mentions(l) + Mentions(r)
    case For(v, c, st, b) => Mentions(v) + Mentions(c) + Mentions(st) + BodyMentions(b)
    case Comment(_) => {}
  }

  function BodyMentions(body: seq<Stmt>): set<Mention>
    decreases body, 1
  {
    if body == [] then {} else BodyMentions(body[..|body| - 1]) + StmtMentions(body[|body| - 1])
  }

  /** What is called is there. */
  predicate CalleesExist(p: Program, ms: set<Mention>) {
    forall m | m in ms :: m.Callable? ==> m.key in p.functions
  }

  lemma {:induction false} ExprCallees(p: Program, f: Function, rank: nat, ds: seq<Decl>, e: Expr)
    requires ExprOk(p, f, rank, ds, e)
    ensures CalleesExist(p, Mentions(e))
    decreases e, 0
  {
    match e
    case Unary(_, _, x) => ExprCallees(p, f, rank, ds, x);
    case Binary(_, _, l, r) => ExprCallees(p, f, rank, ds, l); ExprCallees(p, f, rank, ds, r);
    case Member(_, x, _) => ExprCallees(p, f, rank, ds, x);
    case Swizzle(_, x, _, _) => ExprCallees(p, f, rank, ds, x);
    case Access(_, r, i) => ExprCallees(p, f, rank, ds, r); ExprCallees(p, f, rank, ds, i);
    case Literal(_, _) =>
    case Ref(_) =>
    case Constant(_, _) =>
    case Call(_, _, args) => OperandCallees(p, f, rank, ds, args);
    case Cast(_, _, x) => ExprCallees(p, f, rank, ds, x);
  }

  lemma {:induction false} OperandCallees(p: Program, f: Function, rank: nat, ds: seq<Decl>, es: seq<Expr>)
    requires OperandsOk(p, f, rank, ds, es)
    ensures CalleesExist(p, MentionsOf(es))
    decreases es, 1
  {
    hide ExprOk, Mentions;
    if es != [] {
      assert OperandOk(p, f, rank, ds, es[|es| - 1]);
      ExprCallees(p, f, rank, ds, es[|es| - 1]);
      OperandCallees(p, f, rank, ds, es[..|es| - 1]);
    }
  }

  lemma {:induction false} StmtCallees(p: Program, f: Function, rank: nat, ds: seq<Decl>, s: Stmt)
    requires StmtOk(p, f, rank, ds, s)
    ensures CalleesExist(p, StmtMentions(s))
    decreases s, 0
  {
    hide ExprOk, Mentions, BodyMentions, StmtsOk;
    match s
    case Break =>
    case Continue =>
    case Return(None) =>
    case Return(Some(e)) => ExprCallees(p, f, rank, ds, e);
    case If(c, t, e) =>
      ExprCallees(p, f, rank, ds, c); BodyCallees(p, f, rank, ds, t); BodyCallees(p, f, rank, ds, e);
    case Loop(b) => BodyCallees(p, f, rank, ds, b);
    case ExprStmt(e) => ExprCallees(p, f, rank, ds, e);
    case Switch(e, b) => ExprCallees(p, f, rank, ds, e); BodyCallees(p, f, rank, ds, b);
    case Case(e, b) => ExprCallees(p, f, rank, ds, e); BodyCallees(p, f, rank, ds, b);
    case Default(b) => BodyCallees(p, f, rank, ds, b);
    case Assign(l, r) => ExprCallees(p, f, rank, ds, l); ExprCallees(p, f, rank, ds, r);
    case For(v, c, st, b) =>
      ExprCallees(p, f, rank, ds, v); ExprCallees(p, f, rank, ds, c); ExprCallees(p, f, rank, ds, st);
      BodyCallees(p, f, rank, ds, b);
    case Comment(_) =>
  }

  lemma {:induction false} BodyCallees(p: Program, f: Function, rank: nat, ds: seq<Decl>, body: seq<Stmt>)
    requires StmtsOk(p, f, rank, ds, body)
    ensures CalleesExist(p, BodyMentions(body))
    decreases body, 1
  {
    hide StmtOk, StmtMentions;
    if body != [] {
      StmtCallees(p, f, rank, ds, body[|body| - 1]);
      BodyCallees(p, f, rank, ds, body[..|body| - 1]);
    }
  }

  /** What f has in its lists of used operations, callables and constants. */
  predicate Listed(f: Function, m: Mention) {
    match m
    case Operation(op) => op in f.ops
    case Callable(k) => k in f.customs
    case Data(ty, k) => Const(ty, k) in f.constants
  }

  /** What is mentioned, or listed by a function that is mentioned. */
  ghost predicate Reached(functions: map<Key, Function>, ms: set<Mention>, m: Mention) {
    m in ms || exists k :: Callable(k) in ms && k in functions && Listed(functions[k], m)
  }

  ghost predicate Lists(functions: map<Key, Function>, f: Function, ms: set<Mention>) {
    forall m :: Listed(f, m) <==> Reached(functions, ms, m)
  }

  /** What the document has. */
  predicate Contained(doc: Doc, ms: set<Mention>) {
    forall m | m in ms :: Defines(doc.functions.Keys, doc.constants, m)
  }

  predicate Defines(functions: set<Key>, constants: set<Key>, m: Mention) {
    match m
    case Operation(_) => true
    case Callable(k) => k in functions
    case Data(_, k) => k in constants
  }

  /** The document holds functions of the program, with all that they mention. */
  predicate Faithful(doc: Doc, p: Program) {
    forall k | k in doc.functions ::
      && k in p.functions
      && |p.functions[k].arguments| == |p.functions[k].bindings|
      && doc.functions[k] == DumpFunction(p.functions[k])
      && Contained(doc, BodyMentions(p.functions[k].body))
  }

  // ----- Variables are written -----

  /** What is written for one variable. */
  function DumpDecl(kernel: bool, d: Decl): map<Field, Json> {
    match d.role
    case BuiltinRole => DumpBuiltin(kernel, d.v)
    case ArgumentRole => DumpArgument(kernel, d.v, d.binding)
    case SharedRole => DumpPlain(d.v, WShared)
    case LocalRole => DumpPlain(d.v, WLocal)
  }

  function DumpDecls(kernel: bool, ds: seq<Decl>): (js: seq<Json>)
    ensures |js| == |ds|
    ensures forall i | 0 <= i < |ds| :: js[i] == JObject(DumpDecl(kernel, ds[i]))
  {
    if ds == [] then [] else DumpDecls(kernel, ds[..|ds| - 1]) + [JObject(DumpDecl(kernel, ds[|ds| - 1]))]
  }

  /** The stages of writing variables, from any table. */
  function Stages(vars: seq<Json>, f: Function): seq<Json>
    requires |f.arguments| == |f.bindings|
  {
    AddPlain(
      AddPlain(AddArguments(AddBuiltins(vars, f.kernel, f.builtins), f.kernel, f.arguments, f.bindings),
        f.shareds, WShared),
      f.locals, WLocal)
  }

  lemma {:induction false} PlainStage(vars: seq<Json>, e: Json, vs: seq<Variable>, v: Variable, word: Word)
    requires Below(vs, |vars|) && v.uid == |vars|
    ensures AddPlain(vars + [e], vs, word) == AddPlain(vars, vs, word) + [e]
    ensures AddPlain(vars + [e], vs + [v], word) == AddPlain(vars, vs, word) + [Emplace(e, DumpPlain(v, word))]
    decreases |vs|
  {
    hide Emplace, DumpPlain;
    if vs == [] {
      assert (vs + [v])[1..] == [];
    } else {
      var vars' := EmplaceAt(vars, vs[0].uid, DumpPlain(vs[0], word));
      assert EmplaceAt(vars + [e], vs[0].uid, DumpPlain(vs[0], word)) == vars' + [e];
      assert (vs + [v])[1..] == vs[1..] + [v];
      PlainStage(vars', e, vs[1..], v, word);
    }
  }

  lemma {:induction false} BuiltinStage(vars: seq<Json>, e: Json, kernel: bool, vs: seq<Variable>, v: Variable)
    requires Below(vs, |vars|) && v.uid == |vars|
    ensures AddBuiltins(vars + [e], kernel, vs) == AddBuiltins(vars, kernel, vs) + [e]
    ensures AddBuiltins(vars + [e], kernel, vs + [v])
            == AddBuiltins(vars, kernel, vs) + [Emplace(e, DumpBuiltin(kernel, v))]
    decreases |vs|
  {
    hide Emplace, DumpBuiltin;
    if vs == [] {
      assert (vs + [v])[1..] == [];
    } else {
      var vars' := EmplaceAt(vars, vs[0].uid, DumpBuiltin(kernel, vs[0]));
      assert EmplaceAt(vars + [e], vs[0].uid, DumpBuiltin(kernel, vs[0])) == vars' + [e];
      assert (vs + [v])[1..] == vs[1..] + [v];
      BuiltinStage(vars', e, kernel, vs[1..], v);
    }
  }

  lemma {:induction false} ArgumentStage(
    vars: seq<Json>, e: Json, kernel: bool, vs: seq<Variable>, bs: seq<Binding>, v: Variable, b: Binding)
    requires |vs| == |bs| && Below(vs, |vars|) && v.uid == |vars|
    ensures AddArguments(vars + [e], kernel, vs, bs) == AddArguments(vars, kernel, vs, bs) + [e]
    ensures AddArguments(vars + [e], kernel, vs + [v], bs + [b])
            == AddArguments(vars, kernel, vs, bs) + [Emplace(e, DumpArgument(kernel, v, b))]
    decreases |vs|
  {
    hide Emplace, DumpArgument;
    if vs == [] {
      assert (vs + [v])[1..] == [] && (bs + [b])[1..] == [];
    } else {
      var vars' := EmplaceAt(vars, vs[0].uid, DumpArgument(kernel, vs[0], bs[0]));
      assert EmplaceAt(vars + [e], vs[0].uid, DumpArgument(kernel, vs[0], bs[0])) == vars' + [e];
      assert (vs + [v])[1..] == vs[1..] + [v] && (bs + [b])[1..] == bs[1..] + [b];
      ArgumentStage(vars', e, kernel, vs[1..], bs[1..], v, b);
    }
  }

  /** The variables of a function have uids below its count. */
  predicate Counted(f: Function) {
    && |f.arguments| == |f.bindings|
    && Below(f.builtins, f.count) && Below(f.arguments, f.count)
    && Below(f.shareds, f.count) && Below(f.locals, f.count)
  }

  lemma OneMoreVariable(vars: seq<Json>, f: Function, d: Decl)
    requires Counted(f) && |vars| == f.count == d.v.uid
    requires d.role.BuiltinRole? ==> d.v.ty == UINT3 && IsBuiltin(d.v.tag)
    ensures var g := Declare(f, d);
            && |g.arguments| == |g.bindings|
            && Stages(vars + [JObject(map[])], g) == Stages(vars, f) + [JObject(DumpDecl(f.kernel, d))]
  {
    hide AddPlain, AddBuiltins, AddArguments, Emplace, DumpPlain, DumpBuiltin, DumpArgument;
    var none := JObject(map[]);
    var v := d.v;
    var e1 := if d.role.BuiltinRole? then Emplace(none, DumpBuiltin(f.kernel, v)) else none;
    var vars1 := AddBuiltins(vars, f.kernel, f.builtins);
    BuiltinStage(vars, none, f.kernel, f.builtins, v);
    var binding := if d.role.BuiltinRole? then NoBinding else d.binding;
    var e2 := if d.role.ArgumentRole? || (d.role.BuiltinRole? && !f.kernel)
              then Emplace(e1, DumpArgument(f.kernel, v, binding)) else e1;
    var vars2 := AddArguments(vars1, f.kernel, f.arguments, f.bindings);
    ArgumentStage(vars1, e1, f.kernel, f.arguments, f.bindings, v, binding);
    var e3 := if d.role.SharedRole? then Emplace(e2, DumpPlain(v, WShared)) else e2;
    var vars3 := AddPlain(vars2, f.shareds, WShared);
    PlainStage(vars2, e2, f.shareds, v, WShared);
    var e4 := if d.role.LocalRole? then Emplace(e3, DumpPlain(v, WLocal)) else e3;
    PlainStage(vars3, e3, f.locals, v, WLocal);
    Emplaced(f.kernel, d);
  }

  /** The first writer of a key wins; the second one of a callable's builtin variable would write the same. */
  lemma Emplaced(kernel: bool, d: Decl)
    requires d.role.BuiltinRole? ==> d.v.ty == UINT3 && IsBuiltin(d.v.tag)
    ensures Emplace(JObject(map[]), DumpDecl(kernel, d)) == JObject(DumpDecl(kernel, d))
    ensures d.role.BuiltinRole? && !kernel ==>
              Emplace(JObject(DumpDecl(kernel, d)), DumpArgument(kernel, d.v, NoBinding))
              == JObject(DumpDecl(kernel, d))
  {
    assert DumpDecl(kernel, d) + map[] == DumpDecl(kernel, d);
    if d.role.BuiltinRole? && !kernel {
      assert DumpArgument(kernel, d.v, NoBinding) == DumpDecl(kernel, d);
    }
  }

  lemma DeclareCounts(f: Function, d: Decl)
    requires Counted(f) && d.v.uid == f.count
    ensures var g := Declare(f, d); Counted(g) && g.count == f.count + 1 && g.kernel == f.kernel
  {
  }

  lemma {:induction false} DeclaredCounts(start: Function, ds: seq<Decl>)
    requires start == NewFunction(start.kernel).(blockSize := start.blockSize)
    requires forall i | 0 <= i < |ds| :: ds[i].v.uid == i
    ensures var g := DeclareAll(start, ds);
            Counted(g) && g.count == |ds| && g.kernel == start.kernel
  {
    if ds != [] {
      hide Counted, Declare;
      DeclaredCounts(start, ds[..|ds| - 1]);
      DeclareCounts(DeclareAll(start, ds[..|ds| - 1]), ds[|ds| - 1]);
    }
  }

  lemma {:induction false} VariablesWritten(kernel: bool, ds: seq<Decl>)
    requires Admissible(ds)
    ensures var g := DeclareAll(NewFunction(kernel), ds);
            && |g.arguments| == |g.bindings|
            && DumpVariables(g) == DumpDecls(kernel, ds)
  {
    var g := DeclareAll(NewFunction(kernel), ds);
    DeclaredCounts(NewFunction(kernel), ds);
    assert DumpVariables(g) == Stages(NoVariables(g.count), g);
    if ds == [] {
    } else {
      var front := ds[..|ds| - 1];
      var d := ds[|ds| - 1];
      var f := DeclareAll(NewFunction(kernel), front);
      DeclaredCounts(NewFunction(kernel), front);
      VariablesWritten(kernel, front);
      assert NoVariables(|ds|) == NoVariables(|front|) + [JObject(map[])];
      OneMoreVariable(NoVariables(|front|), f, d);
    }
  }

  // ----- Variables are read -----

  /** In callables, builtin variables become arguments and bindings are dropped. */
  function RetagDecl(kernel: bool, d: Decl): Decl {
    if kernel then d
    else Decl(RetagVariable(kernel, d.v), if d.role.BuiltinRole? then ArgumentRole else d.role, NoBinding)
  }

  function RetagDecls(kernel: bool, ds: seq<Decl>): (r: seq<Decl>)
    ensures |r| == |ds| && forall i | 0 <= i < |ds| :: r[i] == RetagDecl(kernel, ds[i])
  {
    if ds == [] then [] else RetagDecls(kernel, ds[..|ds| - 1]) + [RetagDecl(kernel, ds[|ds| - 1])]
  }

  function VariablesOf(ds: seq<Decl>): (r: seq<Variable>)
    ensures |r| == |ds| && forall i | 0 <= i < |ds| :: r[i] == ds[i].v
  {
    if ds == [] then [] else VariablesOf(ds[..|ds| - 1]) + [ds[|ds| - 1].v]
  }

  /** Declaring d makes a new variable: no builtin variable or resource is found again. */
  predicate IsNew(g: Function, d: Decl)
    requires |g.arguments| == |g.bindings|
  {
    && (d.role.BuiltinRole? ==> FindTag(g.builtins, d.v.tag) == None)
    && FindResource(g, 0, d.v.ty, d.binding) == |g.arguments|
  }

  lemma DeclFields(kernel: bool, d: Decl)
    requires Proper(d)
    ensures var j := JObject(DumpDecl(kernel, d));
            && ValueTypeAt(j) == Ok(d.v.ty)
            && WordAt(j, FTag) == Ok(
                 match d.role
                 case BuiltinRole => if kernel then BuiltinWord(d.v.tag) else WArgument
                 case ArgumentRole => ArgumentWord(d.v.tag)
                 case SharedRole => WShared
                 case LocalRole => WLocal)
            && if d.role.ArgumentRole? && KeepsBinding(kernel, d.v, d.binding)
               then At(j, FBinding) == Ok(DumpBinding(d.binding)) else At(j, FBinding).Err?
  {
    var j := JObject(DumpDecl(kernel, d));
    hide DumpType;
    assert At(j, FType) == Ok(DumpType(Some(d.v.ty)));
    ValueTypeBack(j, d.v.ty);
    hide ValueTypeAt;
  }

  lemma BindingBack(b: Binding, tag: Tag)
    requires b != NoBinding && ResourceTag(b) == tag && BindingFits(b)
    ensures ParseBinding(ArgumentWord(tag), DumpBinding(b)) == Ok(b)
  {
  }

  lemma VariableBack(kernel: bool, d: Decl, g: Function)
    requires |g.arguments| == |g.bindings| && g.kernel == kernel && g.count == d.v.uid
    requires Proper(d) && (kernel ==> IsNew(g, d))
    ensures ParseVariable(g, JObject(DumpDecl(kernel, d)))
            == Ok((Declare(g, RetagDecl(kernel, d)), RetagDecl(kernel, d).v))
  {
    hide *;
    if d.role.BuiltinRole? {
      BuiltinVariableBack(kernel, d, g);
    } else if d.role.ArgumentRole? && KeepsBinding(kernel, d.v, d.binding) {
      BoundBack(kernel, d, g);
    } else if d.role.ArgumentRole? && IsResource(d.v.tag) {
      UnboundBack(kernel, d, g);
    } else if d.role.ArgumentRole? {
      ParameterBack(kernel, d, g);
    } else {
      PlainBack(kernel, d, g);
    }
  }

  lemma BuiltinVariableBack(kernel: bool, d: Decl, g: Function)
    requires |g.arguments| == |g.bindings| && g.kernel == kernel && g.count == d.v.uid
    requires Proper(d) && (kernel ==> IsNew(g, d))
    requires d.role.BuiltinRole?
    ensures ParseVariable(g, JObject(DumpDecl(kernel, d)))
            == Ok((Declare(g, RetagDecl(kernel, d)), RetagDecl(kernel, d).v))
  {
    var j := JObject(DumpDecl(kernel, d));
    DeclFields(kernel, d);
    BuiltinDispatch(g, j, d.v.tag, d.v.ty);
    hide ParseVariable, BuiltinWord;
    hide DumpDecl, ValueTypeAt, WordAt, At, FindTag, FindResource, Valid, ParseResource;
  }

  lemma BuiltinDispatch(g: Function, j: Json, tag: Tag, ty: Type)
    requires |g.arguments| == |g.bindings| && IsBuiltin(tag) && ValueTypeAt(j) == Ok(ty)
    ensures WordAt(j, FTag) == Ok(BuiltinWord(tag)) ==> ParseVariable(g, j) == Ok(Functions.Builtin(g, tag))
    ensures WordAt(j, FTag) == Ok(WArgument) ==> ParseVariable(g, j) == Ok(Argument(g, ty, Ast.Local, NoBinding))
  {
    hide ParseResource, WordAt, ValueTypeAt, Functions.Builtin;
  }

  lemma ParameterBack(kernel: bool, d: Decl, g: Function)
    requires |g.arguments| == |g.bindings| && g.kernel == kernel && g.count == d.v.uid
    requires Proper(d) && (kernel ==> IsNew(g, d))
    requires d.role.ArgumentRole? && !IsResource(d.v.tag)
    ensures ParseVariable(g, JObject(DumpDecl(kernel, d)))
            == Ok((Declare(g, RetagDecl(kernel, d)), RetagDecl(kernel, d).v))
  {
    var j := JObject(DumpDecl(kernel, d));
    DeclFields(kernel, d);
    ParameterDispatch(g, j, d.v.tag, d.v.ty);
    hide ParseVariable, ArgumentWord;
    hide DumpDecl, ValueTypeAt, WordAt, At, FindTag, FindResource, Valid, ParseResource, Functions.Builtin;
  }

  lemma ParameterDispatch(g: Function, j: Json, tag: Tag, ty: Type)
    requires |g.arguments| == |g.bindings| && (tag.Local? || tag.Reference?)
    requires WordAt(j, FTag) == Ok(ArgumentWord(tag)) && ValueTypeAt(j) == Ok(ty)
    ensures ParseVariable(g, j) == Ok(Argument(g, ty, tag, NoBinding))
  {
    hide ParseResource, WordAt, ValueTypeAt, Functions.Builtin;
  }

  lemma PlainBack(kernel: bool, d: Decl, g: Function)
    requires |g.arguments| == |g.bindings| && g.kernel == kernel && g.count == d.v.uid
    requires Proper(d) && (kernel ==> IsNew(g, d))
    requires d.role.SharedRole? || d.role.LocalRole?
    ensures ParseVariable(g, JObject(DumpDecl(kernel, d)))
            == Ok((Declare(g, RetagDecl(kernel, d)), RetagDecl(kernel, d).v))
  {
    var j := JObject(DumpDecl(kernel, d));
    DeclFields(kernel, d);
    PlainDispatch(g, j, d.v.ty);
    hide ParseVariable;
    hide DumpDecl, ValueTypeAt, WordAt, At, FindTag, FindResource, Valid, ParseResource, Functions.Builtin;
  }

  lemma PlainDispatch(g: Function, j: Json, ty: Type)
    requires |g.arguments| == |g.bindings| && ValueTypeAt(j) == Ok(ty)
    ensures WordAt(j, FTag) == Ok(WShared) ==> ParseVariable(g, j) == Ok(Functions.Shared(g, ty))
    ensures WordAt(j, FTag) == Ok(WLocal) ==> ParseVariable(g, j) == Ok(Functions.Local(g, ty))
  {
    hide ParseResource, WordAt, ValueTypeAt, Functions.Builtin;
  }

  lemma BoundBack(kernel: bool, d: Decl, g: Function)
    requires |g.arguments| == |g.bindings| && g.kernel == kernel && g.count == d.v.uid
    requires Proper(d) && (kernel ==> IsNew(g, d))
    requires d.role.ArgumentRole? && KeepsBinding(kernel, d.v, d.binding)
    ensures ParseVariable(g, JObject(DumpDecl(kernel, d)))
            == Ok((Declare(g, RetagDecl(kernel, d)), RetagDecl(kernel, d).v))
  {
    var j := JObject(DumpDecl(kernel, d));
    DeclFields(kernel, d);
    ResourceDispatch(g, j, d.v.tag, d.v.ty);
    hide ParseVariable, ArgumentWord;
    hide DumpDecl, ValueTypeAt, WordAt, At, FindTag, FindResource, Valid, Functions.Builtin, ParseBinding;
    hide DumpBinding;
    BindingBack(d.binding, d.v.tag);
  }

  lemma UnboundBack(kernel: bool, d: Decl, g: Function)
    requires |g.arguments| == |g.bindings| && g.kernel == kernel && g.count == d.v.uid
    requires Proper(d) && (kernel ==> IsNew(g, d))
    requires d.role.ArgumentRole? && IsResource(d.v.tag) && !KeepsBinding(kernel, d.v, d.binding)
    ensures ParseVariable(g, JObject(DumpDecl(kernel, d)))
            == Ok((Declare(g, RetagDecl(kernel, d)), RetagDecl(kernel, d).v))
  {
    var j := JObject(DumpDecl(kernel, d));
    DeclFields(kernel, d);
    ResourceDispatch(g, j, d.v.tag, d.v.ty);
    ResourceWords(d.v.tag);
    hide ParseVariable, ArgumentWord, ResourceOf;
    hide DumpDecl, ValueTypeAt, WordAt, At, FindTag, FindResource, Valid, Functions.Builtin, ParseBinding;
    hide DumpBinding, DumpBinding, SameResource, Bind;
  }

  lemma ResourceDispatch(g: Function, j: Json, tag: Tag, ty: Type)
    requires |g.arguments| == |g.bindings| && IsResource(tag)
    requires WordAt(j, FTag) == Ok(ArgumentWord(tag)) && ValueTypeAt(j) == Ok(ty)
    ensures ParseVariable(g, j) == ParseResource(g, j, ArgumentWord(tag), ty)
  {
    hide ParseResource, WordAt, ValueTypeAt, Functions.Builtin;
  }

  lemma ResourceWords(tag: Tag)
    requires IsResource(tag)
    ensures ResourceOf(ArgumentWord(tag)) == tag
    ensures ArgumentWord(tag) == WBindlessArray <==> tag.BindlessArrayTag?
    ensures ArgumentWord(tag) == WAccel <==> tag.AccelTag?
  {
  }

  lemma FindsNoTag(vs: seq<Variable>, tag: Tag)
    requires forall i | 0 <= i < |vs| :: vs[i].tag != tag
    ensures FindTag(vs, tag) == None
  {
  }

  lemma {:induction false} DeclaredDistinct(start: Function, ds: seq<Decl>, d: Decl)
    requires start == NewFunction(true).(blockSize := start.blockSize)
    requires forall i | 0 <= i < |ds| :: Distinct(ds[i], d)
    ensures var g := DeclareAll(start, ds);
            && g.kernel && |g.arguments| == |g.bindings|
            && (d.role.BuiltinRole? ==> forall i | 0 <= i < |g.builtins| :: g.builtins[i].tag != d.v.tag)
            && forall i | 0 <= i < |g.arguments| :: !SameResource(g.arguments[i], g.bindings[i], d.v.ty, d.binding)
  {
    hide SameResource;
    if ds != [] {
      DeclaredDistinct(start, ds[..|ds| - 1], d);
    }
  }

  lemma {:induction false} VariablesRead(start: Function, ds: seq<Decl>, js: seq<Json>)
    requires start == NewFunction(start.kernel).(blockSize := start.blockSize)
    requires Admissible(ds) && |js| >= |ds|
    requires forall i | 0 <= i < |ds| :: js[i] == JObject(DumpDecl(start.kernel, ds[i]))
    ensures var rs := RetagDecls(start.kernel, ds);
            ParseVariables(start, js, |ds|) == Ok((DeclareAll(start, rs), VariablesOf(rs)))
    ensures var g := DeclareAll(start, RetagDecls(start.kernel, ds));
            g.kernel == start.kernel && g.count == |ds| && |g.arguments| == |g.bindings|
  {
    hide DumpDecl, ParseVariable, Declare, DeclareAll, RetagDecls, VariablesOf, Proper, Distinct, RetagDecl;
    hide IsNew;
    var kernel := start.kernel;
    RetaggedStep(start, ds);
    if ds != [] {
      var front := ds[..|ds| - 1];
      var d := ds[|ds| - 1];
      VariablesRead(start, front, js);
      var g := DeclareAll(start, RetagDecls(kernel, front));
      if kernel {
        KernelDecls(front);
        DeclaredDistinct(start, front, d);
        FreshDecl(g, d);
      }
      VariableBack(kernel, d, g);
      DeclareShape(g, RetagDecl(kernel, d));
    }
  }

  lemma KernelDecls(ds: seq<Decl>)
    ensures RetagDecls(true, ds) == ds
  {
  }

  lemma RetaggedStep(start: Function, ds: seq<Decl>)
    ensures var rs := RetagDecls(start.kernel, ds);
            if ds == [] then
              rs == [] && DeclareAll(start, rs) == start && VariablesOf(rs) == []
            else
              var front := RetagDecls(start.kernel, ds[..|ds| - 1]);
              var r := RetagDecl(start.kernel, ds[|ds| - 1]);
              && DeclareAll(start, rs) == Declare(DeclareAll(start, front), r)
              && VariablesOf(rs) == VariablesOf(front) + [r.v]
  {
    hide Declare, RetagDecl;
    var rs := RetagDecls(start.kernel, ds);
    if ds != [] {
      assert rs[..|rs| - 1] == RetagDecls(start.kernel, ds[..|ds| - 1]);
    }
  }

  lemma DeclareShape(g: Function, d: Decl)
    requires |g.arguments| == |g.bindings|
    ensures var h := Declare(g, d);
            h.kernel == g.kernel && h.count == g.count + 1 && |h.arguments| == |h.bindings|
  {
  }

  lemma FreshDecl(g: Function, d: Decl)
    requires |g.arguments| == |g.bindings|
    requires d.role.BuiltinRole? ==> forall i | 0 <= i < |g.builtins| :: g.builtins[i].tag != d.v.tag
    requires forall i | 0 <= i < |g.arguments| :: !SameResource(g.arguments[i], g.bindings[i], d.v.ty, d.binding)
    ensures IsNew(g, d)
  {
    if d.role.BuiltinRole? {
      FindsNoTag(g.builtins, d.v.tag);
    }
  }

  /** The variables read are those of the rebuilt function. */
  lemma {:induction false} RebuiltVariables(kernel: bool, ds: seq<Decl>)
    requires Admissible(ds)
    ensures var f := DeclareAll(NewFunction(kernel), ds);
            f.kernel == kernel && Mirrors(f, DeclareAll(NewFunction(kernel), RetagDecls(kernel, ds)))
  {
    hide RetagDecl, Declare, Proper, Distinct;
    var f := DeclareAll(NewFunction(kernel), ds);
    if ds == [] {
      assert f == NewFunction(kernel) && RetagDecls(kernel, ds) == [];
    } else {
      var front := ds[..|ds| - 1];
      var d := ds[|ds| - 1];
      RebuiltVariables(kernel, front);
      var rs := RetagDecls(kernel, ds);
      assert rs[..|rs| - 1] == RetagDecls(kernel, front);
      var g := DeclareAll(NewFunction(kernel), RetagDecls(kernel, front));
      RebuiltVariable(DeclareAll(NewFunction(kernel), front), g, d);
    }
  }

  /** g has the rebuilt variables of f. */
  predicate Mirrors(f: Function, g: Function) {
    && g.builtins == (if f.kernel then f.builtins else [])
    && g.arguments == RetagVariables(f.kernel, f.arguments)
    && g.bindings == (if f.kernel then f.bindings else Unbound(f.bindings))
    && g.shareds == f.shareds && g.locals == f.locals && g.count == f.count
    && g.kernel == f.kernel
  }

  lemma RebuiltVariable(f: Function, g: Function, d: Decl)
    requires Mirrors(f, g) && Proper(d)
    ensures Mirrors(Declare(f, d), Declare(g, RetagDecl(f.kernel, d))) && Declare(f, d).kernel == f.kernel
  {
    PlainUnchanged(f.kernel, d);
    RetagOneMore(f.kernel, f.arguments, d.v);
    UnboundOneMore(f.bindings, d.binding);
    hide Proper, RetagVariable, RetagVariables, Unbound;
  }

  lemma RetagOneMore(kernel: bool, vs: seq<Variable>, v: Variable)
    ensures RetagVariables(kernel, vs + [v]) == RetagVariables(kernel, vs) + [RetagVariable(kernel, v)]
  {
    assert (vs + [v])[..|vs|] == vs;
  }

  lemma UnboundOneMore(bs: seq<Binding>, b: Binding)
    ensures Unbound(bs + [b]) == Unbound(bs) + [NoBinding]
  {
    assert (bs + [b])[..|bs|] == bs;
  }

  lemma PlainUnchanged(kernel: bool, d: Decl)
    requires Proper(d)
    ensures d.role.SharedRole? || d.role.LocalRole? || kernel ==> RetagVariable(kernel, d.v) == d.v
    ensures d.role != ArgumentRole ==> d.binding == NoBinding
  {
  }

  lemma {:induction false} BlockSizeKept(start: Function, ds: seq<Decl>, blockSize: (nat, nat, nat))
    ensures DeclareAll(start.(blockSize := blockSize), ds) == DeclareAll(start, ds).(blockSize := blockSize)
  {
    if ds != [] {
      BlockSizeKept(start, ds[..|ds| - 1], blockSize);
    }
  }

  // ----- In the middle of a function -----

  /** The body of f, of this rank and with variables `ds`, is being read; `vars` are the rebuilt variables. */
  datatype Context = Context(
    doc: Doc, p: Program, f: Function, rank: nat, ds: seq<Decl>, vars: seq<Variable>, pending: set<Key>)

  ghost predicate InContext(c: Context) {
    && ProgramOk(c.p)
    && Faithful(c.doc, c.p)
    && c.pending != {}
    && |c.vars| == |c.ds|
    && (forall i | 0 <= i < |c.ds| :: c.vars[i] == RetagVariable(c.f.kernel, c.ds[i].v))
    && Above(c.p, c.pending, c.rank)
  }

  /** The functions being read have at least this rank. */
  predicate Above(p: Program, pending: set<Key>, rank: nat) {
    forall k | k in pending :: k in p.rank && p.rank[k] >= rank
  }

  /** The functions of the table are rebuilt, and so is everything they call. */
  ghost predicate AllRebuilt(p: Program, parsed: map<Key, Function>) {
    forall k | k in parsed :: k in p.functions && k in p.rank && KeyRebuilt(p, parsed, k)
  }

  ghost predicate KeyRebuilt(p: Program, parsed: map<Key, Function>, k: Key)
    requires k in parsed && k in p.functions && k in p.rank
  {
    && IsRebuilt(parsed, parsed[k], p.functions[k])
    && HasCallees(p, p.rank[k], parsed, BodyMentions(p.functions[k].body))
    && Closed(parsed, parsed[k])
  }

  /** What `ms` calls is in the table, and of lower rank. */
  predicate HasCallees(p: Program, rank: nat, parsed: map<Key, Function>, ms: set<Mention>) {
    forall m | m in ms :: m.Callable? ==> m.key in parsed && m.key in p.rank && p.rank[m.key] < rank
  }

  /** What the listed callables list is listed, too. */
  ghost predicate Closed(parsed: map<Key, Function>, f: Function) {
    forall k | k in f.customs :: k in parsed && ListsInclude(f, parsed[k])
  }

  ghost predicate ListsInclude(f: Function, callee: Function) {
    forall m | Listed(callee, m) :: Listed(f, m)
  }

  /** g lists what f lists, and what `ms` reaches. */
  ghost predicate Adds(parsed: map<Key, Function>, f: Function, g: Function, ms: set<Mention>) {
    forall m :: Listed(g, m) <==> Listed(f, m) || Reached(parsed, ms, m)
  }

  /** Functions were only added to the table, all of lower rank. */
  predicate Grows(p: Program, rank: nat, parsed: map<Key, Function>, parsed': map<Key, Function>) {
    && (forall k | k in parsed :: k in parsed' && parsed'[k] == parsed[k])
    && forall k | k in parsed' && k !in parsed :: k in p.rank && p.rank[k] < rank
  }

  ghost predicate Good(c: Context, env: Env) {
    && Sound(env)
    && env.f.kernel == c.f.kernel
    && env.f.ops <= c.f.ops
    && (env.f.returnType == None || env.f.returnType == c.f.returnType)
    && AllRebuilt(c.p, env.parsed)
    && Closed(env.parsed, env.f)
  }

  /** What `ms` calls is finished, and what it reaches was added to the lists. */
  ghost predicate Uses(c: Context, env: Env, env': Env, ms: set<Mention>) {
    && Grows(c.p, c.rank, env.parsed, env'.parsed)
    && HasCallees(c.p, c.rank, env'.parsed, ms)
    && Adds(env'.parsed, env.f, env'.f, ms)
  }

  /** Nothing but the lists changed. */
  ghost predicate Follows(c: Context, env: Env, env': Env, ms: set<Mention>) {
    && Good(c, env')
    && Uses(c, env, env', ms)
    && env'.f == env.f.(ops := env'.f.ops, customs := env'.f.customs, constants := env'.f.constants)
  }

  // ----- Lists -----

  lemma GrowsTwice(p: Program, rank: nat, a: map<Key, Function>, b: map<Key, Function>, c: map<Key, Function>)
    requires Grows(p, rank, a, b) && Grows(p, rank, b, c)
    ensures Grows(p, rank, a, c)
  {
  }

  /** What was reached stays the same when more functions are finished. */
  lemma ReachedLater(
      p: Program, rank: nat, parsed: map<Key, Function>, parsed': map<Key, Function>, ms: set<Mention>, m: Mention)
    requires HasCallees(p, rank, parsed, ms) && forall k | k in parsed :: k in parsed' && parsed'[k] == parsed[k]
    ensures Reached(parsed, ms, m) <==> Reached(parsed', ms, m)
  {
    hide Listed;
    if Reached(parsed', ms, m) && m !in ms {
      var k :| Callable(k) in ms && k in parsed' && Listed(parsed'[k], m);
    }
  }

  lemma ReachedByEither(parsed: map<Key, Function>, a: set<Mention>, b: set<Mention>, m: Mention)
    ensures Reached(parsed, a + b, m) <==> Reached(parsed, a, m) || Reached(parsed, b, m)
  {
    hide Listed;
  }

  lemma UsesNothing(c: Context, env: Env)
    ensures Uses(c, env, env, {})
  {
  }

  lemma UsesTwice(c: Context, env: Env, env1: Env, env2: Env, a: set<Mention>, b: set<Mention>)
    requires Uses(c, env, env1, a) && Uses(c, env1, env2, b)
    ensures Uses(c, env, env2, a + b)
  {
    hide Listed, Reached;
    GrowsTwice(c.p, c.rank, env.parsed, env1.parsed, env2.parsed);
    forall m
      ensures Listed(env2.f, m) <==> Listed(env.f, m) || Reached(env2.parsed, a + b, m)
    {
      ReachedLater(c.p, c.rank, env1.parsed, env2.parsed, a, m);
      ReachedByEither(env2.parsed, a, b, m);
    }
  }

  /** Nothing but the lists of two builders matters here. */
  predicate SameLists(f: Function, g: Function) {
    f.ops == g.ops && f.customs == g.customs && f.constants == g.constants
  }

  lemma SameListed(f: Function, g: Function, m: Mention)
    requires SameLists(f, g)
    ensures Listed(f, m) <==> Listed(g, m)
  {
  }

  lemma SameClosed(parsed: map<Key, Function>, f: Function, g: Function)
    requires SameLists(f, g)
    ensures Closed(parsed, f) <==> Closed(parsed, g)
  {
  }

  lemma UsesSame(c: Context, env: Env, env': Env, f: Function, f': Function, ms: set<Mention>)
    requires SameLists(env.f, f) && SameLists(env'.f, f')
    ensures Uses(c, env, env', ms) <==> Uses(c, env.(f := f), env'.(f := f'), ms)
  {
    hide Reached, HasCallees, Grows, Listed;
    forall m ensures Listed(env.f, m) <==> Listed(f, m) {
      SameListed(env.f, f, m);
    }
    forall m ensures Listed(env'.f, m) <==> Listed(f', m) {
      SameListed(env'.f, f', m);
    }
  }

  lemma ClosedLater(p: Program, rank: nat, parsed: map<Key, Function>, parsed': map<Key, Function>, f: Function)
    requires Closed(parsed, f) && Grows(p, rank, parsed, parsed')
    ensures Closed(parsed', f)
  {
    hide Listed;
  }

  /** The first call of a callable adds all it lists; a callable that is listed has nothing to add. */
  lemma PropagateAdds(parsed: map<Key, Function>, f: Function, k: Key)
    requires Closed(parsed, f) && k in parsed && Closed(parsed, parsed[k])
    ensures Adds(parsed, f, Propagate(f, k, parsed[k]), {Callable(k)})
    ensures Closed(parsed, Propagate(f, k, parsed[k]))
  {
    var callee := parsed[k];
    var g := Propagate(f, k, callee);
    forall m
      ensures Listed(g, m) <==> Listed(f, m) || m == Callable(k) || Listed(callee, m)
    {
    }
    hide Listed, Propagate;
    forall q | q in g.customs ensures q in parsed && ListsInclude(g, parsed[q]) {
      assert CalledBy(g, q);
      assert CalledBy(f, q) || q == k || CalledBy(callee, q);
    }
  }

  predicate CalledBy(f: Function, k: Key) {
    Listed(f, Callable(k))
  }

  lemma RebuiltLater(p: Program, parsed: map<Key, Function>, k: Key, f: Function, q: Key)
    requires k !in parsed && q in parsed && q in p.functions && q in p.rank && KeyRebuilt(p, parsed, q)
    ensures KeyRebuilt(p, parsed[k := f], q)
  {
    hide SameShape, Listed, Reached;
    var ms := BodyMentions(p.functions[q].body);
    hide BodyMentions;
    forall m
      ensures Reached(parsed, ms, m) <==> Reached(parsed[k := f], ms, m)
    {
      ReachedLater(p, p.rank[q], parsed, parsed[k := f], ms, m);
    }
  }

  // ----- One level of an expression -----

  lemma NotVoid(t: Type)
    requires Valid(t)
    ensures Print(t) != "void"
  {
    ParsePrint(t);
    VoidIsNoType("void");
  }

  lemma VoidIsNoType(s: string)
    requires s == "void"
    ensures Parse(s).Err?
  {
    IdentifierReadBack(s, []);
    assert s + [] == s;
  }

  lemma TypeBack(j: Json, ty: Option<Type>)
    requires At(j, FType) == Ok(DumpType(ty))
    requires ty.Some? ==> Valid(ty.value)
    ensures TypeAt(j) == Ok(ty)
  {
    hide Parse, Print;
    if ty.Some? {
      NotVoid(ty.value);
      ParsePrint(ty.value);
    }
  }

  lemma ValueTypeBack(j: Json, ty: Type)
    requires At(j, FType) == Ok(DumpType(Some(ty))) && Valid(ty)
    ensures ValueTypeAt(j) == Ok(ty)
  {
    hide TypeAt;
    TypeBack(j, Some(ty));
  }

  lemma UnaryFields(ty: Type, op: nat, x: Expr)
    requires Valid(ty)
    ensures var j := DumpExpr(Unary(ty, op, x));
            && WordAt(j, FTag) == Ok(WUnary)
            && ValueTypeAt(j) == Ok(ty)
            && NumberAt(j, FOp) == Ok(op)
            && At(j, FOperand) == Ok(DumpExpr(x))
  {
    hide Valid, DumpType, ValueTypeAt;
    ValueTypeBack(DumpExpr(Unary(ty, op, x)), ty);
  }

  lemma UnaryBack(c: Context, j: Json, ty: Type, op: nat, x: Expr, env: Env, env1: Env)
    requires Sound(env)
    requires WordAt(j, FTag) == Ok(WUnary)
    requires ValueTypeAt(j) == Ok(ty) && NumberAt(j, FOp) == Ok(op)
    requires ParseOperand(c.doc, c.vars, j, FOperand, env, c.pending) == Ok((x, env1))
    ensures ParseExpr(c.doc, c.vars, j, env, c.pending) == Ok((Some(Unary(ty, op, x)), env1))
  {
    hide ParseOperand, ValueTypeAt, WordAt, NumberAt, HashAt, ParseBinary, ParseMember, ParseAccess;
    hide ParseLiteral, ParseRef, ParseConstant, ParseCall, ParseCast;
  }

  lemma BinaryFields(ty: Type, op: nat, l: Expr, r: Expr)
    requires Valid(ty)
    ensures var j := DumpExpr(Binary(ty, op, l, r));
            && WordAt(j, FTag) == Ok(WBinary)
            && ValueTypeAt(j) == Ok(ty)
            && NumberAt(j, FOp) == Ok(op)
            && At(j, FLhs) == Ok(DumpExpr(l))
            && At(j, FRhs) == Ok(DumpExpr(r))
  {
    hide Valid, DumpType, ValueTypeAt;
    ValueTypeBack(DumpExpr(Binary(ty, op, l, r)), ty);
  }

  lemma BinaryBack(c: Context, j: Json, ty: Type, op: nat, l: Expr, r: Expr, env: Env, env1: Env, env2: Env)
    requires Sound(env)
    requires WordAt(j, FTag) == Ok(WBinary)
    requires Sound(env1) && ValueTypeAt(j) == Ok(ty) && NumberAt(j, FOp) == Ok(op)
    requires ParseOperand(c.doc, c.vars, j, FLhs, env, c.pending) == Ok((l, env1))
    requires ParseOperand(c.doc, c.vars, j, FRhs, env1, c.pending) == Ok((r, env2))
    ensures ParseExpr(c.doc, c.vars, j, env, c.pending) == Ok((Some(Binary(ty, op, l, r)), env2))
  {
    hide ParseOperand, ValueTypeAt, WordAt, NumberAt, HashAt, ParseUnary, ParseMember, ParseAccess;
    hide ParseLiteral, ParseRef, ParseConstant, ParseCall, ParseCast;
  }

  lemma MemberFields(ty: Type, x: Expr, i: nat)
    requires Valid(ty)
    ensures var j := DumpExpr(Member(ty, x, i));
            && WordAt(j, FTag) == Ok(WMember)
            && ValueTypeAt(j) == Ok(ty)
            && At(j, FSelf) == Ok(DumpExpr(x))
            && At(j, FIndex) == Ok(JNumber(i))
  {
    hide Valid, DumpType, ValueTypeAt;
    ValueTypeBack(DumpExpr(Member(ty, x, i)), ty);
  }

  lemma MemberBack(c: Context, j: Json, ty: Type, x: Expr, i: nat, env: Env, env1: Env)
    requires Sound(env)
    requires WordAt(j, FTag) == Ok(WMember)
    requires ValueTypeAt(j) == Ok(ty)
    requires ParseOperand(c.doc, c.vars, j, FSelf, env, c.pending) == Ok((x, env1))
    requires At(j, FIndex) == Ok(JNumber(i)) && NumberAt(j, FIndex) == Ok(i) && i < UINT
    ensures ParseExpr(c.doc, c.vars, j, env, c.pending) == Ok((Some(Member(ty, x, i)), env1))
  {
    hide ParseOperand, ValueTypeAt, WordAt, NumberAt, HashAt, ParseUnary, ParseBinary, ParseAccess;
    hide ParseLiteral, ParseRef, ParseConstant, ParseCall, ParseCast;
  }

  lemma SwizzleFields(ty: Type, x: Expr, n: nat, code: nat)
    requires Valid(ty)
    ensures var j := DumpExpr(Swizzle(ty, x, n, code));
            && WordAt(j, FTag) == Ok(WMember)
            && ValueTypeAt(j) == Ok(ty)
            && At(j, FSelf) == Ok(DumpExpr(x))
            && At(j, FIndex).Err?
            && At(j, FSwizzle) == Ok(JArray([JNumber(n), JNumber(code)]))
  {
    hide Valid, DumpType, ValueTypeAt;
    ValueTypeBack(DumpExpr(Swizzle(ty, x, n, code)), ty);
  }

  lemma SwizzleBack(c: Context, j: Json, ty: Type, x: Expr, n: nat, code: nat, env: Env, env1: Env)
    requires Sound(env)
    requires WordAt(j, FTag) == Ok(WMember)
    requires ValueTypeAt(j) == Ok(ty)
    requires ParseOperand(c.doc, c.vars, j, FSelf, env, c.pending) == Ok((x, env1))
    requires At(j, FIndex).Err? && At(j, FSwizzle) == Ok(JArray([JNumber(n), JNumber(code)]))
    requires !x.Literal? && 1 <= n <= 4 && code < UINT
    ensures ParseExpr(c.doc, c.vars, j, env, c.pending) == Ok((Some(Swizzle(ty, x, n, code)), env1))
  {
    hide ParseOperand, ValueTypeAt, WordAt, NumberAt, HashAt, ParseUnary, ParseBinary, ParseAccess;
    hide ParseLiteral, ParseRef, ParseConstant, ParseCall, ParseCast;
  }

  lemma AccessFields(ty: Type, x: Expr, i: Expr)
    requires Valid(ty)
    ensures var j := DumpExpr(Access(ty, x, i));
            && WordAt(j, FTag) == Ok(WAccess)
            && ValueTypeAt(j) == Ok(ty)
            && At(j, FSelf) == Ok(DumpExpr(x))
            && At(j, FIndex) == Ok(DumpExpr(i))
  {
    hide Valid, DumpType, ValueTypeAt;
    ValueTypeBack(DumpExpr(Access(ty, x, i)), ty);
  }

  lemma AccessBack(c: Context, j: Json, ty: Type, x: Expr, i: Expr, env: Env, env1: Env, env2: Env)
    requires Sound(env)
    requires WordAt(j, FTag) == Ok(WAccess)
    requires Sound(env1) && ValueTypeAt(j) == Ok(ty) && !x.Literal?
    requires ParseOperand(c.doc, c.vars, j, FSelf, env, c.pending) == Ok((x, env1))
    requires ParseOperand(c.doc, c.vars, j, FIndex, env1, c.pending) == Ok((i, env2))
    ensures ParseExpr(c.doc, c.vars, j, env, c.pending) == Ok((Some(Access(ty, x, i)), env2))
  {
    hide ParseOperand, ValueTypeAt, WordAt, NumberAt, HashAt, ParseUnary, ParseBinary, ParseMember;
    hide ParseLiteral, ParseRef, ParseConstant, ParseCall, ParseCast;
  }

  lemma CastFields(ty: Type, bitwise: bool, x: Expr)
    requires Valid(ty)
    ensures var j := DumpExpr(Cast(ty, bitwise, x));
            && WordAt(j, FTag) == Ok(WCast)
            && ValueTypeAt(j) == Ok(ty)
            && At(j, FOperand) == Ok(DumpExpr(x))
            && WordAt(j, FOp) == Ok(if bitwise then WBitwise else WStatic)
  {
    hide Valid, DumpType, ValueTypeAt;
    ValueTypeBack(DumpExpr(Cast(ty, bitwise, x)), ty);
  }

  lemma CastBack(c: Context, j: Json, ty: Type, bitwise: bool, x: Expr, env: Env, env1: Env)
    requires Sound(env)
    requires WordAt(j, FTag) == Ok(WCast)
    requires ValueTypeAt(j) == Ok(ty) && WordAt(j, FOp) == Ok(if bitwise then WBitwise else WStatic)
    requires ParseOperand(c.doc, c.vars, j, FOperand, env, c.pending) == Ok((x, env1))
    ensures ParseExpr(c.doc, c.vars, j, env, c.pending) == Ok((Some(Cast(ty, bitwise, x)), env1))
  {
    hide ParseOperand, ValueTypeAt, WordAt, NumberAt, HashAt, ParseUnary, ParseBinary, ParseMember;
    hide ParseAccess, ParseLiteral, ParseRef, ParseConstant, ParseCall;
  }

  lemma {:induction false} ElementsBack(items: seq<Json>, kind: Kind, xs: seq<int>)
    requires |items| >= |xs| && forall i | 0 <= i < |xs| :: items[i] == JScalar(kind, xs[i])
    ensures ReadElements(items, kind, |xs|) == Ok(xs)
  {
    if xs != [] {
      var front := xs[..|xs| - 1];
      ElementsBack(items, kind, front);
      assert xs == front + [xs[|xs| - 1]];
    }
  }

  lemma {:induction false} ElementsAreRead(items: seq<Json>, kind: Kind, n: nat)
    requires ReadElements(items, kind, n).Ok?
    ensures var xs := ReadElements(items, kind, n).value;
            |xs| == n <= |items| && forall i | 0 <= i < n :: items[i] == JScalar(kind, xs[i])
  {
    if n > 0 {
      ElementsAreRead(items, kind, n - 1);
    }
  }

  /** A literal is read back exactly when its type is the type of its value. */
  lemma ValueBack(ty: Type, v: Value)
    ensures ParseValue(ty, DumpValue(v)) == Ok(v) <==> ValueFits(ty, v)
  {
    if ValueFits(ty, v) {
      ValueBackIf(ty, v);
    }
    if ParseValue(ty, DumpValue(v)) == Ok(v) {
      ValueBackOnlyIf(ty, v);
    }
  }

  lemma ValueBackIf(ty: Type, v: Value)
    requires ValueFits(ty, v)
    ensures ParseValue(ty, DumpValue(v)) == Ok(v)
  {
    hide ReadElements;
    match v
    case ScalarValue(_, _) =>
    case VectorValue(k, xs) => ElementsBack(DumpElements(k, xs), k, xs);
    case MatrixValue(_, xs) => ElementsBack(DumpElements(FloatKind, xs), FloatKind, xs);
  }

  lemma ValueBackOnlyIf(ty: Type, v: Value)
    requires ParseValue(ty, DumpValue(v)) == Ok(v)
    ensures ValueFits(ty, v)
  {
    hide ReadElements;
    match v
    case ScalarValue(_, _) =>
    case VectorValue(k, xs) => ElementsAreRead(DumpElements(k, xs), KindOf(ty.elem).value, ty.dim);
    case MatrixValue(_, xs) => ElementsAreRead(DumpElements(FloatKind, xs), FloatKind, ty.dim * ty.dim);
  }

  /**
   * A folded swizzle keeps the type of the source vector (src/ast/function_builder.cpp:241):
   * the literal can be read back only if the swizzle is a scalar or keeps the width.
   */
  lemma FoldedSwizzle(ty: Type, source: Type, kind: Kind, xs: seq<int>, n: nat, code: nat)
    requires 2 <= |xs| <= 4
    requires MakeSwizzle(ty, Literal(source, VectorValue(kind, xs)), n, code).Ok?
    ensures var e := MakeSwizzle(ty, Literal(source, VectorValue(kind, xs)), n, code).value;
            && e.Literal?
            && (ParseValue(e.ty, DumpValue(e.value)) == Ok(e.value) <==> n == 1 || n == |xs|)
  {
    var e := MakeSwizzle(ty, Literal(source, VectorValue(kind, xs)), n, code).value;
    ValueBack(e.ty, e.value);
    hide ParseValue, DumpValue;
  }

  lemma LiteralBack(c: Context, ty: Type, v: Value, env: Env)
    requires Sound(env) && Valid(ty) && ValueFits(ty, v)
    ensures ParseExpr(c.doc, c.vars, DumpExpr(Literal(ty, v)), env, c.pending) == Ok((Some(Literal(ty, v)), env))
  {
    hide DumpExpr, DumpValue, ParseValue, ValueTypeAt, WordAt, At, Valid, ValueFits;
    LiteralFields(ty, v);
    ValueBack(ty, v);
  }

  lemma LiteralFields(ty: Type, v: Value)
    requires Valid(ty)
    ensures var j := DumpExpr(Literal(ty, v));
            WordAt(j, FTag) == Ok(WLiteral) && ValueTypeAt(j) == Ok(ty) && At(j, FValue) == Ok(DumpValue(v))
  {
    hide Valid, DumpType, ValueTypeAt;
    ValueTypeBack(DumpExpr(Literal(ty, v)), ty);
  }

  lemma RefBack(c: Context, v: Variable, env: Env)
    requires Sound(env) && v.uid < |c.vars|
    ensures ParseExpr(c.doc, c.vars, DumpExpr(Ref(v)), env, c.pending) == Ok((Some(Ref(c.vars[v.uid])), env))
  {
    var j := DumpExpr(Ref(v));
    assert WordAt(j, FTag) == Ok(WRef) && NumberAt(j, FVariable) == Ok(v.uid);
    hide DumpExpr, WordAt, NumberAt;
  }

  lemma ConstantBack(c: Context, ty: Type, key: Key, env: Env)
    requires Sound(env) && Valid(ty) && ty.Array? && key in c.doc.constants
    ensures ParseExpr(c.doc, c.vars, DumpExpr(Constant(ty, key)), env, c.pending)
            == Ok((Some(Constant(ty, key)), env.(f := env.f.(constants := env.f.constants + [Const(ty, key)]))))
  {
    hide DumpExpr, WordAt, HashAt, ValueTypeAt, Valid;
    ConstantFields(ty, key);
  }

  lemma ConstantFields(ty: Type, key: Key)
    requires Valid(ty)
    ensures var j := DumpExpr(Constant(ty, key));
            WordAt(j, FTag) == Ok(WConstant) && ValueTypeAt(j) == Ok(ty) && HashAt(j, FKey) == Ok(key)
  {
    hide Valid, DumpType, ValueTypeAt;
    ValueTypeBack(DumpExpr(Constant(ty, key)), ty);
  }

  lemma CallFields(ty: Option<Type>, callee: Callee, args: seq<Expr>)
    requires ty.Some? ==> Valid(ty.value)
    ensures var j := DumpExpr(Call(ty, callee, args));
            && WordAt(j, FTag) == Ok(WCall)
            && TypeAt(j) == Ok(ty)
            && At(j, FArguments) == Ok(JArray(DumpExprs(args)))
            && match callee
               case Builtin(op) => At(j, FOp).Ok? && NumberAt(j, FOp) == Ok(op)
               case Custom(k) => At(j, FOp).Err? && HashAt(j, FCustom) == Ok(k)
  {
    var j := DumpExpr(Call(ty, callee, args));
    hide DumpType;
    TypeBack(j, ty);
    hide TypeAt, DumpExprs;
  }

  /** A void call yields no expression but a statement. */
  function Yield(env: Env, call: Expr): (Option<Expr>, Env) {
    if IsVoidCall(call) then (None, Add(env, ExprStmt(call))) else (Some(call), env)
  }

  lemma YieldsExpr(kernel: bool, e: Expr, env: Env)
    requires !IsVoidCall(e)
    ensures Yield(env, RetagExpr(kernel, e)) == (Some(RetagExpr(kernel, e)), env)
  {
  }

  /** Calls, given their arguments. */
  lemma BuiltinCallBack(c: Context, j: Json, ty: Option<Type>, op: nat, args: seq<Expr>, a: Json, env: Env, env1: Env)
    requires Sound(env) && Sound(env1)
    requires WordAt(j, FTag) == Ok(WCall) && TypeAt(j) == Ok(ty) && At(j, FArguments) == Ok(a) && a.JArray?
    requires At(j, FOp).Ok? && NumberAt(j, FOp) == Ok(op) && op != CUSTOM
    requires ParseExprs(c.doc, c.vars, a, |a.items|, env, c.pending) == Ok((args, env1))
    ensures var env' := env1.(f := env1.f.(ops := env1.f.ops + {op}));
            ParseExpr(c.doc, c.vars, j, env, c.pending) == Ok(Yield(env', Call(ty, Callee.Builtin(op), args)))
  {
    CallDispatch(c, j, env);
    hide ParseExpr, At, WordAt, NumberAt, HashAt, TypeAt, ParseExprs, ParseFunction, CallCustom;
    hide ParseUnary, ParseBinary, ParseMember, ParseAccess, ParseCast, ParseLiteral, ParseRef, ParseConstant;
  }

  lemma CallDispatch(c: Context, j: Json, env: Env)
    requires Sound(env) && WordAt(j, FTag) == Ok(WCall)
    ensures ParseExpr(c.doc, c.vars, j, env, c.pending) == ParseCall(c.doc, c.vars, j, env, c.pending)
  {
    hide ParseCall, WordAt, NumberAt, HashAt, TypeAt, ParseExprs, ParseFunction, CallCustom, CallResult;
    hide ParseUnary, ParseBinary, ParseMember, ParseAccess, ParseCast, ParseLiteral, ParseRef, ParseConstant;
  }

  lemma CustomCallBack(
    c: Context, j: Json, ty: Option<Type>, key: Key, args: seq<Expr>, a: Json, env: Env, env1: Env,
    parsed: map<Key, Function>, f: Function)
    requires Sound(env) && Sound(env1)
    requires WordAt(j, FTag) == Ok(WCall) && TypeAt(j) == Ok(ty) && At(j, FArguments) == Ok(a) && a.JArray?
    requires At(j, FOp).Err? && HashAt(j, FCustom) == Ok(key)
    requires ParseExprs(c.doc, c.vars, a, |a.items|, env, c.pending) == Ok((args, env1))
    requires Finished(parsed) && key in parsed
    requires ParseFunction(c.doc, key, env1.parsed, c.pending) == Ok(parsed)
    requires CallCustom(env1.f, ty, key, parsed[key], args) == Ok(CallResult(f, Call(ty, Custom(key), args)))
    ensures ParseExpr(c.doc, c.vars, j, env, c.pending) == Ok(Yield(Env(f, parsed), Call(ty, Custom(key), args)))
  {
    CallDispatch(c, j, env);
    hide ParseExpr, At, WordAt, NumberAt, HashAt, TypeAt, ParseExprs, ParseFunction, CallCustom;
    hide ParseUnary, ParseBinary, ParseMember, ParseAccess, ParseCast, ParseLiteral, ParseRef, ParseConstant;
  }

  /** A rebuilt callable captures nothing: the arguments of a call are taken as they are. */
  lemma {:induction false} PlaceExplicit(f: Function, callee: Function, i: nat, args: seq<Expr>)
    requires |f.arguments| == |f.bindings| && |callee.arguments| == |callee.bindings|
    requires i <= |callee.arguments| && |args| == |callee.arguments| - i
    requires forall k | 0 <= k < |callee.arguments| ::
               !IsBuiltin(callee.arguments[k].tag) && callee.bindings[k] == NoBinding
    ensures Place(f, callee, i, args) == Ok((args, f, []))
    decreases |args|
  {
    if args != [] {
      PlaceExplicit(f, callee, i + 1, args[1..]);
      assert args == [args[0]] + args[1..];
    }
  }

  lemma CustomBack(f: Function, ty: Option<Type>, key: Key, callee: Function, original: Function, args: seq<Expr>)
    requires |f.arguments| == |f.bindings| && |callee.arguments| == |callee.bindings|
    requires SameShape(callee, original) && !original.kernel && |args| == |original.arguments|
    ensures CallCustom(f, ty, key, callee, args)
            == Ok(CallResult(Propagate(f, key, callee), Call(ty, Custom(key), args)))
  {
    PlaceExplicit(f, callee, 0, args);
  }

  // ----- Whole expressions -----

  lemma {:induction false} DumpedElement(es: seq<Expr>, i: nat)
    requires i < |es|
    ensures DumpExprs(es)[i] == DumpExpr(es[i])
  {
    if i > 0 {
      DumpedElement(es[1..], i - 1);
    }
  }

  lemma {:induction false} RetaggedElement(kernel: bool, es: seq<Expr>, i: nat)
    requires i < |es|
    ensures RetagExprs(kernel, es)[i] == RetagExpr(kernel, es[i])
  {
    if i > 0 {
      RetaggedElement(kernel, es[1..], i - 1);
    }
  }

  lemma {:induction false} MentionedElement(es: seq<Expr>, i: nat)
    requires i < |es|
    ensures Mentions(es[i]) <= MentionsOf(es)
    decreases |es|
  {
    if i < |es| - 1 {
      MentionedElement(es[..|es| - 1], i);
    }
  }

  lemma FollowsTwice(c: Context, env: Env, env1: Env, env2: Env, a: set<Mention>, b: set<Mention>)
    requires Follows(c, env, env1, a) && Follows(c, env1, env2, b)
    ensures Follows(c, env, env2, a + b)
  {
    hide Uses, Good;
    UsesTwice(c, env, env1, env2, a, b);
  }

  lemma FollowsSelf(c: Context, env: Env)
    requires Good(c, env)
    ensures Follows(c, env, env, {})
  {
    hide Uses, Good;
    UsesNothing(c, env);
  }

  lemma FollowsIsGood(c: Context, env: Env, env': Env, ms: set<Mention>)
    requires Follows(c, env, env', ms)
    ensures Good(c, env') && Sound(env')
  {
  }

  lemma OperandFound(c: Context, j: Json, field: Field, e: Json, x: Expr, env: Env, env': Env)
    requires Sound(env) && At(j, field) == Ok(e)
    requires ParseExpr(c.doc, c.vars, e, env, c.pending) == Ok((Some(x), env'))
    ensures ParseOperand(c.doc, c.vars, j, field, env, c.pending) == Ok((x, env'))
  {
    hide ParseExpr, At;
  }

  lemma {:induction false} OperandBack(c: Context, j: Json, field: Field, e: Expr, env: Env) returns (env': Env)
    requires InContext(c) && Sound(env) && Good(c, env)
    requires OperandOk(c.p, c.f, c.rank, c.ds, e) && Contained(c.doc, Mentions(e))
    requires At(j, field) == Ok(DumpExpr(e))
    ensures ParseOperand(c.doc, c.vars, j, field, env, c.pending)
            == Ok((RetagExpr(c.f.kernel, e), env'))
    ensures Follows(c, env, env', Mentions(e)) && Sound(env')
    decreases c.rank, 0, e, 3
  {
    hide *;
    env' := ExprBack(c, e, env);
    OperandFound(c, j, field, DumpExpr(e), RetagExpr(c.f.kernel, e), env, env');
  }

  lemma {:induction false} ExprBack(c: Context, e: Expr, env: Env) returns (env': Env)
    requires InContext(c) && Sound(env) && Good(c, env)
    requires OperandOk(c.p, c.f, c.rank, c.ds, e) && Contained(c.doc, Mentions(e))
    ensures ParseExpr(c.doc, c.vars, DumpExpr(e), env, c.pending)
            == Ok((Some(RetagExpr(c.f.kernel, e)), env'))
    ensures Follows(c, env, env', Mentions(e)) && Sound(env')
    decreases c.rank, 0, e, 2
  {
    var j := DumpExpr(e);
    hide DumpExpr, ParseExpr, ParseOperand, At, WordAt, NumberAt, ValueTypeAt, Valid, InContext, Good;
    hide Follows;
    match e
    case Unary(ty, op, x) =>
      UnaryFields(ty, op, x);
      env' := OperandBack(c, j, FOperand, x, env);
      UnaryBack(c, j, ty, op, RetagExpr(c.f.kernel, x), env, env');
    case Binary(ty, op, l, r) =>
      BinaryFields(ty, op, l, r);
      var env1 := OperandBack(c, j, FLhs, l, env);
      FollowsIsGood(c, env, env1, Mentions(l));
      env' := OperandBack(c, j, FRhs, r, env1);
      FollowsTwice(c, env, env1, env', Mentions(l), Mentions(r));
      BinaryBack(c, j, ty, op, RetagExpr(c.f.kernel, l), RetagExpr(c.f.kernel, r), env, env1, env');
    case Member(ty, x, i) =>
      MemberFields(ty, x, i);
      env' := OperandBack(c, j, FSelf, x, env);
      NumberFound(j, FIndex, i);
      MemberBack(c, j, ty, RetagExpr(c.f.kernel, x), i, env, env');
    case Swizzle(ty, x, n, code) =>
      SwizzleFields(ty, x, n, code);
      env' := OperandBack(c, j, FSelf, x, env);
      SwizzleBack(c, j, ty, RetagExpr(c.f.kernel, x), n, code, env, env');
    case Access(ty, x, i) =>
      AccessFields(ty, x, i);
      var env1 := OperandBack(c, j, FSelf, x, env);
      FollowsIsGood(c, env, env1, Mentions(x));
      env' := OperandBack(c, j, FIndex, i, env1);
      FollowsTwice(c, env, env1, env', Mentions(x), Mentions(i));
      AccessBack(c, j, ty, RetagExpr(c.f.kernel, x), RetagExpr(c.f.kernel, i), env, env1, env');
    case Literal(ty, v) =>
      LiteralBack(c, ty, v, env);
      env' := env;
      FollowsSelf(c, env);
    case Ref(v) =>
      KnownVariable(c, v);
      RefBack(c, v, env);
      env' := env;
      FollowsSelf(c, env);
    case Constant(ty, key) =>
      assert Data(ty, key) in Mentions(e);
      ConstantBack(c, ty, key, env);
      env' := env.(f := env.f.(constants := env.f.constants + [Const(ty, key)]));
      FollowsConstant(c, env, ty, key);
    case Call(_, _, _) =>
      env' := CallBack(c, e, env);
      YieldsExpr(c.f.kernel, e, env');
    case Cast(ty, bitwise, x) =>
      CastFields(ty, bitwise, x);
      env' := OperandBack(c, j, FOperand, x, env);
      CastBack(c, j, ty, bitwise, RetagExpr(c.f.kernel, x), env, env');
  }

  lemma NumberFound(j: Json, field: Field, n: nat)
    requires At(j, field) == Ok(JNumber(n))
    ensures NumberAt(j, field) == Ok(n)
  {
  }

  lemma KnownVariable(c: Context, v: Variable)
    requires InContext(c) && v.uid < |c.ds| && c.ds[v.uid].v == v
    ensures v.uid < |c.vars| && c.vars[v.uid] == RetagVariable(c.f.kernel, v)
  {
  }

  lemma FollowsConstant(c: Context, env: Env, ty: Type, key: Key)
    requires Good(c, env)
    ensures var env' := env.(f := env.f.(constants := env.f.constants + [Const(ty, key)]));
            Follows(c, env, env', {Data(ty, key)}) && Sound(env')
  {
    OpsKept(c, env);
    var f := env.f.(constants := env.f.constants + [Const(ty, key)]);
    var ms := {Data(ty, key)};
    forall m
      ensures Listed(f, m) <==> Listed(env.f, m) || Reached(env.parsed, ms, m)
    {
    }
    hide Listed, AllRebuilt, Good, Follows;
    FollowsLists(c, env, f.ops, f.customs, f.constants, env.parsed, ms);
  }

  lemma {:induction false} ExprsBack(c: Context, es: seq<Expr>, n: nat, env: Env) returns (env': Env)
    requires InContext(c) && Sound(env) && Good(c, env) && n <= |es|
    requires OperandsOk(c.p, c.f, c.rank, c.ds, es) && Contained(c.doc, MentionsOf(es))
    ensures ParseExprs(c.doc, c.vars, JArray(DumpExprs(es)), n, env, c.pending)
            == Ok((RetagExprs(c.f.kernel, es)[..n], env'))
    ensures Follows(c, env, env', MentionsOf(es[..n])) && Sound(env')
    decreases c.rank, 0, es, n
  {
    hide OperandOk, Mentions, RetagExpr, DumpExpr, DumpExprs, RetagExprs, ParseExpr, InContext, Good;
    hide Follows;
    if n == 0 {
      env' := env;
      FollowsSelf(c, env);
    } else {
      var env1 := ExprsBack(c, es, n - 1, env);
      FollowsIsGood(c, env, env1, MentionsOf(es[..n - 1]));
      DumpedElement(es, n - 1);
      RetaggedElement(c.f.kernel, es, n - 1);
      MentionedElement(es, n - 1);
      assert OperandOk(c.p, c.f, c.rank, c.ds, es[n - 1]) && Contained(c.doc, Mentions(es[n - 1]));
      env' := ExprBack(c, es[n - 1], env1);
      FollowsTwice(c, env, env1, env', MentionsOf(es[..n - 1]), Mentions(es[n - 1]));
      assert es[..n][..n - 1] == es[..n - 1];
      var r := RetagExprs(c.f.kernel, es);
      assert r[..n] == r[..n - 1] + [r[n - 1]];
    }
  }

  lemma {:induction false} ArgumentsBack(c: Context, es: seq<Expr>, env: Env) returns (env': Env)
    requires InContext(c) && Sound(env) && Good(c, env)
    requires OperandsOk(c.p, c.f, c.rank, c.ds, es) && Contained(c.doc, MentionsOf(es))
    ensures ParseExprs(c.doc, c.vars, JArray(DumpExprs(es)), |es|, env, c.pending)
            == Ok((RetagExprs(c.f.kernel, es), env'))
    ensures Follows(c, env, env', MentionsOf(es)) && Sound(env')
    decreases c.rank, 0, es, |es| + 1
  {
    hide *;
    env' := ExprsBack(c, es, |es|, env);
    assert RetagExprs(c.f.kernel, es)[..|es|] == RetagExprs(c.f.kernel, es);
    assert es[..|es|] == es;
  }

  /** A call: a void one yields no expression, but exactly one statement. */
  lemma {:induction false} CallBack(c: Context, e: Expr, env: Env) returns (env': Env)
    requires InContext(c) && Sound(env) && Good(c, env)
    requires e.Call? && ExprOk(c.p, c.f, c.rank, c.ds, e) && Contained(c.doc, Mentions(e))
    ensures ParseExpr(c.doc, c.vars, DumpExpr(e), env, c.pending) == Ok(Yield(env', RetagExpr(c.f.kernel, e)))
    ensures Follows(c, env, env', Mentions(e)) && Sound(env')
    decreases c.rank, 0, e, 1
  {
    hide *;
    CallParts(c, e);
    var es := e.arguments;
    var env1 := ArgumentsBack(c, es, env);
    FollowsIsGood(c, env, env1, MentionsOf(es));
    if e.callee.Builtin? {
      env' := BuiltinBack(c, e, env, env1);
    } else {
      env' := CustomCalleeBack(c, e, env, env1);
    }
    FollowsTwice(c, env, env1, env', MentionsOf(es), {Called(e.callee)});
  }

  lemma {:induction false} BuiltinBack(c: Context, e: Expr, env: Env, env1: Env) returns (env': Env)
    requires InContext(c) && Sound(env) && Good(c, env) && Sound(env1) && Good(c, env1)
    requires e.Call? && e.callee.Builtin? && ExprOk(c.p, c.f, c.rank, c.ds, e) && Contained(c.doc, Mentions(e))
    requires ParseExprs(c.doc, c.vars, JArray(DumpExprs(e.arguments)), |e.arguments|, env, c.pending)
             == Ok((RetagExprs(c.f.kernel, e.arguments), env1))
    ensures ParseExpr(c.doc, c.vars, DumpExpr(e), env, c.pending) == Ok(Yield(env', RetagExpr(c.f.kernel, e)))
    ensures Follows(c, env1, env', {Called(e.callee)}) && Sound(env')
    decreases c.rank, 0, e, 0
  {
    hide *;
    var j, op := DumpExpr(e), e.callee.op;
    var args := RetagExprs(c.f.kernel, e.arguments);
    CallOk(c, e);
    CallFields(e.result, e.callee, e.arguments);
    RetaggedCall(c.f.kernel, e);
    BuiltinCallBack(c, j, e.result, op, args, JArray(DumpExprs(e.arguments)), env, env1);
    env' := env1.(f := env1.f.(ops := env1.f.ops + {op}));
    FollowsOperation(c, env1, op);
    assert Called(e.callee) == Operation(op) by { CalledIs(e.callee); }
  }

  lemma CalledIs(callee: Callee)
    ensures callee.Builtin? ==> Called(callee) == Operation(callee.op)
    ensures callee.Custom? ==> Called(callee) == Callable(callee.key)
  {
  }

  lemma RetaggedCall(kernel: bool, e: Expr)
    requires e.Call?
    ensures RetagExpr(kernel, e) == Call(e.result, e.callee, RetagExprs(kernel, e.arguments))
  {
  }

  lemma {:induction false} CustomCalleeBack(c: Context, e: Expr, env: Env, env1: Env) returns (env': Env)
    requires InContext(c) && Sound(env) && Good(c, env) && Sound(env1) && Good(c, env1)
    requires e.Call? && e.callee.Custom? && ExprOk(c.p, c.f, c.rank, c.ds, e) && Contained(c.doc, Mentions(e))
    requires ParseExprs(c.doc, c.vars, JArray(DumpExprs(e.arguments)), |e.arguments|, env, c.pending)
             == Ok((RetagExprs(c.f.kernel, e.arguments), env1))
    ensures ParseExpr(c.doc, c.vars, DumpExpr(e), env, c.pending) == Ok(Yield(env', RetagExpr(c.f.kernel, e)))
    ensures Follows(c, env1, env', {Called(e.callee)}) && Sound(env')
    decreases c.rank, 0, e, 0
  {
    hide *;
    var j, k := DumpExpr(e), e.callee.key;
    var args := RetagExprs(c.f.kernel, e.arguments);
    CallOk(c, e);
    CalleeOk(c, e);
    CallFields(e.result, e.callee, e.arguments);
    RetaggedCall(c.f.kernel, e);
    CalledIs(e.callee);
    OpsKept(c, env1);
    var parsed := CalleeBack(c, k, env1);
    FinishedEntry(parsed, k);
    CustomBack(env1.f, e.result, k, parsed[k], c.p.functions[k], args);
    var f := Propagate(env1.f, k, parsed[k]);
    CustomCallBack(c, j, e.result, k, args, JArray(DumpExprs(e.arguments)), env, env1, parsed, f);
    env' := Env(f, parsed);
    Propagated(env1.f, k, parsed[k], c.p.functions[k], c.f.ops);
    HasCallee(c, parsed, k);
    ClosedLater(c.p, c.rank, env1.parsed, parsed, env1.f);
    PropagateAdds(parsed, env1.f, k);
    FollowsLists(c, env1, f.ops, f.customs, f.constants, parsed, {Callable(k)});
  }

  lemma CallOk(c: Context, e: Expr)
    requires e.Call? && ExprOk(c.p, c.f, c.rank, c.ds, e)
    ensures e.result.Some? ==> Valid(e.result.value)
    ensures e.callee.Builtin? ==> e.callee.op != CUSTOM && e.callee.op in c.f.ops
  {
  }

  lemma CalleeOk(c: Context, e: Expr)
    requires e.Call? && e.callee.Custom? && ExprOk(c.p, c.f, c.rank, c.ds, e) && Contained(c.doc, Mentions(e))
    ensures var k := e.callee.key;
            && k in c.doc.functions && k in c.p.functions && k in c.p.rank && c.p.rank[k] < c.rank
            && !c.p.functions[k].kernel && |e.arguments| == |c.p.functions[k].arguments|
            && c.p.functions[k].ops <= c.f.ops && (e.result.Some? ==> Valid(e.result.value))
  {
    MentionsContained(c.doc, e);
  }

  lemma HasCallee(c: Context, parsed: map<Key, Function>, k: Key)
    requires k in parsed && k in c.p.rank && c.p.rank[k] < c.rank
    ensures HasCallees(c.p, c.rank, parsed, {Callable(k)})
  {
  }

  lemma FinishedEntry(parsed: map<Key, Function>, k: Key)
    requires Finished(parsed) && k in parsed
    ensures |parsed[k].arguments| == |parsed[k].bindings|
  {
  }

  lemma Propagated(f: Function, k: Key, callee: Function, original: Function, ops: set<nat>)
    requires SameShape(callee, original) && original.ops <= ops && f.ops <= ops
    ensures var g := Propagate(f, k, callee);
            g.ops <= ops && g == f.(ops := g.ops, customs := g.customs, constants := g.constants)
  {
  }

  lemma OpsKept(c: Context, env: Env)
    requires Good(c, env)
    ensures env.f.ops <= c.f.ops && Finished(env.parsed) && AllRebuilt(c.p, env.parsed)
    ensures |env.f.arguments| == |env.f.bindings| && Closed(env.parsed, env.f)
  {
  }

  lemma CallParts(c: Context, e: Expr)
    requires e.Call? && ExprOk(c.p, c.f, c.rank, c.ds, e) && Contained(c.doc, Mentions(e))
    ensures OperandsOk(c.p, c.f, c.rank, c.ds, e.arguments) && Contained(c.doc, MentionsOf(e.arguments))
    ensures Mentions(e) == MentionsOf(e.arguments) + {Called(e.callee)}
  {
    MentionsContained(c.doc, e);
    hide OperandsOk, MentionsOf;
  }

  lemma MentionsContained(doc: Doc, e: Expr)
    requires e.Call? && Contained(doc, Mentions(e))
    ensures Contained(doc, MentionsOf(e.arguments))
    ensures e.callee.Custom? ==> e.callee.key in doc.functions
  {
    if e.callee.Custom? {
      assert Callable(e.callee.key) in Mentions(e);
    }
  }

  /** Only the lists and the table of finished functions changed. */
  lemma FollowsLists(
      c: Context, env: Env, ops: set<nat>, customs: seq<Key>, constants: seq<Const>,
      parsed: map<Key, Function>, ms: set<Mention>)
    requires Good(c, env) && Grows(c.p, c.rank, env.parsed, parsed) && HasCallees(c.p, c.rank, parsed, ms)
    requires ops <= c.f.ops && Finished(parsed) && AllRebuilt(c.p, parsed)
    requires Adds(parsed, env.f, env.f.(ops := ops, customs := customs, constants := constants), ms)
    requires Closed(parsed, env.f.(ops := ops, customs := customs, constants := constants))
    ensures var env' := Env(env.f.(ops := ops, customs := customs, constants := constants), parsed);
            Follows(c, env, env', ms) && Sound(env')
  {
    hide Adds, Closed, AllRebuilt, Grows, HasCallees;
  }

  lemma FollowsOperation(c: Context, env: Env, op: nat)
    requires Good(c, env) && op in c.f.ops
    ensures var env' := env.(f := env.f.(ops := env.f.ops + {op}));
            Follows(c, env, env', {Operation(op)}) && Sound(env')
  {
    OpsKept(c, env);
    var f := env.f.(ops := env.f.ops + {op});
    var ms := {Operation(op)};
    forall m
      ensures Listed(f, m) <==> Listed(env.f, m) || Reached(env.parsed, ms, m)
    {
    }
    hide Listed, AllRebuilt, Good, Follows;
    FollowsLists(c, env, f.ops, f.customs, f.constants, env.parsed, ms);
  }

  /** The callee of a call is rebuilt, or has been before. */
  lemma {:induction false} CalleeBack(c: Context, k: Key, env: Env) returns (parsed: map<Key, Function>)
    requires InContext(c) && Sound(env) && Good(c, env)
    requires k in c.p.functions && k in c.p.rank && c.p.rank[k] < c.rank && !c.p.functions[k].kernel
    requires k in c.doc.functions
    ensures Finished(env.parsed) && ParseFunction(c.doc, k, env.parsed, c.pending) == Ok(parsed)
    ensures Finished(parsed) && AllRebuilt(c.p, parsed) && k in parsed && SameShape(parsed[k], c.p.functions[k])
    ensures Grows(c.p, c.rank, env.parsed, parsed) && Closed(parsed, parsed[k])
    decreases c.p.rank[k], 3
  {
    hide *;
    OpsKept(c, env);
    ContextFacts(c, k);
    parsed := FunctionBack(c.doc, c.p, k, env.parsed, c.pending);
    RebuiltEntry(c.p, parsed, k);
    GrowsHigher(c.p, c.p.rank[k] + 1, c.rank, env.parsed, parsed);
  }

  lemma ContextFacts(c: Context, k: Key)
    requires InContext(c) && k in c.p.rank && c.p.rank[k] < c.rank
    ensures ProgramOk(c.p) && Faithful(c.doc, c.p)
    ensures Above(c.p, c.pending, c.p.rank[k] + 1)
  {
  }

  lemma RebuiltEntry(p: Program, parsed: map<Key, Function>, k: Key)
    requires AllRebuilt(p, parsed) && k in parsed
    ensures k in p.functions && IsRebuilt(parsed, parsed[k], p.functions[k])
    ensures SameShape(parsed[k], p.functions[k]) && Closed(parsed, parsed[k])
  {
    hide Closed, Lists, SameShape;
  }

  lemma GrowsHigher(p: Program, rank: nat, rank': nat, parsed: map<Key, Function>, parsed': map<Key, Function>)
    requires Grows(p, rank, parsed, parsed') && rank <= rank'
    ensures Grows(p, rank', parsed, parsed')
  {
  }

  // ----- One level of a statement -----

  lemma IfFields(x: Expr, t: seq<Stmt>, e: seq<Stmt>)
    ensures var j := DumpStmt(If(x, t, e));
            && WordAt(j, FTag) == Ok(WIf)
            && At(j, FCondition) == Ok(DumpExpr(x))
            && At(j, FTrue) == Ok(DumpScope(t))
            && At(j, FFalse) == Ok(DumpScope(e))
  {
    hide DumpExpr, DumpScope;
  }

  lemma IfBack(c: Context, j: Json, x: Expr, t: seq<Stmt>, e: seq<Stmt>, env: Env, env1: Env, env2: Env, env3: Env)
    requires Sound(env) && WordAt(j, FTag) == Ok(WIf)
    requires ParseOperand(c.doc, c.vars, j, FCondition, env, c.pending) == Ok((x, env1))
    requires Sound(env1)
    requires ParseScope(c.doc, c.vars, j, FTrue, env1, c.pending) == Ok((t, env2))
    requires Sound(env2)
    requires ParseScope(c.doc, c.vars, j, FFalse, env2, c.pending) == Ok((e, env3))
    ensures ParseStmt(c.doc, c.vars, j, env, c.pending) == Ok(Add(env3, If(x, t, e)))
  {
    hide ParseOperand, ParseScope, WordAt, Append, ParseReturn, ParseLoop, ParseExprStmt, ParseSwitch;
    hide ParseCase, ParseDefault, ParseAssign, ParseFor, ParseComment;
  }

  lemma LoopFields(b: seq<Stmt>)
    ensures var j := DumpStmt(Loop(b));
            && WordAt(j, FTag) == Ok(WLoop)
            && At(j, FBody) == Ok(DumpScope(b))
  {
    hide DumpExpr, DumpScope;
  }

  lemma LoopBack(c: Context, j: Json, b: seq<Stmt>, env: Env, env1: Env)
    requires Sound(env) && WordAt(j, FTag) == Ok(WLoop)
    requires ParseScope(c.doc, c.vars, j, FBody, env, c.pending) == Ok((b, env1))
    ensures ParseStmt(c.doc, c.vars, j, env, c.pending) == Ok(Add(env1, Loop(b)))
  {
    hide ParseOperand, ParseScope, WordAt, Append, ParseReturn, ParseIf, ParseExprStmt, ParseSwitch;
    hide ParseCase, ParseDefault, ParseAssign, ParseFor, ParseComment;
  }

  lemma SwitchFields(x: Expr, b: seq<Stmt>)
    ensures var j := DumpStmt(Switch(x, b));
            && WordAt(j, FTag) == Ok(WSwitch)
            && At(j, FExpression) == Ok(DumpExpr(x))
            && At(j, FBody) == Ok(DumpScope(b))
  {
    hide DumpExpr, DumpScope;
  }

  lemma SwitchBack(c: Context, j: Json, x: Expr, b: seq<Stmt>, env: Env, env1: Env, env2: Env)
    requires Sound(env) && WordAt(j, FTag) == Ok(WSwitch)
    requires ParseOperand(c.doc, c.vars, j, FExpression, env, c.pending) == Ok((x, env1))
    requires Sound(env1)
    requires ParseScope(c.doc, c.vars, j, FBody, env1, c.pending) == Ok((b, env2))
    ensures ParseStmt(c.doc, c.vars, j, env, c.pending) == Ok(Add(env2, Switch(x, b)))
  {
    hide ParseOperand, ParseScope, WordAt, Append, ParseReturn, ParseIf, ParseLoop, ParseExprStmt, ParseCase;
    hide ParseDefault, ParseAssign, ParseFor, ParseComment;
  }

  lemma CaseFields(x: Expr, b: seq<Stmt>)
    ensures var j := DumpStmt(Case(x, b));
            && WordAt(j, FTag) == Ok(WCase)
            && At(j, FValue) == Ok(DumpExpr(x))
            && At(j, FBody) == Ok(DumpScope(b))
  {
    hide DumpExpr, DumpScope;
  }

  lemma CaseBack(c: Context, j: Json, x: Expr, b: seq<Stmt>, env: Env, env1: Env, env2: Env)
    requires Sound(env) && WordAt(j, FTag) == Ok(WCase)
    requires ParseOperand(c.doc, c.vars, j, FValue, env, c.pending) == Ok((x, env1))
    requires Sound(env1)
    requires ParseScope(c.doc, c.vars, j, FBody, env1, c.pending) == Ok((b, env2))
    ensures ParseStmt(c.doc, c.vars, j, env, c.pending) == Ok(Add(env2, Case(x, b)))
  {
    hide ParseOperand, ParseScope, WordAt, Append, ParseReturn, ParseIf, ParseLoop, ParseExprStmt;
    hide ParseSwitch, ParseDefault, ParseAssign, ParseFor, ParseComment;
  }

  lemma DefaultFields(b: seq<Stmt>)
    ensures var j := DumpStmt(Default(b));
            && WordAt(j, FTag) == Ok(WDefault)
            && At(j, FBody) == Ok(DumpScope(b))
  {
    hide DumpExpr, DumpScope;
  }

  lemma DefaultBack(c: Context, j: Json, b: seq<Stmt>, env: Env, env1: Env)
    requires Sound(env) && WordAt(j, FTag) == Ok(WDefault)
    requires ParseScope(c.doc, c.vars, j, FBody, env, c.pending) == Ok((b, env1))
    ensures ParseStmt(c.doc, c.vars, j, env, c.pending) == Ok(Add(env1, Default(b)))
  {
    hide ParseOperand, ParseScope, WordAt, Append, ParseReturn, ParseIf, ParseLoop, ParseExprStmt;
    hide ParseSwitch, ParseCase, ParseAssign, ParseFor, ParseComment;
  }

  lemma AssignFields(l: Expr, r: Expr)
    ensures var j := DumpStmt(Assign(l, r));
            && WordAt(j, FTag) == Ok(WAssign)
            && At(j, FLhs) == Ok(DumpExpr(l))
            && At(j, FRhs) == Ok(DumpExpr(r))
  {
    hide DumpExpr, DumpScope;
  }

  lemma AssignBack(c: Context, j: Json, l: Expr, r: Expr, env: Env, env1: Env, env2: Env)
    requires Sound(env) && WordAt(j, FTag) == Ok(WAssign)
    requires ParseOperand(c.doc, c.vars, j, FLhs, env, c.pending) == Ok((l, env1))
    requires Sound(env1)
    requires ParseOperand(c.doc, c.vars, j, FRhs, env1, c.pending) == Ok((r, env2))
    ensures ParseStmt(c.doc, c.vars, j, env, c.pending) == Ok(Add(env2, Assign(l, r)))
  {
    hide ParseOperand, ParseScope, WordAt, Append, ParseReturn, ParseIf, ParseLoop, ParseExprStmt;
    hide ParseSwitch, ParseCase, ParseDefault, ParseFor, ParseComment;
  }

  lemma ForFields(v: Expr, x: Expr, st: Expr, b: seq<Stmt>)
    ensures var j := DumpStmt(For(v, x, st, b));
            && WordAt(j, FTag) == Ok(WFor)
            && At(j, FVariable) == Ok(DumpExpr(v))
            && At(j, FCondition) == Ok(DumpExpr(x))
            && At(j, FStep) == Ok(DumpExpr(st))
            && At(j, FBody) == Ok(DumpScope(b))
  {
    hide DumpExpr, DumpScope;
  }

  lemma ForBack(
      c: Context, j: Json, v: Expr, x: Expr, st: Expr, b: seq<Stmt>,
      env: Env, env1: Env, env2: Env, env3: Env, env4: Env)
    requires Sound(env) && WordAt(j, FTag) == Ok(WFor)
    requires ParseOperand(c.doc, c.vars, j, FVariable, env, c.pending) == Ok((v, env1))
    requires Sound(env1)
    requires ParseOperand(c.doc, c.vars, j, FCondition, env1, c.pending) == Ok((x, env2))
    requires Sound(env2)
    requires ParseOperand(c.doc, c.vars, j, FStep, env2, c.pending) == Ok((st, env3))
    requires Sound(env3)
    requires ParseScope(c.doc, c.vars, j, FBody, env3, c.pending) == Ok((b, env4))
    ensures ParseStmt(c.doc, c.vars, j, env, c.pending) == Ok(Add(env4, For(v, x, st, b)))
  {
    hide ParseOperand, ParseScope, WordAt, Append, ParseReturn, ParseIf, ParseLoop, ParseExprStmt;
    hide ParseSwitch, ParseCase, ParseDefault, ParseAssign, ParseComment;
  }

  lemma SimpleBack(c: Context, s: Stmt, env: Env)
    requires Sound(env) && (s.Break? || s.Continue? || s.Comment?)
    ensures ParseStmt(c.doc, c.vars, DumpStmt(s), env, c.pending) == Ok(Add(env, s))
  {
    hide ParseOperand, ParseScope, ParseIf, ParseLoop, ParseSwitch, ParseCase, ParseDefault, ParseAssign;
    hide ParseFor, ParseReturn, ParseExprStmt, Append;
  }

  lemma ReturnFields(x: Option<Expr>)
    ensures var j := DumpStmt(Return(x));
            && WordAt(j, FTag) == Ok(WReturn)
            && (x.None? ==> At(j, FValue).Err?)
            && (x.Some? ==> At(j, FValue) == Ok(DumpExpr(x.value)))
  {
    hide DumpExpr;
  }

  lemma VoidReturnBack(c: Context, j: Json, env: Env)
    requires Sound(env) && WordAt(j, FTag) == Ok(WReturn) && At(j, FValue).Err?
    requires env.f.returnType.None?
    ensures ParseStmt(c.doc, c.vars, j, env, c.pending) == Ok(Add(env, Return(None)))
  {
    hide WordAt, At, ParseOperand, ParseScope, ParseIf, ParseLoop, ParseSwitch, ParseCase, ParseDefault;
    hide ParseAssign, ParseFor, ParseExprStmt;
  }

  lemma ReturnBack(c: Context, j: Json, x: Expr, env: Env, env1: Env)
    requires Sound(env) && Sound(env1) && WordAt(j, FTag) == Ok(WReturn) && At(j, FValue).Ok?
    requires ParseOperand(c.doc, c.vars, j, FValue, env, c.pending) == Ok((x, env1))
    requires !env1.f.kernel && (env1.f.returnType.None? || env1.f.returnType == TypeOf(x))
    ensures ParseStmt(c.doc, c.vars, j, env, c.pending)
            == Ok(env1.(f := Append(env1.f.(returnType := TypeOf(x)), Return(Some(x)))))
  {
    hide WordAt, At, ParseOperand, ParseScope, ParseIf, ParseLoop, ParseSwitch, ParseCase, ParseDefault;
    hide ParseAssign, ParseFor, ParseExprStmt;
  }

  lemma ExprStmtFields(x: Expr)
    ensures var j := DumpStmt(ExprStmt(x)); WordAt(j, FTag) == Ok(WExpr) && At(j, FExpression) == Ok(DumpExpr(x))
  {
    hide DumpExpr;
  }

  /** With or without an expression, one statement is added. */
  lemma ExprStmtBack(c: Context, j: Json, e: Json, x: Expr, env: Env, env1: Env)
    requires Sound(env) && WordAt(j, FTag) == Ok(WExpr) && At(j, FExpression) == Ok(e)
    requires ParseExpr(c.doc, c.vars, e, env, c.pending) == Ok(Yield(env1, x))
    ensures ParseStmt(c.doc, c.vars, j, env, c.pending) == Ok(Add(env1, ExprStmt(x)))
  {
    hide WordAt, At, ParseExpr, Add, ParseOperand, ParseScope, ParseIf, ParseLoop, ParseSwitch, ParseCase;
    hide ParseDefault, ParseAssign, ParseFor, ParseReturn;
  }

  // ----- Whole bodies -----

  /** `added` was appended to the open scope; `valued`: a value was returned. */
  ghost predicate Built(c: Context, env: Env, env': Env, added: seq<Stmt>, valued: bool, ms: set<Mention>) {
    && Good(c, env')
    && Uses(c, env, env', ms)
    && env'.f == env.f.(
         body := env.f.body + added,
         returnType := if valued then c.f.returnType else env.f.returnType,
         ops := env'.f.ops, customs := env'.f.customs, constants := env'.f.constants)
  }

  lemma BuiltIsGood(c: Context, env: Env, env': Env, added: seq<Stmt>, valued: bool, ms: set<Mention>)
    requires Built(c, env, env', added, valued, ms)
    ensures Good(c, env') && Sound(env')
  {
  }

  lemma BuiltNothing(c: Context, env: Env)
    requires Good(c, env)
    ensures Built(c, env, env, [], false, {})
  {
    hide Uses, Good;
    UsesNothing(c, env);
    assert env.f.body + [] == env.f.body;
  }

  lemma BuiltTwice(
      c: Context, env: Env, env1: Env, env2: Env,
      a: seq<Stmt>, b: seq<Stmt>, q: bool, r: bool, m: set<Mention>, n: set<Mention>)
    requires Built(c, env, env1, a, q, m) && Built(c, env1, env2, b, r, n)
    ensures Built(c, env, env2, a + b, q || r, m + n)
  {
    hide Uses, Good;
    UsesTwice(c, env, env1, env2, m, n);
    assert env.f.body + a + b == env.f.body + (a + b);
  }

  lemma BuiltExpr(c: Context, env: Env, env1: Env, env2: Env, a: seq<Stmt>, q: bool, m: set<Mention>, n: set<Mention>)
    requires Built(c, env, env1, a, q, m) && Follows(c, env1, env2, n)
    ensures Built(c, env, env2, a, q, m + n)
  {
    hide Uses, Good;
    UsesTwice(c, env, env1, env2, m, n);
  }

  lemma BuiltStmt(c: Context, env: Env, env1: Env, s: Stmt, q: bool, m: set<Mention>)
    requires Built(c, env, env1, [], q, m)
    ensures Built(c, env, Add(env1, s), [s], q, m) && Sound(Add(env1, s))
  {
    hide Uses, Closed, AllRebuilt;
    UsesSame(c, env, env1, env.f, Append(env1.f, s), m);
    SameClosed(env1.parsed, env1.f, Append(env1.f, s));
    assert env.f.body + [] == env.f.body;
  }

  lemma {:induction false} DumpedStmt(body: seq<Stmt>, i: nat)
    requires i < |body|
    ensures DumpStmts(body)[i] == DumpStmt(body[i])
  {
    if i > 0 {
      DumpedStmt(body[1..], i - 1);
    }
  }

  lemma {:induction false} RetaggedStmt(kernel: bool, body: seq<Stmt>, i: nat)
    requires i < |body|
    ensures RetagStmts(kernel, body)[i] == RetagStmt(kernel, body[i])
  {
    if i > 0 {
      RetaggedStmt(kernel, body[1..], i - 1);
    }
  }

  lemma {:induction false} MentionedStmt(body: seq<Stmt>, i: nat)
    requires i < |body|
    ensures StmtMentions(body[i]) <= BodyMentions(body)
    decreases |body|
  {
    if i < |body| - 1 {
      MentionedStmt(body[..|body| - 1], i);
    }
  }

  lemma {:induction false} StmtsBack(c: Context, body: seq<Stmt>, n: nat, env: Env) returns (env': Env)
    requires InContext(c) && Sound(env) && Good(c, env) && n <= |body|
    requires StmtsOk(c.p, c.f, c.rank, c.ds, body) && Contained(c.doc, BodyMentions(body))
    ensures ParseStmts(c.doc, c.vars, JArray(DumpStmts(body)), n, env, c.pending) == Ok(env')
    ensures Built(c, env, env', RetagStmts(c.f.kernel, body)[..n],
                  SomeReturnsValue(body[..n]), BodyMentions(body[..n])) && Sound(env')
    decreases c.rank, 0, body, n
  {
    hide *;
    if n == 0 {
      env' := env;
      BuiltNothing(c, env);
      NoStmts(c, DumpStmts(body), env);
      assert body[..0] == [];
    } else {
      var done, s := body[..n - 1], body[n - 1];
      var r, q, ms := RetagStmts(c.f.kernel, body), SomeReturnsValue(done), BodyMentions(done);
      var env1 := StmtsBack(c, body, n - 1, env);
      BuiltIsGood(c, env, env1, r[..n - 1], q, ms);
      StmtAt(c, body, n - 1);
      env' := StmtBack(c, s, env1);
      BuiltTwice(c, env, env1, env', r[..n - 1], [r[n - 1]], q, ReturnsValue(s), ms, StmtMentions(s));
      assert body[..n] == done + [s] && r[..n] == r[..n - 1] + [r[n - 1]];
      OneMoreStmt(done, s);
      NextStmt(c, DumpStmts(body), n, env, env1, env');
    }
  }

  lemma NoStmts(c: Context, js: seq<Json>, env: Env)
    requires Sound(env)
    ensures ParseStmts(c.doc, c.vars, JArray(js), 0, env, c.pending) == Ok(env)
    ensures SomeReturnsValue([]) == false && BodyMentions([]) == {}
  {
  }

  lemma NextStmt(c: Context, js: seq<Json>, n: nat, env: Env, env1: Env, env2: Env)
    requires 0 < n <= |js| && Sound(env) && Sound(env1)
    requires ParseStmts(c.doc, c.vars, JArray(js), n - 1, env, c.pending) == Ok(env1)
    requires ParseStmt(c.doc, c.vars, js[n - 1], env1, c.pending) == Ok(env2)
    ensures ParseStmts(c.doc, c.vars, JArray(js), n, env, c.pending) == Ok(env2)
  {
    hide ParseStmt;
  }

  /** Statement i, as it is written and as it is rebuilt. */
  lemma StmtAt(c: Context, body: seq<Stmt>, i: nat)
    requires i < |body| && StmtsOk(c.p, c.f, c.rank, c.ds, body) && Contained(c.doc, BodyMentions(body))
    ensures DumpStmts(body)[i] == DumpStmt(body[i])
    ensures RetagStmts(c.f.kernel, body)[i] == RetagStmt(c.f.kernel, body[i])
    ensures StmtOk(c.p, c.f, c.rank, c.ds, body[i]) && Contained(c.doc, StmtMentions(body[i]))
  {
    hide DumpStmts, RetagStmts, StmtOk, BodyMentions, StmtMentions;
    DumpedStmt(body, i);
    RetaggedStmt(c.f.kernel, body, i);
    MentionedStmt(body, i);
  }

  lemma OneMoreStmt(body: seq<Stmt>, s: Stmt)
    ensures SomeReturnsValue(body + [s]) == (SomeReturnsValue(body) || ReturnsValue(s))
    ensures BodyMentions(body + [s]) == BodyMentions(body) + StmtMentions(s)
  {
    assert (body + [s])[..|body|] == body;
  }

  lemma GoodScope(c: Context, env: Env, body: seq<Stmt>)
    requires Good(c, env)
    ensures Good(c, env.(f := env.f.(body := body))) && Sound(env.(f := env.f.(body := body)))
  {
    hide Closed, AllRebuilt;
    SameClosed(env.parsed, env.f, env.f.(body := body));
  }

  lemma BuiltScope(c: Context, env: Env, done: Env, body: seq<Stmt>, valued: bool, ms: set<Mention>)
    requires Built(c, env.(f := env.f.(body := [])), done, body, valued, ms)
    ensures done.f.body == body
    ensures Built(c, env, done.(f := done.f.(body := env.f.body)), [], valued, ms)
    ensures Sound(done.(f := done.f.(body := env.f.body)))
  {
    hide Uses, Closed, AllRebuilt;
    UsesSame(c, env.(f := env.f.(body := [])), done, env.f, done.f.(body := env.f.body), ms);
    SameClosed(done.parsed, done.f, done.f.(body := env.f.body));
    assert [] + body == body;
    assert env.f.body + [] == env.f.body;
  }

  lemma ScopeFound(c: Context, j: Json, field: Field, scope: Json, items: Json, env: Env, done: Env)
    requires Sound(env) && At(j, field) == Ok(scope) && At(scope, FStatements) == Ok(items) && items.JArray?
    requires Sound(env.(f := env.f.(body := [])))
    requires ParseStmts(c.doc, c.vars, items, |items.items|, env.(f := env.f.(body := [])), c.pending) == Ok(done)
    ensures ParseScope(c.doc, c.vars, j, field, env, c.pending)
            == Ok((done.f.body, done.(f := done.f.(body := env.f.body))))
  {
    hide ParseStmts, At;
  }

  lemma ScopeFields(body: seq<Stmt>)
    ensures At(DumpScope(body), FStatements) == Ok(JArray(DumpStmts(body)))
  {
    hide DumpStmts;
  }

  lemma {:induction false} ScopeBack(c: Context, j: Json, field: Field, body: seq<Stmt>, env: Env) returns (env': Env)
    requires InContext(c) && Sound(env) && Good(c, env)
    requires StmtsOk(c.p, c.f, c.rank, c.ds, body) && Contained(c.doc, BodyMentions(body))
    requires At(j, field) == Ok(DumpScope(body))
    ensures ParseScope(c.doc, c.vars, j, field, env, c.pending) == Ok((RetagStmts(c.f.kernel, body), env'))
    ensures Built(c, env, env', [], SomeReturnsValue(body), BodyMentions(body)) && Sound(env')
    decreases c.rank, 0, body, |body| + 1
  {
    hide *;
    var inner := env.(f := env.f.(body := []));
    GoodScope(c, env, []);
    var done := StmtsBack(c, body, |body|, inner);
    assert RetagStmts(c.f.kernel, body)[..|body|] == RetagStmts(c.f.kernel, body);
    assert body[..|body|] == body;
    ScopeFields(body);
    ScopeFound(c, j, field, DumpScope(body), JArray(DumpStmts(body)), env, done);
    BuiltScope(c, env, done, RetagStmts(c.f.kernel, body), SomeReturnsValue(body), BodyMentions(body));
    env' := done.(f := done.f.(body := env.f.body));
  }

  /** The next scope of a statement whose earlier parts took `env` to `env1`. */
  lemma {:induction false} ScopeThen(
      c: Context, j: Json, field: Field, body: seq<Stmt>, env: Env, env1: Env, valued: bool, ms: set<Mention>)
      returns (env2: Env)
    requires InContext(c) && Sound(env1) && Built(c, env, env1, [], valued, ms)
    requires StmtsOk(c.p, c.f, c.rank, c.ds, body) && Contained(c.doc, BodyMentions(body))
    requires At(j, field) == Ok(DumpScope(body))
    ensures ParseScope(c.doc, c.vars, j, field, env1, c.pending) == Ok((RetagStmts(c.f.kernel, body), env2))
    ensures Built(c, env, env2, [], valued || SomeReturnsValue(body), ms + BodyMentions(body)) && Sound(env2)
    decreases c.rank, 0, body, |body| + 2
  {
    hide *;
    BuiltIsGood(c, env, env1, [], valued, ms);
    env2 := ScopeBack(c, j, field, body, env1);
    var none: seq<Stmt> := [];
    assert none + none == none;
    BuiltTwice(c, env, env1, env2, [], [], valued, SomeReturnsValue(body), ms, BodyMentions(body));
  }

  /** The next operand of a statement whose earlier parts took `env` to `env1`. */
  lemma {:induction false} OperandThen(
      c: Context, j: Json, field: Field, e: Expr, env: Env, env1: Env, ms: set<Mention>) returns (env2: Env)
    requires InContext(c) && Sound(env1) && Built(c, env, env1, [], false, ms)
    requires OperandOk(c.p, c.f, c.rank, c.ds, e) && Contained(c.doc, Mentions(e))
    requires At(j, field) == Ok(DumpExpr(e))
    ensures ParseOperand(c.doc, c.vars, j, field, env1, c.pending) == Ok((RetagExpr(c.f.kernel, e), env2))
    ensures Built(c, env, env2, [], false, ms + Mentions(e)) && Sound(env2)
    decreases c.rank, 0, e, 4
  {
    hide *;
    BuiltIsGood(c, env, env1, [], false, ms);
    env2 := OperandBack(c, j, field, e, env1);
    BuiltExpr(c, env, env1, env2, [], false, ms, Mentions(e));
  }

  lemma {:induction false} StmtBack(c: Context, s: Stmt, env: Env) returns (env': Env)
    requires InContext(c) && Sound(env) && Good(c, env)
    requires StmtOk(c.p, c.f, c.rank, c.ds, s) && Contained(c.doc, StmtMentions(s))
    ensures ParseStmt(c.doc, c.vars, DumpStmt(s), env, c.pending) == Ok(env')
    ensures Built(c, env, env', [RetagStmt(c.f.kernel, s)], ReturnsValue(s), StmtMentions(s)) && Sound(env')
    decreases c.rank, 0, s, 1
  {
    hide *;
    match s
    case Break => env' := SimpleStmtBack(c, s, env);
    case Continue => env' := SimpleStmtBack(c, s, env);
    case Comment(_) => env' := SimpleStmtBack(c, s, env);
    case Return(_) => env' := ReturnStmtBack(c, s, env);
    case Scope(_) => NoScope(c, s);
    case ExprStmt(_) => env' := ExprStmtBackAll(c, s, env);
    case If(_, _, _) => env' := IfStmtBack(c, s, env);
    case Loop(_) => env' := LoopStmtBack(c, s, env);
    case Switch(_, _) => env' := SwitchStmtBack(c, s, env);
    case Case(_, _) => env' := CaseStmtBack(c, s, env);
    case Default(_) => env' := DefaultStmtBack(c, s, env);
    case Assign(_, _) => env' := AssignStmtBack(c, s, env);
    case For(_, _, _, _) => env' := ForStmtBack(c, s, env);
  }

  lemma NoScope(c: Context, s: Stmt)
    requires StmtOk(c.p, c.f, c.rank, c.ds, s)
    ensures !s.Scope?
  {
  }

  lemma SimpleStmtBack(c: Context, s: Stmt, env: Env) returns (env': Env)
    requires Sound(env) && Good(c, env) && (s.Break? || s.Continue? || s.Comment?)
    ensures ParseStmt(c.doc, c.vars, DumpStmt(s), env, c.pending) == Ok(env')
    ensures Built(c, env, env', [RetagStmt(c.f.kernel, s)], ReturnsValue(s), StmtMentions(s)) && Sound(env')
  {
    BuiltNothing(c, env);
    SimpleBack(c, s, env);
    BuiltStmt(c, env, env, s, false, {});
    hide Built, Good, Sound, ParseStmt, DumpStmt;
    env' := Add(env, s);
  }

  /** What is known of a statement with a body, and of those that evaluate an expression first. */
  lemma BodyParts(c: Context, s: Stmt)
    requires s.Loop? || s.Default? || s.Switch? || s.Case?
    requires StmtOk(c.p, c.f, c.rank, c.ds, s) && Contained(c.doc, StmtMentions(s))
    ensures StmtsOk(c.p, c.f, c.rank, c.ds, s.body) && Contained(c.doc, BodyMentions(s.body))
    ensures ReturnsValue(s) == SomeReturnsValue(s.body)
    ensures s.Loop? || s.Default? ==> StmtMentions(s) == {} + BodyMentions(s.body)
    ensures s.Loop? ==> RetagStmt(c.f.kernel, s) == Loop(RetagStmts(c.f.kernel, s.body))
    ensures s.Default? ==> RetagStmt(c.f.kernel, s) == Default(RetagStmts(c.f.kernel, s.body))
  {
    hide OperandOk, StmtsOk, Mentions, BodyMentions, SomeReturnsValue, RetagExpr, RetagStmts;
  }

  lemma SwitchParts(c: Context, s: Stmt)
    requires s.Switch? || s.Case?
    requires StmtOk(c.p, c.f, c.rank, c.ds, s) && Contained(c.doc, StmtMentions(s))
    ensures OperandOk(c.p, c.f, c.rank, c.ds, s.expr) && Contained(c.doc, Mentions(s.expr))
    ensures StmtMentions(s) == {} + Mentions(s.expr) + BodyMentions(s.body)
    ensures s.Switch? ==>
              RetagStmt(c.f.kernel, s) == Switch(RetagExpr(c.f.kernel, s.expr), RetagStmts(c.f.kernel, s.body))
    ensures s.Case? ==>
              RetagStmt(c.f.kernel, s) == Case(RetagExpr(c.f.kernel, s.expr), RetagStmts(c.f.kernel, s.body))
  {
    hide OperandOk, StmtsOk, Mentions, BodyMentions, SomeReturnsValue, RetagExpr, RetagStmts;
  }

  lemma AssignParts(c: Context, s: Stmt)
    requires s.Assign? && StmtOk(c.p, c.f, c.rank, c.ds, s) && Contained(c.doc, StmtMentions(s))
    ensures OperandOk(c.p, c.f, c.rank, c.ds, s.lhs) && Contained(c.doc, Mentions(s.lhs))
    ensures OperandOk(c.p, c.f, c.rank, c.ds, s.rhs) && Contained(c.doc, Mentions(s.rhs))
    ensures StmtMentions(s) == {} + Mentions(s.lhs) + Mentions(s.rhs) && !ReturnsValue(s)
    ensures RetagStmt(c.f.kernel, s) == Assign(RetagExpr(c.f.kernel, s.lhs), RetagExpr(c.f.kernel, s.rhs))
  {
    hide OperandOk, Mentions, RetagExpr;
  }

  lemma IfParts(c: Context, s: Stmt)
    requires s.If? && StmtOk(c.p, c.f, c.rank, c.ds, s) && Contained(c.doc, StmtMentions(s))
    ensures OperandOk(c.p, c.f, c.rank, c.ds, s.cond) && Contained(c.doc, Mentions(s.cond))
    ensures StmtsOk(c.p, c.f, c.rank, c.ds, s.onTrue) && Contained(c.doc, BodyMentions(s.onTrue))
    ensures StmtsOk(c.p, c.f, c.rank, c.ds, s.onFalse) && Contained(c.doc, BodyMentions(s.onFalse))
    ensures StmtMentions(s) == {} + Mentions(s.cond) + BodyMentions(s.onTrue) + BodyMentions(s.onFalse)
    ensures ReturnsValue(s) == (SomeReturnsValue(s.onTrue) || SomeReturnsValue(s.onFalse))
    ensures RetagStmt(c.f.kernel, s)
            == If(RetagExpr(c.f.kernel, s.cond), RetagStmts(c.f.kernel, s.onTrue), RetagStmts(c.f.kernel, s.onFalse))
  {
    hide OperandOk, StmtsOk, Mentions, BodyMentions, SomeReturnsValue, RetagExpr, RetagStmts;
  }

  lemma ForParts(c: Context, s: Stmt)
    requires s.For? && StmtOk(c.p, c.f, c.rank, c.ds, s) && Contained(c.doc, StmtMentions(s))
    ensures OperandOk(c.p, c.f, c.rank, c.ds, s.variable) && Contained(c.doc, Mentions(s.variable))
    ensures OperandOk(c.p, c.f, c.rank, c.ds, s.cond) && Contained(c.doc, Mentions(s.cond))
    ensures OperandOk(c.p, c.f, c.rank, c.ds, s.step) && Contained(c.doc, Mentions(s.step))
    ensures StmtsOk(c.p, c.f, c.rank, c.ds, s.body) && Contained(c.doc, BodyMentions(s.body))
    ensures StmtMentions(s) == {} + Mentions(s.variable) + Mentions(s.cond) + Mentions(s.step) + BodyMentions(s.body)
    ensures ReturnsValue(s) == SomeReturnsValue(s.body)
    ensures RetagStmt(c.f.kernel, s)
            == For(RetagExpr(c.f.kernel, s.variable), RetagExpr(c.f.kernel, s.cond),
                   RetagExpr(c.f.kernel, s.step), RetagStmts(c.f.kernel, s.body))
  {
    hide OperandOk, StmtsOk, Mentions, BodyMentions, SomeReturnsValue, RetagExpr, RetagStmts;
  }

  lemma {:induction false} LoopStmtBack(c: Context, s: Stmt, env: Env) returns (env': Env)
    requires InContext(c) && Sound(env) && Good(c, env) && s.Loop?
    requires StmtOk(c.p, c.f, c.rank, c.ds, s) && Contained(c.doc, StmtMentions(s))
    ensures ParseStmt(c.doc, c.vars, DumpStmt(s), env, c.pending) == Ok(env')
    ensures Built(c, env, env', [RetagStmt(c.f.kernel, s)], ReturnsValue(s), StmtMentions(s)) && Sound(env')
    decreases c.rank, 0, s, 0
  {
    hide *;
    var j, b := DumpStmt(s), s.body;
    BodyParts(c, s);
    BuiltNothing(c, env);
    LoopFields(b);
    var env1 := ScopeThen(c, j, FBody, b, env, env, false, {});
    LoopBack(c, j, RetagStmts(c.f.kernel, b), env, env1);
    BuiltStmt(c, env, env1, RetagStmt(c.f.kernel, s), SomeReturnsValue(b), {} + BodyMentions(b));
    env' := Add(env1, RetagStmt(c.f.kernel, s));
  }

  lemma {:induction false} DefaultStmtBack(c: Context, s: Stmt, env: Env) returns (env': Env)
    requires InContext(c) && Sound(env) && Good(c, env) && s.Default?
    requires StmtOk(c.p, c.f, c.rank, c.ds, s) && Contained(c.doc, StmtMentions(s))
    ensures ParseStmt(c.doc, c.vars, DumpStmt(s), env, c.pending) == Ok(env')
    ensures Built(c, env, env', [RetagStmt(c.f.kernel, s)], ReturnsValue(s), StmtMentions(s)) && Sound(env')
    decreases c.rank, 0, s, 0
  {
    hide *;
    var j, b := DumpStmt(s), s.body;
    BodyParts(c, s);
    BuiltNothing(c, env);
    DefaultFields(b);
    var env1 := ScopeThen(c, j, FBody, b, env, env, false, {});
    DefaultBack(c, j, RetagStmts(c.f.kernel, b), env, env1);
    BuiltStmt(c, env, env1, RetagStmt(c.f.kernel, s), SomeReturnsValue(b), {} + BodyMentions(b));
    env' := Add(env1, RetagStmt(c.f.kernel, s));
  }

  lemma {:induction false} SwitchStmtBack(c: Context, s: Stmt, env: Env) returns (env': Env)
    requires InContext(c) && Sound(env) && Good(c, env) && s.Switch?
    requires StmtOk(c.p, c.f, c.rank, c.ds, s) && Contained(c.doc, StmtMentions(s))
    ensures ParseStmt(c.doc, c.vars, DumpStmt(s), env, c.pending) == Ok(env')
    ensures Built(c, env, env', [RetagStmt(c.f.kernel, s)], ReturnsValue(s), StmtMentions(s)) && Sound(env')
    decreases c.rank, 0, s, 0
  {
    hide *;
    var j, x, b := DumpStmt(s), s.expr, s.body;
    BodyParts(c, s);
    SwitchParts(c, s);
    BuiltNothing(c, env);
    SwitchFields(x, b);
    var env1 := OperandThen(c, j, FExpression, x, env, env, {});
    var env2 := ScopeThen(c, j, FBody, b, env, env1, false, {} + Mentions(x));
    SwitchBack(c, j, RetagExpr(c.f.kernel, x), RetagStmts(c.f.kernel, b), env, env1, env2);
    BuiltStmt(c, env, env2, RetagStmt(c.f.kernel, s), SomeReturnsValue(b), {} + Mentions(x) + BodyMentions(b));
    env' := Add(env2, RetagStmt(c.f.kernel, s));
  }

  lemma {:induction false} CaseStmtBack(c: Context, s: Stmt, env: Env) returns (env': Env)
    requires InContext(c) && Sound(env) && Good(c, env) && s.Case?
    requires StmtOk(c.p, c.f, c.rank, c.ds, s) && Contained(c.doc, StmtMentions(s))
    ensures ParseStmt(c.doc, c.vars, DumpStmt(s), env, c.pending) == Ok(env')
    ensures Built(c, env, env', [RetagStmt(c.f.kernel, s)], ReturnsValue(s), StmtMentions(s)) && Sound(env')
    decreases c.rank, 0, s, 0
  {
    hide *;
    var j, x, b := DumpStmt(s), s.expr, s.body;
    BodyParts(c, s);
    SwitchParts(c, s);
    BuiltNothing(c, env);
    CaseFields(x, b);
    var env1 := OperandThen(c, j, FValue, x, env, env, {});
    var env2 := ScopeThen(c, j, FBody, b, env, env1, false, {} + Mentions(x));
    CaseBack(c, j, RetagExpr(c.f.kernel, x), RetagStmts(c.f.kernel, b), env, env1, env2);
    BuiltStmt(c, env, env2, RetagStmt(c.f.kernel, s), SomeReturnsValue(b), {} + Mentions(x) + BodyMentions(b));
    env' := Add(env2, RetagStmt(c.f.kernel, s));
  }

  lemma {:induction false} AssignStmtBack(c: Context, s: Stmt, env: Env) returns (env': Env)
    requires InContext(c) && Sound(env) && Good(c, env) && s.Assign?
    requires StmtOk(c.p, c.f, c.rank, c.ds, s) && Contained(c.doc, StmtMentions(s))
    ensures ParseStmt(c.doc, c.vars, DumpStmt(s), env, c.pending) == Ok(env')
    ensures Built(c, env, env', [RetagStmt(c.f.kernel, s)], ReturnsValue(s), StmtMentions(s)) && Sound(env')
    decreases c.rank, 0, s, 0
  {
    hide *;
    var j, l, r := DumpStmt(s), s.lhs, s.rhs;
    AssignParts(c, s);
    BuiltNothing(c, env);
    AssignFields(l, r);
    var env1 := OperandThen(c, j, FLhs, l, env, env, {});
    var env2 := OperandThen(c, j, FRhs, r, env, env1, {} + Mentions(l));
    AssignBack(c, j, RetagExpr(c.f.kernel, l), RetagExpr(c.f.kernel, r), env, env1, env2);
    BuiltStmt(c, env, env2, RetagStmt(c.f.kernel, s), false, {} + Mentions(l) + Mentions(r));
    env' := Add(env2, RetagStmt(c.f.kernel, s));
  }

  lemma {:induction false} IfStmtBack(c: Context, s: Stmt, env: Env) returns (env': Env)
    requires InContext(c) && Sound(env) && Good(c, env) && s.If?
    requires StmtOk(c.p, c.f, c.rank, c.ds, s) && Contained(c.doc, StmtMentions(s))
    ensures ParseStmt(c.doc, c.vars, DumpStmt(s), env, c.pending) == Ok(env')
    ensures Built(c, env, env', [RetagStmt(c.f.kernel, s)], ReturnsValue(s), StmtMentions(s)) && Sound(env')
    decreases c.rank, 0, s, 0
  {
    hide *;
    var j, x, t, e := DumpStmt(s), s.cond, s.onTrue, s.onFalse;
    IfParts(c, s);
    BuiltNothing(c, env);
    IfFields(x, t, e);
    var env1 := OperandThen(c, j, FCondition, x, env, env, {});
    var env2 := ScopeThen(c, j, FTrue, t, env, env1, false, {} + Mentions(x));
    var env3 := ScopeThen(c, j, FFalse, e, env, env2, SomeReturnsValue(t), {} + Mentions(x) + BodyMentions(t));
    IfBack(c, j, RetagExpr(c.f.kernel, x), RetagStmts(c.f.kernel, t), RetagStmts(c.f.kernel, e), env, env1, env2, env3);
    BuiltStmt(c, env, env3, RetagStmt(c.f.kernel, s), SomeReturnsValue(t) || SomeReturnsValue(e),
              {} + Mentions(x) + BodyMentions(t) + BodyMentions(e));
    env' := Add(env3, RetagStmt(c.f.kernel, s));
  }

  lemma {:induction false} ForStmtBack(c: Context, s: Stmt, env: Env) returns (env': Env)
    requires InContext(c) && Sound(env) && Good(c, env) && s.For?
    requires StmtOk(c.p, c.f, c.rank, c.ds, s) && Contained(c.doc, StmtMentions(s))
    ensures ParseStmt(c.doc, c.vars, DumpStmt(s), env, c.pending) == Ok(env')
    ensures Built(c, env, env', [RetagStmt(c.f.kernel, s)], ReturnsValue(s), StmtMentions(s)) && Sound(env')
    decreases c.rank, 0, s, 0
  {
    hide *;
    var j, v, x, st, b := DumpStmt(s), s.variable, s.cond, s.step, s.body;
    ForParts(c, s);
    BuiltNothing(c, env);
    ForFields(v, x, st, b);
    var env1 := OperandThen(c, j, FVariable, v, env, env, {});
    var env2 := OperandThen(c, j, FCondition, x, env, env1, {} + Mentions(v));
    var env3 := OperandThen(c, j, FStep, st, env, env2, {} + Mentions(v) + Mentions(x));
    var env4 := ScopeThen(c, j, FBody, b, env, env3, false, {} + Mentions(v) + Mentions(x) + Mentions(st));
    ForBack(c, j, RetagExpr(c.f.kernel, v), RetagExpr(c.f.kernel, x), RetagExpr(c.f.kernel, st),
            RetagStmts(c.f.kernel, b), env, env1, env2, env3, env4);
    BuiltStmt(c, env, env4, RetagStmt(c.f.kernel, s), SomeReturnsValue(b),
              {} + Mentions(v) + Mentions(x) + Mentions(st) + BodyMentions(b));
    env' := Add(env4, RetagStmt(c.f.kernel, s));
  }

  lemma {:induction false} ReturnStmtBack(c: Context, s: Stmt, env: Env) returns (env': Env)
    requires InContext(c) && Sound(env) && Good(c, env) && s.Return?
    requires StmtOk(c.p, c.f, c.rank, c.ds, s) && Contained(c.doc, StmtMentions(s))
    ensures ParseStmt(c.doc, c.vars, DumpStmt(s), env, c.pending) == Ok(env')
    ensures Built(c, env, env', [RetagStmt(c.f.kernel, s)], ReturnsValue(s), StmtMentions(s)) && Sound(env')
    decreases c.rank, 0, s, 0
  {
    var j := DumpStmt(s);
    ReturnFields(s.value);
    hide DumpStmt, DumpExpr, ParseStmt, ParseOperand, At, WordAt, InContext, RetagExpr, Built, Follows, Good;
    hide OperandOk, Contained, Mentions, TypeOf, Sound;
    if s.value.None? {
      BuiltNothing(c, env);
      GoodReturn(c, env);
      VoidReturnBack(c, j, env);
      BuiltStmt(c, env, env, s, false, {});
      env' := Add(env, s);
    } else {
      var x := s.value.value;
      var env1 := OperandBack(c, j, FValue, x, env);
      RetaggedType(c.f.kernel, x);
      FollowsIsGood(c, env, env1, Mentions(x));
      GoodReturn(c, env1);
      ReturnBack(c, j, RetagExpr(c.f.kernel, x), env, env1);
      BuiltReturn(c, env, env1, RetagStmt(c.f.kernel, s), Mentions(x));
      env' := env1.(f := Append(env1.f.(returnType := TypeOf(x)), RetagStmt(c.f.kernel, s)));
    }
  }

  lemma GoodReturn(c: Context, env: Env)
    requires Good(c, env)
    ensures env.f.kernel == c.f.kernel && (env.f.returnType == None || env.f.returnType == c.f.returnType)
  {
  }

  lemma BuiltReturn(c: Context, env: Env, env1: Env, s: Stmt, ms: set<Mention>)
    requires Follows(c, env, env1, ms)
    ensures var env' := env1.(f := Append(env1.f.(returnType := c.f.returnType), s));
            Built(c, env, env', [s], true, ms) && Sound(env')
  {
    hide Uses, Closed, AllRebuilt;
    var f := Append(env1.f.(returnType := c.f.returnType), s);
    UsesSame(c, env, env1, env.f, f, ms);
    SameClosed(env1.parsed, env1.f, f);
  }

  lemma RetaggedType(kernel: bool, e: Expr)
    ensures TypeOf(RetagExpr(kernel, e)) == TypeOf(e)
  {
  }

  lemma {:induction false} ExprStmtBackAll(c: Context, s: Stmt, env: Env) returns (env': Env)
    requires InContext(c) && Sound(env) && Good(c, env) && s.ExprStmt?
    requires StmtOk(c.p, c.f, c.rank, c.ds, s) && Contained(c.doc, StmtMentions(s))
    ensures ParseStmt(c.doc, c.vars, DumpStmt(s), env, c.pending) == Ok(env')
    ensures Built(c, env, env', [RetagStmt(c.f.kernel, s)], ReturnsValue(s), StmtMentions(s)) && Sound(env')
    decreases c.rank, 0, s, 0
  {
    hide *;
    var j, e := DumpStmt(s), s.expr;
    var e' := RetagExpr(c.f.kernel, e);
    ExprStmtParts(c, s);
    ExprStmtFields(e);
    BuiltNothing(c, env);
    var env1;
    if IsVoidCall(e) {
      env1 := CallBack(c, e, env);
    } else {
      env1 := ExprBack(c, e, env);
      YieldsExpr(c.f.kernel, e, env1);
    }
    ExprStmtBack(c, j, DumpExpr(e), e', env, env1);
    env' := Add(env1, ExprStmt(e'));
    BuiltExpr(c, env, env, env1, [], false, {}, Mentions(e));
    BuiltStmt(c, env, env1, ExprStmt(e'), false, {} + Mentions(e));
  }

  lemma ExprStmtParts(c: Context, s: Stmt)
    requires s.ExprStmt? && StmtOk(c.p, c.f, c.rank, c.ds, s) && Contained(c.doc, StmtMentions(s))
    ensures ExprOk(c.p, c.f, c.rank, c.ds, s.expr) && Contained(c.doc, Mentions(s.expr))
    ensures IsVoidCall(s.expr) ==> s.expr.Call?
    ensures !IsVoidCall(s.expr) ==> OperandOk(c.p, c.f, c.rank, c.ds, s.expr)
    ensures StmtMentions(s) == {} + Mentions(s.expr) && !ReturnsValue(s)
    ensures RetagStmt(c.f.kernel, s) == ExprStmt(RetagExpr(c.f.kernel, s.expr))
  {
    hide ExprOk, Mentions, RetagExpr;
  }

  // ----- Whole functions -----

  lemma StartBack(f: Function, nested: bool)
    requires |f.arguments| == |f.bindings|
    requires nested ==> !f.kernel
    requires !f.kernel ==> f.blockSize == (0, 0, 0)
    ensures var j := DumpFunction(f);
            && StartFunction(j, nested) == Ok(NewFunction(f.kernel).(blockSize := f.blockSize))
            && At(j, FVariables) == Ok(JArray(DumpVariables(f)))
            && At(j, FBody) == Ok(DumpScope(f.body))
  {
    hide DumpVariables, DumpScope;
  }

  lemma FunctionVariables(f: Function, ds: seq<Decl>)
    requires Admissible(ds) && HasVariables(f, ds)
    ensures |f.arguments| == |f.bindings| && DumpVariables(f) == DumpDecls(f.kernel, ds)
  {
    VariablesWritten(f.kernel, ds);
    DeclaredCounts(NewFunction(f.kernel), ds);
  }

  /** The builder when the variables of f have been read. */
  lemma VariablesBack(f: Function, ds: seq<Decl>) returns (g: Function, vars: seq<Variable>)
    requires Admissible(ds) && HasVariables(f, ds)
    ensures |f.arguments| == |f.bindings|
    ensures var start := NewFunction(f.kernel).(blockSize := f.blockSize);
            ParseVariables(start, DumpVariables(f), |DumpVariables(f)|) == Ok((g, vars))
    ensures |vars| == |ds| && forall i | 0 <= i < |ds| :: vars[i] == RetagVariable(f.kernel, ds[i].v)
    ensures |g.arguments| == |g.bindings|
    ensures g == Rebuilt(f).(body := [], returnType := None, ops := {}, customs := [], constants := [])
  {
    FunctionVariables(f, ds);
    var start := NewFunction(f.kernel).(blockSize := f.blockSize);
    VariablesRead(start, ds, DumpDecls(f.kernel, ds));
    var rs := RetagDecls(f.kernel, ds);
    g := DeclareAll(start, rs);
    vars := VariablesOf(rs);
    RebuiltVariables(f.kernel, ds);
    BlockSizeKept(NewFunction(f.kernel), rs, f.blockSize);
    DeclaredOnly(start, rs);
    hide DeclareAll, DumpDecls, DumpVariables, ParseVariables, RetagStmts, RetagVariables, Unbound;
  }

  lemma {:induction false} DeclaredOnly(start: Function, ds: seq<Decl>)
    ensures var g := DeclareAll(start, ds);
            && g.kernel == start.kernel && g.blockSize == start.blockSize && g.body == start.body
            && g.returnType == start.returnType && g.ops == start.ops
            && g.customs == start.customs && g.constants == start.constants
  {
    if ds != [] {
      DeclaredOnly(start, ds[..|ds| - 1]);
    }
  }

  /** The function built is the rebuilt one, and passes the checks at the end of its definition. */
  lemma DefinitionEnds(c: Context, g: Function, env0: Env, env1: Env)
    requires Finish(c.f).Ok? && (c.f.returnType.Some? <==> SomeReturnsValue(c.f.body))
    requires g == Rebuilt(c.f).(body := [], returnType := None, ops := {}, customs := [], constants := [])
    requires env0.f == g && Built(c, env0, env1, [], SomeReturnsValue(c.f.body), BodyMentions(c.f.body))
    ensures var r := env1.f.(body := RetagStmts(c.f.kernel, c.f.body));
            Finish(r) == Ok(r) && IsRebuilt(env1.parsed, r, c.f) && Closed(env1.parsed, r)
  {
    hide RetagStmts, SomeReturnsValue, BodyMentions, Good, Uses, Closed, Lists, RetagVariables, Unbound;
    BuiltOps(c, env0, env1, [], SomeReturnsValue(c.f.body), BodyMentions(c.f.body));
    var r := env1.f.(body := RetagStmts(c.f.kernel, c.f.body));
    SameClosed(env1.parsed, env1.f, r);
    UsesAll(c, env0, env1, r, BodyMentions(c.f.body));
  }

  /** A builder whose lists were empty has listed what was reached. */
  lemma UsesAll(c: Context, env0: Env, env1: Env, r: Function, ms: set<Mention>)
    requires Uses(c, env0, env1, ms) && SameLists(env1.f, r)
    requires env0.f.ops == {} && env0.f.customs == [] && env0.f.constants == []
    ensures Lists(env1.parsed, r, ms)
  {
    hide Reached;
    forall m ensures Listed(r, m) <==> Reached(env1.parsed, ms, m) {
      SameListed(env1.f, r, m);
      assert !Listed(env0.f, m);
    }
  }

  lemma BuiltOps(c: Context, env: Env, env': Env, added: seq<Stmt>, valued: bool, ms: set<Mention>)
    requires Built(c, env, env', added, valued, ms)
    ensures env'.f.ops <= c.f.ops && Finished(env'.parsed) && AllRebuilt(c.p, env'.parsed)
    ensures Grows(c.p, c.rank, env.parsed, env'.parsed) && HasCallees(c.p, c.rank, env'.parsed, ms)
    ensures |env'.f.arguments| == |env'.f.bindings| && Closed(env'.parsed, env'.f)
  {
    hide AllRebuilt, Grows, HasCallees, Closed;
  }

  lemma FreshEnv(c: Context, g: Function, parsed: map<Key, Function>)
    requires g == Rebuilt(c.f).(body := [], returnType := None, ops := {}, customs := [], constants := [])
    requires |g.arguments| == |g.bindings| && Finished(parsed) && AllRebuilt(c.p, parsed)
    ensures Good(c, Env(g, parsed)) && Sound(Env(g, parsed))
  {
  }

  lemma Defined(
    doc: Doc, j: Json, parsed: map<Key, Function>, pending: set<Key>, nested: bool,
    start: Function, js: seq<Json>, g: Function, vars: seq<Variable>, body: seq<Stmt>, env1: Env, f: Function)
    requires Finished(parsed) && Sound(Env(g, parsed)) && Sound(env1)
    requires |start.arguments| == |start.bindings|
    requires StartFunction(j, nested) == Ok(start) && At(j, FVariables) == Ok(JArray(js))
    requires ParseVariables(start, js, |js|) == Ok((g, vars))
    requires ParseScope(doc, vars, j, FBody, Env(g, parsed), pending) == Ok((body, env1))
    requires Finish(env1.f.(body := body)) == Ok(f)
    ensures Define(doc, j, parsed, pending, nested) == Ok(Env(f, env1.parsed))
  {
    hide StartFunction, ParseVariables, ParseScope, Finish, At;
  }

  lemma {:induction false} FunctionBack(
      doc: Doc, p: Program, k: Key, parsed: map<Key, Function>, pending: set<Key>) returns (parsed': map<Key, Function>)
    requires ProgramOk(p) && Faithful(doc, p) && Finished(parsed) && AllRebuilt(p, parsed)
    requires k in doc.functions && k in p.functions && k in p.rank
    requires Above(p, pending, p.rank[k] + 1)
    requires pending != {} ==> !p.functions[k].kernel
    ensures ParseFunction(doc, k, parsed, pending) == Ok(parsed')
    ensures Finished(parsed') && AllRebuilt(p, parsed') && k in parsed'
    ensures Grows(p, p.rank[k] + 1, parsed, parsed')
    decreases p.rank[k], 2
  {
    hide *;
    if k in parsed {
      parsed' := parsed;
      GrowsNot(p, p.rank[k] + 1, parsed);
      FoundFunction(doc, k, parsed, pending);
      return;
    }
    var ds := PickVariables(p, k);
    NotPending(p, k, pending);
    FaithfulFacts(doc, p, k);
    var done := DefinitionBack(doc, p, k, ds, parsed, pending);
    NewDefinition(doc, k, parsed, pending, done);
    parsed' := done.parsed[k := done.f];
    GrowsByOne(p, k, parsed, done.parsed, done.f);
    OneMoreRebuilt(p, done.parsed, k, done.f);
  }

  lemma PickVariables(p: Program, k: Key) returns (ds: seq<Decl>)
    requires ProgramOk(p) && k in p.functions
    ensures k in p.rank && FunctionOk(p, p.functions[k], p.rank[k], ds)
  {
    hide FunctionOk;
    ds :| FunctionOk(p, p.functions[k], p.rank[k], ds);
  }

  lemma NotPending(p: Program, k: Key, pending: set<Key>)
    requires k in p.rank && Above(p, pending, p.rank[k] + 1)
    ensures k !in pending && Above(p, pending + {k}, p.rank[k])
  {
  }

  lemma FaithfulFacts(doc: Doc, p: Program, k: Key)
    requires Faithful(doc, p) && k in doc.functions
    ensures k in p.functions && |p.functions[k].arguments| == |p.functions[k].bindings|
    ensures doc.functions[k] == DumpFunction(p.functions[k])
    ensures Contained(doc, BodyMentions(p.functions[k].body))
  {
  }

  lemma FoundFunction(doc: Doc, k: Key, parsed: map<Key, Function>, pending: set<Key>)
    requires Finished(parsed) && k in parsed
    ensures ParseFunction(doc, k, parsed, pending) == Ok(parsed)
  {
  }

  lemma NewDefinition(doc: Doc, k: Key, parsed: map<Key, Function>, pending: set<Key>, done: Env)
    requires Finished(parsed) && k !in parsed && k in doc.functions && k !in pending
    requires Define(doc, doc.functions[k], parsed, pending + {k}, pending != {}) == Ok(done)
    ensures ParseFunction(doc, k, parsed, pending) == Ok(done.parsed[k := done.f])
  {
    hide Define;
  }

  lemma GrowsNot(p: Program, rank: nat, parsed: map<Key, Function>)
    ensures Grows(p, rank, parsed, parsed)
  {
  }

  lemma GrowsByOne(p: Program, k: Key, parsed: map<Key, Function>, done: map<Key, Function>, f: Function)
    requires k in p.rank && k !in parsed && Grows(p, p.rank[k], parsed, done)
    ensures k !in done && Grows(p, p.rank[k] + 1, parsed, done[k := f])
  {
  }

  lemma OneMoreRebuilt(p: Program, parsed: map<Key, Function>, k: Key, f: Function)
    requires Finished(parsed) && AllRebuilt(p, parsed) && k !in parsed && k in p.functions && k in p.rank
    requires IsRebuilt(parsed, f, p.functions[k]) && |f.arguments| == |f.bindings| && Closed(parsed, f)
    requires HasCallees(p, p.rank[k], parsed, BodyMentions(p.functions[k].body))
    ensures Finished(parsed[k := f]) && AllRebuilt(p, parsed[k := f])
  {
    hide SameShape, Reached, Listed, BodyMentions, KeyRebuilt;
    forall q | q in parsed ensures q in p.functions && q in p.rank && KeyRebuilt(p, parsed[k := f], q) {
      RebuiltLater(p, parsed, k, f, q);
    }
    NewRebuilt(p, parsed, k, f);
  }

  lemma NewRebuilt(p: Program, parsed: map<Key, Function>, k: Key, f: Function)
    requires k !in parsed && k in p.functions && k in p.rank
    requires IsRebuilt(parsed, f, p.functions[k]) && Closed(parsed, f)
    requires HasCallees(p, p.rank[k], parsed, BodyMentions(p.functions[k].body))
    ensures KeyRebuilt(p, parsed[k := f], k)
  {
    hide SameShape, Reached, Listed;
    var ms := BodyMentions(p.functions[k].body);
    hide BodyMentions;
    forall m
      ensures Reached(parsed, ms, m) <==> Reached(parsed[k := f], ms, m)
    {
      ReachedLater(p, p.rank[k], parsed, parsed[k := f], ms, m);
    }
  }

  lemma OkFacts(p: Program, f: Function, rank: nat, ds: seq<Decl>)
    requires FunctionOk(p, f, rank, ds)
    ensures Admissible(ds) && HasVariables(f, ds) && StmtsOk(p, f, rank, ds, f.body)
    ensures (f.returnType.Some? <==> SomeReturnsValue(f.body)) && Finish(f).Ok?
    ensures !f.kernel ==> f.blockSize == (0, 0, 0)
  {
  }

  lemma EnterContext(c: Context)
    requires ProgramOk(c.p) && Faithful(c.doc, c.p) && c.pending != {} && Above(c.p, c.pending, c.rank)
    requires |c.vars| == |c.ds| && forall i | 0 <= i < |c.ds| :: c.vars[i] == RetagVariable(c.f.kernel, c.ds[i].v)
    ensures InContext(c)
  {
  }

  lemma NewFunctionSound(kernel: bool, blockSize: (nat, nat, nat))
    ensures var f := NewFunction(kernel).(blockSize := blockSize); |f.arguments| == |f.bindings|
  {
  }

  lemma {:induction false} DefinitionBack(
      doc: Doc, p: Program, k: Key, ds: seq<Decl>, parsed: map<Key, Function>, pending: set<Key>) returns (done: Env)
    requires ProgramOk(p) && Faithful(doc, p) && Finished(parsed) && AllRebuilt(p, parsed)
    requires k in p.functions && k in p.rank && FunctionOk(p, p.functions[k], p.rank[k], ds)
    requires k in doc.functions && |p.functions[k].arguments| == |p.functions[k].bindings|
    requires doc.functions[k] == DumpFunction(p.functions[k]) && Contained(doc, BodyMentions(p.functions[k].body))
    requires Above(p, pending + {k}, p.rank[k])
    requires pending != {} ==> !p.functions[k].kernel
    ensures Define(doc, doc.functions[k], parsed, pending + {k}, pending != {}) == Ok(done)
    ensures Finished(done.parsed) && AllRebuilt(p, done.parsed) && Grows(p, p.rank[k], parsed, done.parsed)
    ensures HasCallees(p, p.rank[k], done.parsed, BodyMentions(p.functions[k].body))
    ensures IsRebuilt(done.parsed, done.f, p.functions[k]) && |done.f.arguments| == |done.f.bindings|
    ensures Closed(done.parsed, done.f)
    decreases p.rank[k], 1
  {
    hide *;
    var f := p.functions[k];
    OkFacts(p, f, p.rank[k], ds);
    var g, vars := VariablesBack(f, ds);
    var j := DumpFunction(f);
    var start := NewFunction(f.kernel).(blockSize := f.blockSize);
    NewFunctionSound(f.kernel, f.blockSize);
    StartBack(f, pending != {});
    var c := Context(doc, p, f, p.rank[k], ds, vars, pending + {k});
    EnterContext(c);
    FreshEnv(c, g, parsed);
    var env0 := Env(g, parsed);
    var env1 := ScopeBack(c, j, FBody, f.body, env0);
    var body := RetagStmts(f.kernel, f.body);
    BuiltOps(c, env0, env1, [], SomeReturnsValue(f.body), BodyMentions(f.body));
    DefinitionEnds(c, g, env0, env1);
    var r := env1.f.(body := body);
    Defined(doc, j, parsed, pending + {k}, pending != {}, start, DumpVariables(f), g, vars, body, env1, r);
    done := Env(r, env1.parsed);
  }

  /** The type that the builder compares when it returns a value is the one that is written. */
  lemma TypeIsWritten(e: Expr)
    ensures At(DumpExpr(e), FType) == Ok(DumpType(TypeOf(e)))
  {
    hide DumpType, DumpValue, DumpExprs;
  }

  // ----- The lists of the rebuilt functions -----

  /** These functions list what their bodies reach, and nothing else. */
  ghost predicate Tight(p: Program, keys: set<Key>) {
    forall k | k in keys && k in p.functions ::
      Lists(p.functions, p.functions[k], BodyMentions(p.functions[k].body))
  }

  /** The rebuilt functions list what the originals list. */
  ghost predicate SameListings(p: Program, parsed: map<Key, Function>) {
    forall k | k in parsed && k in p.functions :: SameListing(parsed[k], p.functions[k])
  }

  ghost predicate SameListing(g: Function, f: Function) {
    forall m :: Listed(g, m) <==> Listed(f, m)
  }

  lemma RebuiltFacts(p: Program, parsed: map<Key, Function>, k: Key)
    requires AllRebuilt(p, parsed) && k in parsed
    ensures k in p.functions && k in p.rank
    ensures Lists(parsed, parsed[k], BodyMentions(p.functions[k].body))
    ensures HasCallees(p, p.rank[k], parsed, BodyMentions(p.functions[k].body))
  {
    hide SameShape, Lists, HasCallees, Closed;
  }

  lemma {:induction false} TightListing(p: Program, parsed: map<Key, Function>, k: Key)
    requires AllRebuilt(p, parsed) && Tight(p, parsed.Keys) && k in parsed && k in p.rank
    ensures k in p.functions && SameListing(parsed[k], p.functions[k])
    decreases p.rank[k]
  {
    hide AllRebuilt, Listed, BodyMentions;
    RebuiltFacts(p, parsed, k);
    var ms := BodyMentions(p.functions[k].body);
    forall q | Callable(q) in ms
      ensures q in parsed && q in p.functions && SameListing(parsed[q], p.functions[q])
    {
      TightListing(p, parsed, q);
    }
  }

  /** The lists come back exactly when everything that is listed occurs in the bodies. */
  lemma ListsBackIff(p: Program, parsed: map<Key, Function>)
    requires AllRebuilt(p, parsed)
    ensures SameListings(p, parsed) <==> Tight(p, parsed.Keys)
  {
    hide AllRebuilt, Listed, BodyMentions;
    if Tight(p, parsed.Keys) {
      forall k | k in parsed ensures k in p.functions && SameListing(parsed[k], p.functions[k]) {
        RebuiltFacts(p, parsed, k);
        TightListing(p, parsed, k);
      }
    }
    if SameListings(p, parsed) {
      forall k | k in parsed
        ensures k in p.functions && Lists(p.functions, p.functions[k], BodyMentions(p.functions[k].body))
      {
        ListingBack(p, parsed, k);
      }
    }
  }

  lemma ListingBack(p: Program, parsed: map<Key, Function>, k: Key)
    requires AllRebuilt(p, parsed) && SameListings(p, parsed) && k in parsed
    ensures k in p.functions && Lists(p.functions, p.functions[k], BodyMentions(p.functions[k].body))
  {
    hide AllRebuilt, Listed, BodyMentions;
    RebuiltFacts(p, parsed, k);
    var ms := BodyMentions(p.functions[k].body);
    forall q | Callable(q) in ms
      ensures q in parsed && q in p.functions && SameListing(parsed[q], p.functions[q])
    {
      RebuiltFacts(p, parsed, q);
    }
  }

  /** Functions that list the same have the same operations, callables and constants. */
  lemma ListingElements(g: Function, f: Function)
    requires SameListing(g, f)
    ensures g.ops == f.ops
    ensures forall k :: k in g.customs <==> k in f.customs
    ensures forall c :: c in g.constants <==> c in f.constants
  {
    forall op: nat ensures op in g.ops <==> op in f.ops {
      assert Listed(g, Operation(op)) <==> Listed(f, Operation(op));
    }
    forall k ensures k in g.customs <==> k in f.customs {
      assert Listed(g, Callable(k)) <==> Listed(f, Callable(k));
    }
    forall c ensures c in g.constants <==> c in f.constants {
      assert Listed(g, Data(c.ty, c.key)) <==> Listed(f, Data(c.ty, c.key));
    }
  }

  // ----- Callables that become equal -----

  lemma {:induction false} RetaggedMentions(kernel: bool, e: Expr)
    ensures Mentions(RetagExpr(kernel, e)) == Mentions(e)
    decreases e, 0
  {
    match e
    case Unary(_, _, x) => RetaggedMentions(kernel, x);
    case Binary(_, _, l, r) => RetaggedMentions(kernel, l); RetaggedMentions(kernel, r);
    case Member(_, x, _) => RetaggedMentions(kernel, x);
    case Swizzle(_, x, _, _) => RetaggedMentions(kernel, x);
    case Access(_, r, i) => RetaggedMentions(kernel, r); RetaggedMentions(kernel, i);
    case Literal(_, _) =>
    case Ref(_) =>
    case Constant(_, _) =>
    case Call(_, _, args) => RetaggedMentionsOf(kernel, args, |args|);
    case Cast(_, _, x) => RetaggedMentions(kernel, x);
  }

  lemma {:induction false} RetaggedMentionsOf(kernel: bool, es: seq<Expr>, n: nat)
    requires n <= |es|
    ensures MentionsOf(RetagExprs(kernel, es)[..n]) == MentionsOf(es[..n])
    ensures MentionsOf(RetagExprs(kernel, es)) == MentionsOf(es) <== n == |es|
    decreases es, n
  {
    hide Mentions, RetagExpr, RetagExprs;
    var r := RetagExprs(kernel, es);
    if n > 0 {
      RetaggedMentionsOf(kernel, es, n - 1);
      RetaggedElement(kernel, es, n - 1);
      RetaggedMentions(kernel, es[n - 1]);
      assert r[..n][..n - 1] == r[..n - 1] && es[..n][..n - 1] == es[..n - 1];
    }
    assert n == |es| ==> r[..n] == r && es[..n] == es;
  }

  lemma {:induction false} RetaggedStmtMentions(kernel: bool, s: Stmt)
    ensures StmtMentions(RetagStmt(kernel, s)) == StmtMentions(s)
    decreases s, 0
  {
    hide Mentions, RetagExpr, BodyMentions, RetagStmts;
    match s
    case Break =>
    case Continue =>
    case Return(None) =>
    case Return(Some(e)) => RetaggedMentions(kernel, e);
    case Scope(b) => RetaggedBody(kernel, b);
    case If(c, t, f) => RetaggedMentions(kernel, c); RetaggedBody(kernel, t); RetaggedBody(kernel, f);
    case Loop(b) => RetaggedBody(kernel, b);
    case ExprStmt(e) => RetaggedMentions(kernel, e);
    case Switch(e, b) => RetaggedMentions(kernel, e); RetaggedBody(kernel, b);
    case Case(e, b) => RetaggedMentions(kernel, e); RetaggedBody(kernel, b);
    case Default(b) => RetaggedBody(kernel, b);
    case Assign(l, r) => RetaggedMentions(kernel, l); RetaggedMentions(kernel, r);
    case For(v, c, st, b) =>
      RetaggedMentions(kernel, v); RetaggedMentions(kernel, c); RetaggedMentions(kernel, st);
      RetaggedBody(kernel, b);
    case Comment(_) =>
  }

  lemma {:induction false} RetaggedBody(kernel: bool, body: seq<Stmt>)
    ensures BodyMentions(RetagStmts(kernel, body)) == BodyMentions(body)
    decreases body, 1
  {
    hide *;
    RetaggedFront(kernel, body, |body|);
    assert RetagStmts(kernel, body)[..|body|] == RetagStmts(kernel, body) && body[..|body|] == body;
  }

  lemma {:induction false} RetaggedFront(kernel: bool, body: seq<Stmt>, n: nat)
    requires n <= |body|
    ensures BodyMentions(RetagStmts(kernel, body)[..n]) == BodyMentions(body[..n])
    decreases body, 0, n
  {
    hide *;
    var r := RetagStmts(kernel, body);
    if n > 0 {
      RetaggedFront(kernel, body, n - 1);
      RetaggedStmt(kernel, body, n - 1);
      RetaggedStmtMentions(kernel, body[n - 1]);
      OneMoreStmt(r[..n - 1], r[n - 1]);
      OneMoreStmt(body[..n - 1], body[n - 1]);
      assert r[..n] == r[..n - 1] + [r[n - 1]] && body[..n] == body[..n - 1] + [body[n - 1]];
    } else {
      assert r[..0] == body[..0];
    }
  }

  /**
   * Rebuilt functions with the same body list the same: where two callables become equal
   * because their builtin variables turn into arguments, each may stand for the other.
   */
  lemma EqualBodiesListTheSame(p: Program, parsed: map<Key, Function>, j: Key, k: Key)
    requires AllRebuilt(p, parsed) && j in parsed && k in parsed && parsed[j].body == parsed[k].body
    ensures SameListing(parsed[j], parsed[k])
  {
    RebuiltEntry(p, parsed, j);
    RebuiltEntry(p, parsed, k);
    RebuiltFacts(p, parsed, j);
    RebuiltFacts(p, parsed, k);
    hide AllRebuilt, RetagStmts, BodyMentions, Listed, Reached;
    RetaggedBody(p.functions[j].kernel, p.functions[j].body);
    RetaggedBody(p.functions[k].kernel, p.functions[k].body);
  }
}
