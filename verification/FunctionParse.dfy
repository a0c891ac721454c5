/**
 * The reading half of src/ast/function_serializer.cpp: functions are rebuilt from
 * JSON through the function builder. `Err` stands for every way the program ends:
 * exceptions of the JSON library, failed assertions and null operands.
 */
module FunctionParse {
  import opened Integers
  import opened Types
  import opened Ast
  import opened Functions
  import opened FunctionDump

  datatype Doc = Doc(entry: Key, constants: set<Key>, functions: map<Key, Json>)

  /** The builder on top of the function stack, and the functions finished so far. */
  datatype Env = Env(f: Function, parsed: map<Key, Function>)

  /** Every finished function has as many bindings as arguments (src/ast/function_builder.cpp:42-46). */
  predicate Sound(env: Env) {
    && |env.f.arguments| == |env.f.bindings|
    && Finished(env.parsed)
  }

  predicate Finished(parsed: map<Key, Function>) {
    forall k | k in parsed :: |parsed[k].arguments| == |parsed[k].bindings|
  }

  // ----- Types and literals -----

  function TypeAt(j: Json): Result<Option<Type>> {
    var v :- At(j, FType);
    if !v.JText? then Err("String expected")
    else if v.text == "void" then Ok(None)
    else
      var ty :- Parse(v.text);
      Ok(Some(ty))
  }

  function ValueTypeAt(j: Json): Result<Type> {
    var ty :- TypeAt(j);
    if ty.None? then Err("Void expression") else Ok(ty.value)
  }

  function ReadScalar(v: Json, kind: Kind): Result<int> {
    if v.JScalar? && v.kind == kind then Ok(v.x) else Err("Type error")
  }

  /** The first n elements of an array. */
  function ReadElements(items: seq<Json>, kind: Kind, n: nat): Result<seq<int>> {
    if n == 0 then Ok([]) else
      var front :- ReadElements(items, kind, n - 1);
      if n > |items| then Err("Out of range") else
        var x :- ReadScalar(items[n - 1], kind);
        Ok(front + [x])
  }

  function KindOf(ty: Type): Option<Kind> {
    match ty
    case Bool => Some(BoolKind)
    case Float => Some(FloatKind)
    case Int => Some(IntKind)
    case Uint => Some(UintKind)
    case _ => None
  }

  function ParseValue(ty: Type, v: Json): Result<Value> {
    if KindOf(ty).Some? then
      var x :- ReadScalar(v, KindOf(ty).value);
      Ok(ScalarValue(KindOf(ty).value, x))
    else if ty.Vector? && KindOf(ty.elem).Some? && 2 <= ty.dim <= 4 then
      if !v.JArray? then Err("Array expected") else
        var xs :- ReadElements(v.items, KindOf(ty.elem).value, ty.dim);
        Ok(VectorValue(KindOf(ty.elem).value, xs))
    else if ty.Matrix? && 2 <= ty.dim <= 4 then
      if !v.JArray? then Err("Array expected") else
        var xs :- ReadElements(v.items, FloatKind, ty.dim * ty.dim);
        Ok(MatrixValue(ty.dim, xs))
    else
      Err("Invalid literal expression.")
  }

  // ----- Expressions -----

  function Remaining(doc: Doc, pending: set<Key>): nat {
    |doc.functions.Keys - pending|
  }

  lemma RemainingShrinks(doc: Doc, pending: set<Key>, key: Key)
    requires key in doc.functions && key !in pending
    ensures Remaining(doc, pending + {key}) < Remaining(doc, pending)
  {
    assert doc.functions.Keys - (pending + {key}) < doc.functions.Keys - pending;
    Smaller(doc.functions.Keys - (pending + {key}), doc.functions.Keys - pending);
  }

  lemma {:induction false} Smaller<T>(a: set<T>, b: set<T>)
    requires a < b
    ensures |a| < |b|
  {
    var x :| x in b && x !in a;
    SmallerOrEqual(a, b - {x});
  }

  lemma {:induction false} SmallerOrEqual<T>(a: set<T>, b: set<T>)
    requires a <= b
    ensures |a| <= |b|
  {
    if a != {} {
      var x :| x in a;
      SmallerOrEqual(a - {x}, b - {x});
    }
  }

  /** `pending` are the functions being parsed; a function that calls itself would be parsed forever. */
  function ParseExpr(
      doc: Doc, vars: seq<Variable>, j: Json, env: Env, pending: set<Key>): (r: Result<(Option<Expr>, Env)>)
    requires Sound(env)
    ensures r.Ok? ==> Sound(r.value.1)
    decreases Remaining(doc, pending), 1, j, 2
  {
    var tag :- WordAt(j, FTag);
    match tag
    case WUnary => ParseUnary(doc, vars, j, env, pending)
    case WBinary => ParseBinary(doc, vars, j, env, pending)
    case WMember => ParseMember(doc, vars, j, env, pending)
    case WAccess => ParseAccess(doc, vars, j, env, pending)
    case WLiteral => ParseLiteral(j, env)
    case WRef => ParseRef(vars, j, env)
    case WConstant => ParseConstant(doc, j, env)
    case WCall => ParseCall(doc, vars, j, env, pending)
    case WCast => ParseCast(doc, vars, j, env, pending)
    case _ => Err("Unknown tag")
  }

  function ParseUnary(
      doc: Doc, vars: seq<Variable>, j: Json, env: Env, pending: set<Key>): (r: Result<(Option<Expr>, Env)>)
    requires Sound(env)
    ensures r.Ok? ==> Sound(r.value.1)
    decreases Remaining(doc, pending), 1, j, 1
  {
    var ty :- ValueTypeAt(j);
    var op :- NumberAt(j, FOp);
    var x :- ParseOperand(doc, vars, j, FOperand, env, pending);
    Ok((Some(Unary(ty, op, x.0)), x.1))
  }

  function ParseBinary(
      doc: Doc, vars: seq<Variable>, j: Json, env: Env, pending: set<Key>): (r: Result<(Option<Expr>, Env)>)
    requires Sound(env)
    ensures r.Ok? ==> Sound(r.value.1)
    decreases Remaining(doc, pending), 1, j, 1
  {
    var ty :- ValueTypeAt(j);
    var op :- NumberAt(j, FOp);
    var l :- ParseOperand(doc, vars, j, FLhs, env, pending);
    var r :- ParseOperand(doc, vars, j, FRhs, l.1, pending);
    Ok((Some(Binary(ty, op, l.0, r.0)), r.1))
  }

  function ParseAccess(
      doc: Doc, vars: seq<Variable>, j: Json, env: Env, pending: set<Key>): (r: Result<(Option<Expr>, Env)>)
    requires Sound(env)
    ensures r.Ok? ==> Sound(r.value.1)
    decreases Remaining(doc, pending), 1, j, 1
  {
    var ty :- ValueTypeAt(j);
    var x :- ParseOperand(doc, vars, j, FSelf, env, pending);
    var i :- ParseOperand(doc, vars, j, FIndex, x.1, pending);
    var made := MakeAccess(i.1.f, ty, x.0, i.0);
    Ok((Some(made.1), i.1.(f := made.0)))
  }

  function ParseLiteral(j: Json, env: Env): Result<(Option<Expr>, Env)> {
    var ty :- ValueTypeAt(j);
    var v :- At(j, FValue);
    var value :- ParseValue(ty, v);
    Ok((Some(Literal(ty, value)), env))
  }

  function ParseRef(vars: seq<Variable>, j: Json, env: Env): Result<(Option<Expr>, Env)> {
    var uid :- NumberAt(j, FVariable);
    if uid >= |vars| then Err("Out of range") else Ok((Some(Ref(vars[uid])), env))
  }

  function ParseConstant(doc: Doc, j: Json, env: Env): Result<(Option<Expr>, Env)> {
    var ty :- ValueTypeAt(j);
    var key :- HashAt(j, FKey);
    if key !in doc.constants then Err("Key not found") else
      var made :- MakeConstant(env.f, ty, key);
      Ok((Some(made.1), env.(f := made.0)))
  }

  function ParseCast(
      doc: Doc, vars: seq<Variable>, j: Json, env: Env, pending: set<Key>): (r: Result<(Option<Expr>, Env)>)
    requires Sound(env)
    ensures r.Ok? ==> Sound(r.value.1)
    decreases Remaining(doc, pending), 1, j, 1
  {
    var ty :- ValueTypeAt(j);
    var x :- ParseOperand(doc, vars, j, FOperand, env, pending);
    var op :- WordAt(j, FOp);
    Ok((Some(Cast(ty, op != WStatic, x.0)), x.1))
  }

  function ParseMember(
      doc: Doc, vars: seq<Variable>, j: Json, env: Env, pending: set<Key>): (r: Result<(Option<Expr>, Env)>)
    requires Sound(env)
    ensures r.Ok? ==> Sound(r.value.1)
    decreases Remaining(doc, pending), 1, j, 1
  {
    var ty :- ValueTypeAt(j);
    var x :- ParseOperand(doc, vars, j, FSelf, env, pending);
    if At(j, FIndex).Ok? then
      var i :- NumberAt(j, FIndex);
      Ok((Some(Member(ty, x.0, Wrap32(i))), x.1))
    else
      var s :- At(j, FSwizzle);
      if !s.JArray? || |s.items| < 2 || !s.items[0].JNumber? || !s.items[1].JNumber? then Err("Array expected") else
        var made :- MakeSwizzle(ty, x.0, Wrap32(s.items[0].n), Wrap32(s.items[1].n));
        Ok((Some(made), x.1))
  }

  /** An expression that another one needs: a null pointer would be followed. */
  function ParseOperand(
      doc: Doc, vars: seq<Variable>, j: Json, field: Field, env: Env, pending: set<Key>): (r: Result<(Expr, Env)>)
    requires Sound(env)
    ensures r.Ok? ==> Sound(r.value.1)
    decreases Remaining(doc, pending), 1, j, 0
  {
    var o :- At(j, field);
    var x :- ParseExpr(doc, vars, o, env, pending);
    if x.0.None? then Err("Null operand") else Ok((x.0.value, x.1))
  }

  /** The first n expressions of an array. */
  function ParseExprs(
      doc: Doc, vars: seq<Variable>, j: Json, n: nat, env: Env, pending: set<Key>): (r: Result<(seq<Expr>, Env)>)
    requires Sound(env)
    requires j.JArray? && n <= |j.items|
    ensures r.Ok? ==> Sound(r.value.1)
    decreases Remaining(doc, pending), 1, j, n
  {
    if n == 0 then Ok(([], env)) else
      var front :- ParseExprs(doc, vars, j, n - 1, env, pending);
      var x :- ParseExpr(doc, vars, j.items[n - 1], front.1, pending);
      if x.0.None? then Err("Null operand") else Ok((front.0 + [x.0.value], x.1))
  }

  function ParseCall(
      doc: Doc, vars: seq<Variable>, j: Json, env: Env, pending: set<Key>): (r: Result<(Option<Expr>, Env)>)
    requires Sound(env)
    ensures r.Ok? ==> Sound(r.value.1)
    decreases Remaining(doc, pending), 1, j, 1
  {
    var ty :- TypeAt(j);
    var a :- At(j, FArguments);
    if !a.JArray? then Err("Array expected") else
      var args :- ParseExprs(doc, vars, a, |a.items|, env, pending);
      if At(j, FOp).Ok? then
        var op :- NumberAt(j, FOp);
        var made :- CallBuiltin(args.1.f, ty, op, args.0);
        Ok((made.0, args.1.(f := made.1)))
      else
        var key :- HashAt(j, FCustom);
        ParseCustom(doc, ty, key, args.0, args.1, pending, j)
  }

  function ParseCustom(
      doc: Doc, ty: Option<Type>, key: Key, args: seq<Expr>, env: Env, pending: set<Key>, ghost j: Json)
      : (r: Result<(Option<Expr>, Env)>)
    requires Sound(env)
    ensures r.Ok? ==> Sound(r.value.1)
    decreases Remaining(doc, pending), 1, j, 0
  {
    var parsed :- ParseFunction(doc, key, env.parsed, pending);
    var made :- CallCustom(env.f, ty, key, parsed[key], args);
    Ok((made.0, Env(made.1, parsed)))
  }

  // ----- Statements -----

  function ParseStmt(doc: Doc, vars: seq<Variable>, j: Json, env: Env, pending: set<Key>): (r: Result<Env>)
    requires Sound(env)
    ensures r.Ok? ==> Sound(r.value)
    decreases Remaining(doc, pending), 1, j, 2
  {
    var tag :- WordAt(j, FTag);
    match tag
    case WBreak => Ok(Add(env, Break))
    case WContinue => Ok(Add(env, Continue))
    case WReturn => ParseReturn(doc, vars, j, env, pending)
    case WIf => ParseIf(doc, vars, j, env, pending)
    case WLoop => ParseLoop(doc, vars, j, env, pending)
    case WExpr => ParseExprStmt(doc, vars, j, env, pending)
    case WSwitch => ParseSwitch(doc, vars, j, env, pending)
    case WCase => ParseCase(doc, vars, j, env, pending)
    case WDefault => ParseDefault(doc, vars, j, env, pending)
    case WAssign => ParseAssign(doc, vars, j, env, pending)
    case WFor => ParseFor(doc, vars, j, env, pending)
    case WComment => ParseComment(j, env)
    case _ => Err("Unknown tag")
  }

  function ParseReturn(doc: Doc, vars: seq<Variable>, j: Json, env: Env, pending: set<Key>): (r: Result<Env>)
    requires Sound(env)
    ensures r.Ok? ==> Sound(r.value)
    decreases Remaining(doc, pending), 1, j, 1
  {
    if At(j, FValue).Ok? then
      var x :- ParseOperand(doc, vars, j, FValue, env, pending);
      var f :- MakeReturn(x.1.f, Some(x.0));
      Ok(x.1.(f := f))
    else
      var f :- MakeReturn(env.f, None);
      Ok(env.(f := f))
  }

  function ParseIf(doc: Doc, vars: seq<Variable>, j: Json, env: Env, pending: set<Key>): (r: Result<Env>)
    requires Sound(env)
    ensures r.Ok? ==> Sound(r.value)
    decreases Remaining(doc, pending), 1, j, 1
  {
    var c :- ParseOperand(doc, vars, j, FCondition, env, pending);
    var t :- ParseScope(doc, vars, j, FTrue, c.1, pending);
    var e :- ParseScope(doc, vars, j, FFalse, t.1, pending);
    Ok(Add(e.1, If(c.0, t.0, e.0)))
  }

  function ParseLoop(doc: Doc, vars: seq<Variable>, j: Json, env: Env, pending: set<Key>): (r: Result<Env>)
    requires Sound(env)
    ensures r.Ok? ==> Sound(r.value)
    decreases Remaining(doc, pending), 1, j, 1
  {
    var b :- ParseScope(doc, vars, j, FBody, env, pending);
    Ok(Add(b.1, Loop(b.0)))
  }

  function ParseExprStmt(doc: Doc, vars: seq<Variable>, j: Json, env: Env, pending: set<Key>): (r: Result<Env>)
    requires Sound(env)
    ensures r.Ok? ==> Sound(r.value)
    decreases Remaining(doc, pending), 1, j, 1
  {
    var o :- At(j, FExpression);
    var x :- ParseExpr(doc, vars, o, env, pending);
    Ok(if x.0.Some? then Add(x.1, ExprStmt(x.0.value)) else x.1)
  }

  function ParseSwitch(doc: Doc, vars: seq<Variable>, j: Json, env: Env, pending: set<Key>): (r: Result<Env>)
    requires Sound(env)
    ensures r.Ok? ==> Sound(r.value)
    decreases Remaining(doc, pending), 1, j, 1
  {
    var x :- ParseOperand(doc, vars, j, FExpression, env, pending);
    var b :- ParseScope(doc, vars, j, FBody, x.1, pending);
    Ok(Add(b.1, Switch(x.0, b.0)))
  }

  function ParseCase(doc: Doc, vars: seq<Variable>, j: Json, env: Env, pending: set<Key>): (r: Result<Env>)
    requires Sound(env)
    ensures r.Ok? ==> Sound(r.value)
    decreases Remaining(doc, pending), 1, j, 1
  {
    var x :- ParseOperand(doc, vars, j, FValue, env, pending);
    var b :- ParseScope(doc, vars, j, FBody, x.1, pending);
    Ok(Add(b.1, Case(x.0, b.0)))
  }

  function ParseDefault(doc: Doc, vars: seq<Variable>, j: Json, env: Env, pending: set<Key>): (r: Result<Env>)
    requires Sound(env)
    ensures r.Ok? ==> Sound(r.value)
    decreases Remaining(doc, pending), 1, j, 1
  {
    var b :- ParseScope(doc, vars, j, FBody, env, pending);
    Ok(Add(b.1, Default(b.0)))
  }

  function ParseAssign(doc: Doc, vars: seq<Variable>, j: Json, env: Env, pending: set<Key>): (r: Result<Env>)
    requires Sound(env)
    ensures r.Ok? ==> Sound(r.value)
    decreases Remaining(doc, pending), 1, j, 1
  {
    var l :- ParseOperand(doc, vars, j, FLhs, env, pending);
    var r :- ParseOperand(doc, vars, j, FRhs, l.1, pending);
    Ok(Add(r.1, Assign(l.0, r.0)))
  }

  function ParseFor(doc: Doc, vars: seq<Variable>, j: Json, env: Env, pending: set<Key>): (r: Result<Env>)
    requires Sound(env)
    ensures r.Ok? ==> Sound(r.value)
    decreases Remaining(doc, pending), 1, j, 1
  {
    var v :- ParseOperand(doc, vars, j, FVariable, env, pending);
    var c :- ParseOperand(doc, vars, j, FCondition, v.1, pending);
    var s :- ParseOperand(doc, vars, j, FStep, c.1, pending);
    var b :- ParseScope(doc, vars, j, FBody, s.1, pending);
    Ok(Add(b.1, For(v.0, c.0, s.0, b.0)))
  }

  function ParseComment(j: Json, env: Env): Result<Env> {
    var t :- At(j, FString);
    if t.JText? then Ok(Add(env, Comment(t.text))) else Err("String expected")
  }

  function Add(env: Env, s: Stmt): Env {
    env.(f := Append(env.f, s))
  }

  /** The statements built with a nested scope on top of the scope stack. */
  function ParseScope(
      doc: Doc, vars: seq<Variable>, j: Json, field: Field, env: Env, pending: set<Key>): (r: Result<(seq<Stmt>, Env)>)
    requires Sound(env)
    ensures r.Ok? ==> Sound(r.value.1)
    decreases Remaining(doc, pending), 1, j, 0
  {
    var s :- At(j, field);
    var items :- At(s, FStatements);
    if !items.JArray? then Err("Array expected") else
      var inner :- ParseStmts(doc, vars, items, |items.items|, env.(f := env.f.(body := [])), pending);
      Ok((inner.f.body, inner.(f := inner.f.(body := env.f.body))))
  }

  /** The first n statements of an array. */
  function ParseStmts(doc: Doc, vars: seq<Variable>, j: Json, n: nat, env: Env, pending: set<Key>): (r: Result<Env>)
    requires Sound(env)
    requires j.JArray? && n <= |j.items|
    ensures r.Ok? ==> Sound(r.value)
    decreases Remaining(doc, pending), 1, j, n
  {
    if n == 0 then Ok(env) else
      var front :- ParseStmts(doc, vars, j, n - 1, env, pending);
      ParseStmt(doc, vars, j.items[n - 1], front, pending)
  }

  // ----- Functions -----

  function ParseBinding(word: Word, j: Json): Result<Binding> {
    var h :- HashAt(j, FHandle);
    match word
    case WBuffer =>
      var o :- NumberAt(j, FOffset);
      var n :- NumberAt(j, FSize);
      Ok(BufferBinding(h, o, n))
    case WTexture =>
      var l :- NumberAt(j, FLevel);
      Ok(TextureBinding(h, Wrap32(l)))
    case WBindlessArray => Ok(BindlessArrayBinding(h))
    case _ => Ok(AccelBinding(h))
  }

  function ResourceOf(word: Word): Tag {
    match word
    case WBuffer => BufferTag
    case WTexture => TextureTag
    case WBindlessArray => BindlessArrayTag
    case _ => AccelTag
  }

  function ParseVariable(f: Function, j: Json): (r: Result<(Function, Variable)>)
    requires |f.arguments| == |f.bindings|
    ensures r.Ok? ==> |r.value.0.arguments| == |r.value.0.bindings|
  {
    var word :- WordAt(j, FTag);
    var ty :- ValueTypeAt(j);
    match word
    case WThreadId => Ok(Functions.Builtin(f, ThreadId))
    case WBlockId => Ok(Functions.Builtin(f, BlockId))
    case WDispatchId => Ok(Functions.Builtin(f, DispatchId))
    case WDispatchSize => Ok(Functions.Builtin(f, DispatchSize))
    case WReference => Ok(Argument(f, ty, Reference, NoBinding))
    case WArgument => Ok(Argument(f, ty, Ast.Local, NoBinding))
    case WShared => Ok(Functions.Shared(f, ty))
    case WBuffer => ParseResource(f, j, word, ty)
    case WTexture => ParseResource(f, j, word, ty)
    case WBindlessArray => ParseResource(f, j, word, ty)
    case WAccel => ParseResource(f, j, word, ty)
    case _ => Ok(Functions.Local(f, ty))
  }

  function ParseResource(f: Function, j: Json, word: Word, ty: Type): (r: Result<(Function, Variable)>)
    requires |f.arguments| == |f.bindings|
    ensures r.Ok? ==> |r.value.0.arguments| == |r.value.0.bindings|
  {
    if At(j, FBinding).Ok? then
      var binding :- ParseBinding(word, At(j, FBinding).value);
      Ok(Bind(f, ty, binding))
    else
      Ok(Argument(f, if word == WBindlessArray then BindlessArray else if word == WAccel then Accel else ty,
                  ResourceOf(word), NoBinding))
  }

  /** The first n variables, created in order. */
  function ParseVariables(f: Function, js: seq<Json>, n: nat): (r: Result<(Function, seq<Variable>)>)
    requires |f.arguments| == |f.bindings| && n <= |js|
    ensures r.Ok? ==> |r.value.0.arguments| == |r.value.0.bindings|
  {
    if n == 0 then Ok((f, [])) else
      var front :- ParseVariables(f, js, n - 1);
      var v :- ParseVariable(front.0, js[n - 1]);
      Ok((v.0, front.1 + [v.1]))
  }

  function ParseBlockSize(j: Json): Result<(nat, nat, nat)> {
    var b :- At(j, FBlockSize);
    if b.JArray? && |b.items| >= 3 && b.items[0].JNumber? && b.items[1].JNumber? && b.items[2].JNumber?
    then Ok((b.items[0].n, b.items[1].n, b.items[2].n))
    else Err("Array expected")
  }

  /** Kernel definitions cannot be nested. */
  function StartFunction(j: Json, nested: bool): Result<Function> {
    var tag :- WordAt(j, FTag);
    if tag == WKernel then
      if nested then Err("Kernel definitions cannot be nested.") else
        var size :- ParseBlockSize(j);
        Ok(NewFunction(true).(blockSize := size))
    else
      Ok(NewFunction(false))
  }

  function ParseFunction(
      doc: Doc, key: Key, parsed: map<Key, Function>, pending: set<Key>): (r: Result<map<Key, Function>>)
    requires Finished(parsed)
    ensures r.Ok? ==> Finished(r.value) && key in r.value
    decreases Remaining(doc, pending), 0, JNumber(0), 0
  {
    if key in parsed then Ok(parsed)
    else if key !in doc.functions then Err("Key not found")
    else if key in pending then Err("Endless recursion")
    else
      RemainingShrinks(doc, pending, key);
      var done :- Define(doc, doc.functions[key], parsed, pending + {key}, pending != {});
      OneMoreFinished(done, key);
      Ok(done.parsed[key := done.f])
  }

  lemma OneMoreFinished(done: Env, key: Key)
    requires Sound(done)
    ensures Finished(done.parsed[key := done.f])
  {
  }

  /** define_kernel or define_callable. */
  function Define(doc: Doc, j: Json, parsed: map<Key, Function>, pending: set<Key>, nested: bool): (r: Result<Env>)
    requires Finished(parsed)
    ensures r.Ok? ==> Sound(r.value)
    decreases Remaining(doc, pending), 2, j, 0
  {
    var start :- StartFunction(j, nested);
    var variables :- At(j, FVariables);
    if !variables.JArray? then Err("Array expected") else
      var vs :- ParseVariables(start, variables.items, |variables.items|);
      var done :- ParseScope(doc, vs.1, j, FBody, Env(vs.0, parsed), pending);
      var f :- Finish(done.1.f.(body := done.0));
      Ok(Env(f, done.1.parsed))
  }

  function FromJson(doc: Doc): Result<Function> {
    var parsed :- ParseFunction(doc, doc.entry, map[], {});
    Ok(parsed[doc.entry])
  }
}
