/**
 * The writing half of src/ast/function_serializer.cpp: expressions, statements and
 * functions as JSON.
 */
module FunctionDump {
  import opened Types
  import opened Ast
  import opened Functions

  // ----- JSON -----

  /** The keys of the JSON objects. */
  datatype Field =
    | FTag | FType | FOp | FOperand | FLhs | FRhs | FSelf | FSwizzle | FIndex | FValue | FVariable
    | FKey | FArguments | FCustom | FStatements | FCondition | FTrue | FFalse | FBody | FExpression
    | FStep | FString | FBlockSize | FVariables | FBinding | FHandle | FOffset | FSize | FLevel

  /** The words that "tag", and "op" of a cast, can hold. */
  datatype Word =
    | WUnary | WBinary | WMember | WAccess | WLiteral | WRef | WConstant | WCall | WCast
    | WStatic | WBitwise
    | WBreak | WContinue | WReturn | WScope | WIf | WLoop | WExpr | WSwitch | WCase | WDefault
    | WAssign | WFor | WComment
    | WKernel | WCallable
    | WThreadId | WBlockId | WDispatchId | WDispatchSize
    | WArgument | WReference | WBuffer | WTexture | WBindlessArray | WAccel | WShared | WLocal

  /** A hash is a 64-bit number written with 16 hexadecimal digits. */
  datatype Json =
    | JWord(word: Word)
    | JText(text: string)
    | JNumber(n: nat)
    | JScalar(kind: Kind, x: int)
    | JHash(hash: nat)
    | JArray(items: seq<Json>)
    | JObject(fields: map<Field, Json>)

  function At(j: Json, field: Field): (r: Result<Json>)
    ensures r.Ok? ==> j.JObject? && field in j.fields && r.value == j.fields[field]
  {
    if j.JObject? && field in j.fields then Ok(j.fields[field]) else Err("Key not found")
  }

  function NumberAt(j: Json, field: Field): Result<nat> {
    var v :- At(j, field);
    if v.JNumber? then Ok(v.n) else Err("Number expected")
  }

  function HashAt(j: Json, field: Field): Result<nat> {
    var v :- At(j, field);
    if v.JHash? then Ok(v.hash) else Err("Hash expected")
  }

  function WordAt(j: Json, field: Field): Result<Word> {
    var v :- At(j, field);
    if v.JWord? then Ok(v.word) else Err("Word expected")
  }

  // ----- Writing -----

  /** No type is written as "void". */
  function DumpType(ty: Option<Type>): Json {
    JText(if ty.None? then "void" else Print(ty.value))
  }

  function DumpValue(v: Value): Json {
    match v
    case ScalarValue(k, x) => JScalar(k, x)
    case VectorValue(k, xs) => JArray(DumpElements(k, xs))
    case MatrixValue(_, xs) => JArray(DumpElements(FloatKind, xs))
  }

  function DumpElements(k: Kind, xs: seq<int>): (js: seq<Json>)
    ensures |js| == |xs| && forall i | 0 <= i < |xs| :: js[i] == JScalar(k, xs[i])
  {
    if xs == [] then [] else [JScalar(k, xs[0])] + DumpElements(k, xs[1..])
  }

  function DumpExpr(e: Expr): Json
    decreases e, 0
  {
    match e
    case Unary(ty, op, x) => JObject(map[
      FTag := JWord(WUnary), FType := DumpType(Some(ty)), FOp := JNumber(op), FOperand := DumpExpr(x)])
    case Binary(ty, op, l, r) => JObject(map[
      FTag := JWord(WBinary), FType := DumpType(Some(ty)), FOp := JNumber(op),
      FLhs := DumpExpr(l), FRhs := DumpExpr(r)])
    case Member(ty, x, i) => JObject(map[
      FTag := JWord(WMember), FType := DumpType(Some(ty)), FSelf := DumpExpr(x), FIndex := JNumber(i)])
    case Swizzle(ty, x, n, c) => JObject(map[
      FTag := JWord(WMember), FType := DumpType(Some(ty)), FSelf := DumpExpr(x),
      FSwizzle := JArray([JNumber(n), JNumber(c)])])
    case Access(ty, r, i) => JObject(map[
      FTag := JWord(WAccess), FType := DumpType(Some(ty)), FSelf := DumpExpr(r), FIndex := DumpExpr(i)])
    case Literal(ty, v) => JObject(map[
      FTag := JWord(WLiteral), FType := DumpType(Some(ty)), FValue := DumpValue(v)])
    case Ref(v) => JObject(map[
      FTag := JWord(WRef), FType := DumpType(Some(v.ty)), FVariable := JNumber(v.uid)])
    case Constant(ty, k) => JObject(map[
      FTag := JWord(WConstant), FType := DumpType(Some(ty)), FKey := JHash(k)])
    case Call(ty, Builtin(op), args) => JObject(map[
      FTag := JWord(WCall), FType := DumpType(ty), FArguments := JArray(DumpExprs(args)), FOp := JNumber(op)])
    case Call(ty, Custom(k), args) => JObject(map[
      FTag := JWord(WCall), FType := DumpType(ty), FArguments := JArray(DumpExprs(args)), FCustom := JHash(k)])
    case Cast(ty, bitwise, x) => JObject(map[
      FTag := JWord(WCast), FType := DumpType(Some(ty)), FOp := JWord(if bitwise then WBitwise else WStatic),
      FOperand := DumpExpr(x)])
  }

  function DumpExprs(es: seq<Expr>): (js: seq<Json>)
    ensures |js| == |es|
    decreases es, 1
  {
    if es == [] then [] else [DumpExpr(es[0])] + DumpExprs(es[1..])
  }

  function DumpStmt(s: Stmt): Json
    decreases s, 0
  {
    match s
    case Break => JObject(map[FTag := JWord(WBreak)])
    case Continue => JObject(map[FTag := JWord(WContinue)])
    case Return(None) => JObject(map[FTag := JWord(WReturn)])
    case Return(Some(e)) => JObject(map[FTag := JWord(WReturn), FValue := DumpExpr(e)])
    case Scope(b) => DumpScope(b)
    case If(c, t, f) => JObject(map[
      FTag := JWord(WIf), FCondition := DumpExpr(c), FTrue := DumpScope(t), FFalse := DumpScope(f)])
    case Loop(b) => JObject(map[FTag := JWord(WLoop), FBody := DumpScope(b)])
    case ExprStmt(e) => JObject(map[FTag := JWord(WExpr), FExpression := DumpExpr(e)])
    case Switch(e, b) => JObject(map[
      FTag := JWord(WSwitch), FExpression := DumpExpr(e), FBody := DumpScope(b)])
    case Case(e, b) => JObject(map[FTag := JWord(WCase), FValue := DumpExpr(e), FBody := DumpScope(b)])
    case Default(b) => JObject(map[FTag := JWord(WDefault), FBody := DumpScope(b)])
    case Assign(l, r) => JObject(map[FTag := JWord(WAssign), FLhs := DumpExpr(l), FRhs := DumpExpr(r)])
    case For(v, c, st, b) => JObject(map[
      FTag := JWord(WFor), FVariable := DumpExpr(v), FCondition := DumpExpr(c), FStep := DumpExpr(st),
      FBody := DumpScope(b)])
    case Comment(t) => JObject(map[FTag := JWord(WComment), FString := JText(t)])
  }

  function DumpScope(body: seq<Stmt>): Json
    decreases body, 2
  {
    JObject(map[FTag := JWord(WScope), FStatements := JArray(DumpStmts(body))])
  }

  function DumpStmts(body: seq<Stmt>): (js: seq<Json>)
    ensures |js| == |body|
    decreases body, 1
  {
    if body == [] then [] else [DumpStmt(body[0])] + DumpStmts(body[1..])
  }

  // ----- Variables -----

  /** `emplace`: keys that are present keep their values. */
  function Emplace(j: Json, fields: map<Field, Json>): Json {
    if j.JObject? then JObject(fields + j.fields) else j
  }

  function EmplaceAt(vars: seq<Json>, uid: nat, fields: map<Field, Json>): (r: seq<Json>)
    ensures |r| == |vars|
  {
    if uid < |vars| then vars[uid := Emplace(vars[uid], fields)] else vars
  }

  function BuiltinWord(tag: Tag): Word {
    match tag
    case ThreadId => WThreadId
    case BlockId => WBlockId
    case DispatchId => WDispatchId
    case _ => WDispatchSize
  }

  function DumpBuiltin(kernel: bool, v: Variable): map<Field, Json> {
    map[FType := DumpType(Some(UINT3)), FTag := JWord(if kernel then BuiltinWord(v.tag) else WArgument)]
  }

  function ArgumentWord(tag: Tag): Word {
    match tag
    case Reference => WReference
    case BufferTag => WBuffer
    case TextureTag => WTexture
    case BindlessArrayTag => WBindlessArray
    case AccelTag => WAccel
    case _ => WArgument
  }

  function DumpBinding(b: Binding): Json {
    match b
    case NoBinding => JObject(map[])
    case BufferBinding(h, o, n) => JObject(map[FHandle := JHash(h), FOffset := JNumber(o), FSize := JNumber(n)])
    case TextureBinding(h, l) => JObject(map[FHandle := JHash(h), FLevel := JNumber(l)])
    case BindlessArrayBinding(h) => JObject(map[FHandle := JHash(h)])
    case AccelBinding(h) => JObject(map[FHandle := JHash(h)])
  }

  /** Only kernels keep their bindings, each under a variable of its own kind. */
  predicate KeepsBinding(kernel: bool, v: Variable, b: Binding) {
    kernel && !b.NoBinding? && ResourceTag(b) == v.tag
  }

  function DumpArgument(kernel: bool, v: Variable, b: Binding): map<Field, Json> {
    var fields := map[FType := DumpType(Some(v.ty)), FTag := JWord(ArgumentWord(v.tag))];
    if KeepsBinding(kernel, v, b) then fields[FBinding := DumpBinding(b)] else fields
  }

  function DumpPlain(v: Variable, word: Word): map<Field, Json> {
    map[FTag := JWord(word), FType := DumpType(Some(v.ty))]
  }

  function AddBuiltins(vars: seq<Json>, kernel: bool, vs: seq<Variable>): (r: seq<Json>)
    ensures |r| == |vars|
    decreases |vs|
  {
    if vs == [] then vars else AddBuiltins(EmplaceAt(vars, vs[0].uid, DumpBuiltin(kernel, vs[0])), kernel, vs[1..])
  }

  function AddArguments(vars: seq<Json>, kernel: bool, vs: seq<Variable>, bs: seq<Binding>): (r: seq<Json>)
    requires |vs| == |bs|
    ensures |r| == |vars|
    decreases |vs|
  {
    if vs == [] then vars
    else AddArguments(EmplaceAt(vars, vs[0].uid, DumpArgument(kernel, vs[0], bs[0])), kernel, vs[1..], bs[1..])
  }

  function AddPlain(vars: seq<Json>, vs: seq<Variable>, word: Word): (r: seq<Json>)
    ensures |r| == |vars|
    decreases |vs|
  {
    if vs == [] then vars else AddPlain(EmplaceAt(vars, vs[0].uid, DumpPlain(vs[0], word)), vs[1..], word)
  }

  function NoVariables(n: nat): (r: seq<Json>)
    ensures |r| == n && forall i | 0 <= i < n :: r[i] == JObject(map[])
  {
    seq(n, i => JObject(map[]))
  }

  function DumpVariables(f: Function): (r: seq<Json>)
    requires |f.arguments| == |f.bindings|
    ensures |r| == f.count
  {
    AddPlain(
      AddPlain(
        AddArguments(
          AddBuiltins(NoVariables(f.count), f.kernel, f.builtins),
          f.kernel, f.arguments, f.bindings),
        f.shareds, WShared),
      f.locals, WLocal)
  }

  function DumpFunction(f: Function): Json
    requires |f.arguments| == |f.bindings|
  {
    var fields := map[
      FTag := JWord(if f.kernel then WKernel else WCallable),
      FVariables := JArray(DumpVariables(f)),
      FBody := DumpScope(f.body)];
    JObject(if f.kernel
            then fields[FBlockSize := JArray([JNumber(f.blockSize.0), JNumber(f.blockSize.1), JNumber(f.blockSize.2)])]
            else fields)
  }
}
