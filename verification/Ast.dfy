/** Expressions and statements of src/ast/expression.h and src/ast/statement.h. */
module Ast {

  import opened Types

  type Type = Ty

  datatype Tag =
    | Local | Shared | Reference
    | BufferTag | TextureTag | BindlessArrayTag | AccelTag
    | ThreadId | BlockId | DispatchId | DispatchSize

  datatype Variable = Variable(ty: Type, tag: Tag, uid: nat)

  /** Functions and constants are identified with their hashes. */
  type Key = nat

  datatype Callee = Builtin(op: nat) | Custom(key: Key)

  datatype Kind = BoolKind | FloatKind | IntKind | UintKind

  /** The value of a literal; a float is the integer with the same bits. */
  datatype Value =
    | ScalarValue(kind: Kind, x: int)
    | VectorValue(kind: Kind, xs: seq<int>)
    | MatrixValue(dim: nat, xs: seq<int>)

  datatype Expr =
    | Unary(ty: Type, op: nat, operand: Expr)
    | Binary(ty: Type, op: nat, lhs: Expr, rhs: Expr)
    | Member(ty: Type, self: Expr, member: nat)
    | Swizzle(ty: Type, self: Expr, size: nat, code: nat)
    | Access(ty: Type, range: Expr, index: Expr)
    | Literal(ty: Type, value: Value)
    | Ref(variable: Variable)
    | Constant(ty: Type, key: Key)
    | Call(result: Option<Type>, callee: Callee, arguments: seq<Expr>)
    | Cast(ty: Type, bitwise: bool, operand: Expr)

  datatype Stmt =
    | Break
    | Continue
    | Return(value: Option<Expr>)
    | Scope(body: seq<Stmt>)
    | If(cond: Expr, onTrue: seq<Stmt>, onFalse: seq<Stmt>)
    | Loop(body: seq<Stmt>)
    | ExprStmt(expr: Expr)
    | Switch(expr: Expr, body: seq<Stmt>)
    | Case(expr: Expr, body: seq<Stmt>)
    | Default(body: seq<Stmt>)
    | Assign(lhs: Expr, rhs: Expr)
    | For(variable: Expr, cond: Expr, step: Expr, body: seq<Stmt>)
    | Comment(text: string)

  /** The operands of an expression, in the order in which visitors reach them. */
  function Operands(e: Expr): seq<Expr> {
    match e
    case Unary(_, _, x) => [x]
    case Binary(_, _, l, r) => [l, r]
    case Member(_, x, _) => [x]
    case Swizzle(_, x, _, _) => [x]
    case Access(_, r, i) => [r, i]
    case Literal(_, _) => []
    case Ref(_) => []
    case Constant(_, _) => []
    case Call(_, _, args) => args
    case Cast(_, _, x) => [x]
  }

  /** The expressions a statement evaluates itself, in the order in which visitors reach them. */
  function Exprs(s: Stmt): seq<Expr> {
    match s
    case Break => []
    case Continue => []
    case Return(v) => if v.Some? then [v.value] else []
    case Scope(_) => []
    case If(c, _, _) => [c]
    case Loop(_) => []
    case ExprStmt(e) => [e]
    case Switch(e, _) => [e]
    case Case(e, _) => [e]
    case Default(_) => []
    case Assign(l, r) => [l, r]
    case For(v, c, st, _) => [v, c, st]
    case Comment(_) => []
  }

  /** The scopes nested directly in a statement. */
  function Bodies(s: Stmt): (bs: seq<seq<Stmt>>)
    ensures |bs| <= 2
  {
    match s
    case Break => []
    case Continue => []
    case Return(_) => []
    case Scope(b) => [b]
    case If(_, t, f) => [t, f]
    case Loop(b) => [b]
    case ExprStmt(_) => []
    case Switch(_, b) => [b]
    case Case(_, b) => [b]
    case Default(b) => [b]
    case Assign(_, _) => []
    case For(_, _, _, b) => [b]
    case Comment(_) => []
  }

  function ExprSize(e: Expr): nat
    decreases e, 0
  {
    match e
    case Unary(_, _, x) => 1 + ExprSize(x)
    case Binary(_, _, l, r) => 1 + ExprSize(l) + ExprSize(r)
    case Member(_, x, _) => 1 + ExprSize(x)
    case Swizzle(_, x, _, _) => 1 + ExprSize(x)
    case Access(_, r, i) => 1 + ExprSize(r) + ExprSize(i)
    case Literal(_, _) => 1
    case Ref(_) => 1
    case Constant(_, _) => 1
    case Call(_, _, args) => 1 + ExprsSize(args)
    case Cast(_, _, x) => 1 + ExprSize(x)
  }

  function ExprsSize(es: seq<Expr>): nat
    decreases es, 1
  {
    if es == [] then 0 else ExprSize(es[0]) + ExprsSize(es[1..])
  }

  function StmtSize(s: Stmt): nat
    decreases s, 0
  {
    match s
    case Scope(b) => 1 + BodySize(b)
    case If(_, t, f) => 1 + BodySize(t) + BodySize(f)
    case Loop(b) => 1 + BodySize(b)
    case Switch(_, b) => 1 + BodySize(b)
    case Case(_, b) => 1 + BodySize(b)
    case Default(b) => 1 + BodySize(b)
    case For(_, _, _, b) => 1 + BodySize(b)
    case _ => 1
  }

  function BodySize(body: seq<Stmt>): nat
    decreases body, 1
  {
    if body == [] then 0 else StmtSize(body[0]) + BodySize(body[1..])
  }

  lemma {:induction false} ElementSize(es: seq<Expr>, i: nat)
    requires i < |es|
    ensures ExprSize(es[i]) <= ExprsSize(es)
  {
    if i > 0 {
      ElementSize(es[1..], i - 1);
    }
  }

  lemma OperandSmaller(e: Expr, i: nat)
    requires i < |Operands(e)|
    ensures ExprSize(Operands(e)[i]) < ExprSize(e)
  {
    if e.Call? {
      ElementSize(e.arguments, i);
    }
  }

  lemma {:induction false} StmtInBody(body: seq<Stmt>, i: nat)
    requires i < |body|
    ensures StmtSize(body[i]) <= BodySize(body)
  {
    if i > 0 {
      StmtInBody(body[1..], i - 1);
    }
  }

  lemma NestedSmaller(s: Stmt, b: nat)
    requires b < |Bodies(s)|
    ensures BodySize(Bodies(s)[b]) < StmtSize(s)
  {
  }
}
