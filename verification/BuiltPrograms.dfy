/**
 * From building primitives to the round trip: the functions of a library, built one after
 * another through src/ast/function_builder.cpp, form a program that is read back from JSON.
 */
module BuiltPrograms {
  import opened Integers
  import opened Types
  import opened Ast
  import opened Functions
  import opened RoundTrip
  import opened Declarations
  import opened Serializer
  import Bodies
  import B = Building

  /** A function's key and rank are its position: it calls only functions before it. */
  function ProgramOf(lib: B.Library): Program {
    var functions := map k: nat | k < |lib| :: lib[k];
    Program(functions, map k | k in functions :: k)
  }

  // ----- What bodies are made of -----

  predicate HasVariable(f: Function, v: Variable) {
    v in f.builtins || v in f.arguments || v in f.locals || v in f.shareds
  }

  /** The i-th primitive is a call of function k and has placed these arguments. */
  predicate PlacedBy(lib: B.Library, def: B.Definition, i: nat, k: Key, args: seq<Expr>)
    requires B.Sound(lib)
  {
    && i < |def.ops|
    && def.ops[i].CallFunction? && def.ops[i].callee == k && k < |lib|
    && var f := B.Run(lib, def.kernel, def.ops[..i]);
       f.Ok? && var placed := Place(f.value, lib[k], 0, def.ops[i].args);
                placed.Ok? && args == placed.value.0
  }

  /**
   * An expression in the body of f, which was finished with the functions of `lib`: the calls
   * come from the definition's primitives, and variables are those that the builder handed out.
   */
  ghost predicate ExprMade(lib: B.Library, def: B.Definition, f: Function, e: Expr)
    requires B.Sound(lib)
    decreases e, 0
  {
    match e
    case Unary(ty, _, x) => Valid(ty) && OperandMade(lib, def, f, x)
    case Binary(ty, _, l, r) => Valid(ty) && OperandMade(lib, def, f, l) && OperandMade(lib, def, f, r)
    case Member(ty, x, i) => Valid(ty) && OperandMade(lib, def, f, x) && i < UINT
    case Swizzle(ty, x, n, c) =>
      Valid(ty) && OperandMade(lib, def, f, x) && 1 <= n <= 4 && c < UINT && !x.Literal?
    case Access(ty, r, i) =>
      Valid(ty) && OperandMade(lib, def, f, r) && OperandMade(lib, def, f, i) && !r.Literal?
    case Literal(ty, v) => Valid(ty) && ValueFits(ty, v)
    case Ref(v) => HasVariable(f, v)
    case Constant(ty, _) => Valid(ty) && ty.Array?
    case Call(ty, Builtin(op), args) =>
      && (ty.Some? ==> Valid(ty.value))
      && op in B.Marked(def.ops)
      && forall j | 0 <= j < |args| :: OperandMade(lib, def, f, args[j])
    case Call(ty, Custom(k), args) =>
      && (ty.Some? ==> Valid(ty.value))
      && (exists i :: PlacedBy(lib, def, i, k, args))
      && forall j | 0 <= j < |args| :: ExplicitAt(lib, k, j) ==> OperandMade(lib, def, f, args[j])
    case Cast(ty, _, x) => Valid(ty) && OperandMade(lib, def, f, x)
  }

  ghost predicate OperandMade(lib: B.Library, def: B.Definition, f: Function, e: Expr)
    requires B.Sound(lib)
    decreases e, 1
  {
    ExprMade(lib, def, f, e) && !IsVoidCall(e)
  }

  /** The caller wrote this argument itself. */
  predicate ExplicitAt(lib: B.Library, k: Key, j: nat)
    requires B.Sound(lib)
  {
    k < |lib| && j < |lib[k].arguments| && B.Explicit(lib[k], j)
  }

  ghost predicate StmtMade(lib: B.Library, def: B.Definition, f: Function, s: Stmt)
    requires B.Sound(lib)
    decreases s, 0
  {
    match s
    case Break => true
    case Continue => true
    case Return(None) => f.returnType == None
    case Return(Some(e)) => OperandMade(lib, def, f, e) && !f.kernel && f.returnType == TypeOf(e)
    case Scope(_) => false
    case If(c, t, e) => OperandMade(lib, def, f, c) && BodyMade(lib, def, f, t) && BodyMade(lib, def, f, e)
    case Loop(b) => BodyMade(lib, def, f, b)
    case ExprStmt(e) => ExprMade(lib, def, f, e)
    case Switch(e, b) => OperandMade(lib, def, f, e) && BodyMade(lib, def, f, b)
    case Case(e, b) => OperandMade(lib, def, f, e) && BodyMade(lib, def, f, b)
    case Default(b) => BodyMade(lib, def, f, b)
    case Assign(l, r) => OperandMade(lib, def, f, l) && OperandMade(lib, def, f, r)
    case For(v, c, st, b) =>
      && OperandMade(lib, def, f, v) && OperandMade(lib, def, f, c) && OperandMade(lib, def, f, st)
      && BodyMade(lib, def, f, b)
    case Comment(_) => true
  }

  ghost predicate BodyMade(lib: B.Library, def: B.Definition, f: Function, body: seq<Stmt>)
    requires B.Sound(lib)
    decreases body, 1
  {
    forall i | 0 <= i < |body| :: StmtMade(lib, def, f, body[i])
  }

  /** The definition ended, and its body holds what was made. */
  ghost predicate Ended(lib: B.Library, def: B.Definition, f: Function)
    requires B.Sound(lib)
  {
    && (forall i | 0 <= i < |def.ops| :: ProperOp(def.ops[i]))
    && BodyMade(lib, def, f, f.body)
    && (f.returnType.Some? <==> SomeReturnsValue(f.body))
    && Finish(f).Ok?
  }

  ghost predicate AllEnded(lib: B.Library, defs: seq<B.Definition>)
    requires B.IsLibrary(lib, defs)
  {
    forall n | 0 <= n < |lib| :: EndedAt(lib, defs, n)
  }

  ghost predicate EndedAt(lib: B.Library, defs: seq<B.Definition>, n: nat)
    requires B.IsLibrary(lib, defs) && n < |lib|
  {
    Ended(lib[..n], defs[n], lib[n])
  }

  // ----- Primitives extend the function -----

  predicate Wider(f: Function, g: Function) {
    && |f.arguments| == |f.bindings| && |g.arguments| == |g.bindings|
    && B.Extends(f, g) && f.kernel == g.kernel && (!f.kernel ==> f.blockSize == g.blockSize)
  }

  lemma CallWidens(lib: B.Library, f: Function, ty: Option<Type>, k: Key, args: seq<Expr>)
    requires B.Sound(lib) && |f.arguments| == |f.bindings| && k < |lib|
    requires CallCustom(f, ty, k, lib[k], args).Ok?
    ensures Wider(f, CallCustom(f, ty, k, lib[k], args).value.1)
  {
    B.CallIsPlaced(f, ty, k, lib[k], args);
    Bodies.PlaceKeepsBody(f, lib[k], 0, args);
    hide Place, CallCustom, B.PlacedAt, B.ExplicitBefore, B.SameKey;
  }

  lemma DoWidens(lib: B.Library, f: Function, op: B.Op)
    requires B.Sound(lib) && |f.arguments| == |f.bindings| && B.Do(lib, f, op).Ok?
    ensures Wider(f, B.Do(lib, f, op).value)
  {
    hide CallCustom, Bind, Functions.Builtin;
    match op
    case MakeBinding(ty, b) =>
      B.BindExtends(f, ty, b);
      BindKeepsBlock(f, ty, b);
    case MakeBuiltin(tag) =>
      B.BuiltinExtends(f, tag);
      BuiltinKeepsBlock(f, tag);
    case CallFunction(ty, k, args) => CallWidens(lib, f, ty, k, args);
    case _ =>
  }

  lemma BindKeepsBlock(f: Function, ty: Type, b: Binding)
    requires |f.arguments| == |f.bindings|
    ensures var g := Bind(f, ty, b).0; g.blockSize == f.blockSize && g.kernel == f.kernel
  {
  }

  lemma BuiltinKeepsBlock(f: Function, tag: Tag)
    ensures var g := Functions.Builtin(f, tag).0; g.blockSize == f.blockSize && g.kernel == f.kernel
  {
  }

  lemma WiderTwice(f: Function, g: Function, h: Function)
    requires Wider(f, g) && Wider(g, h)
    ensures Wider(f, h)
  {
    B.ExtendsTwice(f, g, h);
  }

  lemma {:induction false} RunWidens(lib: B.Library, kernel: bool, ops: seq<B.Op>, i: nat)
    requires B.Sound(lib) && B.Run(lib, kernel, ops).Ok? && i <= |ops|
    ensures B.Run(lib, kernel, ops[..i]).Ok?
    ensures Wider(B.Run(lib, kernel, ops[..i]).value, B.Run(lib, kernel, ops).value)
    decreases |ops|
  {
    hide B.Do, B.Extends;
    var f := B.Run(lib, kernel, ops).value;
    if i == |ops| {
      assert ops[..i] == ops;
      B.ExtendsSelf(f);
    } else {
      var front := ops[..|ops| - 1];
      assert front[..i] == ops[..i];
      RunWidens(lib, kernel, front, i);
      var g := B.Run(lib, kernel, front).value;
      DoWidens(lib, g, ops[|ops| - 1]);
      WiderTwice(B.Run(lib, kernel, ops[..i]).value, g, f);
    }
  }

  lemma KeepsKind(lib: B.Library, kernel: bool, ops: seq<B.Op>)
    requires B.Sound(lib) && B.Run(lib, kernel, ops).Ok?
    ensures B.Run(lib, kernel, ops).value.kernel == kernel
    ensures !kernel ==> B.Run(lib, kernel, ops).value.blockSize == (0, 0, 0)
  {
    RunWidens(lib, kernel, ops, 0);
    assert ops[..0] == [];
  }

  // ----- Calls -----

  lemma {:induction false} CalledAt(ops: seq<B.Op>, i: nat)
    requires i < |ops| && ops[i].CallFunction?
    ensures ops[i].callee in B.Called(ops)
  {
    if i < |ops| - 1 {
      CalledAt(ops[..|ops| - 1], i);
    }
  }

  lemma {:induction false} MarkedIsBuiltin(lib: B.Library, kernel: bool, ops: seq<B.Op>, op: nat)
    requires B.Sound(lib) && B.Run(lib, kernel, ops).Ok? && op in B.Marked(ops)
    ensures op != CUSTOM
  {
    if op in B.Marked(ops[..|ops| - 1]) {
      MarkedIsBuiltin(lib, kernel, ops[..|ops| - 1], op);
    }
  }

  /** A call that was placed names a callable before, has all its arguments, and uses no more than f. */
  lemma CallFits(lib: B.Library, defs: seq<B.Definition>, n: nat, i: nat, k: Key, args: seq<Expr>)
    requires B.IsLibrary(lib, defs) && n < |lib| && PlacedBy(lib[..n], defs[n], i, k, args)
    ensures k < n && !lib[k].kernel && |args| == |lib[k].arguments| && lib[k].ops <= lib[n].ops
    ensures forall j | 0 <= j < |args| ::
              ExplicitAt(lib[..n], k, j) || (args[j].Ref? && HasVariable(lib[n], args[j].variable))
  {
    hide B.Run, Place, CallCustom, B.Uses, B.Closed;
    var before, def := lib[..n], defs[n];
    assert B.FinishedBy(lib, n, def);
    RunWidens(before, def.kernel, def.ops, i);
    RunWidens(before, def.kernel, def.ops, i + 1);
    var f := B.Run(before, def.kernel, def.ops[..i]).value;
    var op := def.ops[i];
    NextOp(before, def, i);
    CallStep(before, f, op.result, k, op.args);
    var g := B.Do(before, f, op).value;
    PlacedListed(before, f, op.result, k, op.args, lib[n]);
    CalledAt(def.ops, i);
    B.LibraryUses(lib, defs, n);
    UsedOps(lib, lib[n], B.Marked(def.ops), B.Called(def.ops), k);
  }

  lemma NextOp(lib: B.Library, def: B.Definition, i: nat)
    requires B.Sound(lib) && i < |def.ops| && B.Run(lib, def.kernel, def.ops[..i + 1]).Ok?
    ensures var f := B.Run(lib, def.kernel, def.ops[..i]);
            f.Ok? && B.Do(lib, f.value, def.ops[i]) == B.Run(lib, def.kernel, def.ops[..i + 1])
  {
    hide B.Do;
    assert def.ops[..i + 1][..i] == def.ops[..i];
  }

  lemma UsedOps(lib: B.Library, f: Function, marked: set<nat>, called: set<Key>, k: Key)
    requires B.Uses(lib, f, marked, called) && B.Closed(lib, f) && k in called
    ensures k < |lib| && lib[k].ops <= f.ops
  {
    assert B.UsedCallable(lib, called, k);
  }

  lemma CallStep(lib: B.Library, f: Function, ty: Option<Type>, k: Key, args: seq<Expr>)
    requires B.Sound(lib) && |f.arguments| == |f.bindings| && k < |lib|
    requires B.Do(lib, f, B.CallFunction(ty, k, args)).Ok?
    ensures CallCustom(f, ty, k, lib[k], args).Ok? && !lib[k].kernel
    ensures B.Do(lib, f, B.CallFunction(ty, k, args)) == Ok(CallCustom(f, ty, k, lib[k], args).value.1)
  {
    hide Place;
  }

  /** Captured variables and resources are variables of the caller. */
  lemma PlacedListed(lib: B.Library, f: Function, ty: Option<Type>, k: Key, args: seq<Expr>, h: Function)
    requires B.Sound(lib) && |f.arguments| == |f.bindings| && k < |lib|
    requires CallCustom(f, ty, k, lib[k], args).Ok? && Wider(CallCustom(f, ty, k, lib[k], args).value.1, h)
    ensures Place(f, lib[k], 0, args).Ok?
    ensures var placed := Place(f, lib[k], 0, args).value.0;
            && |placed| == |lib[k].arguments|
            && forall j | 0 <= j < |placed| ::
                 ExplicitAt(lib, k, j) || (placed[j].Ref? && HasVariable(h, placed[j].variable))
  {
    B.CallIsPlaced(f, ty, k, lib[k], args);
    var p := Place(f, lib[k], 0, args).value;
    hide Place, CallCustom, B.SameKey, B.ExplicitBefore;
    forall j | 0 <= j < |p.0|
      ensures ExplicitAt(lib, k, j) || (p.0[j].Ref? && HasVariable(h, p.0[j].variable))
    {
      assert B.PlacedAt(p.1, lib[k], j, p.0[j], args, B.ExplicitBefore(lib[k], j));
    }
  }

  // ----- The program -----

  /** A listed variable is the declaration of its uid. */
  lemma {:induction false} ListedIsDeclared(kernel: bool, ds: seq<Decl>, v: Variable)
    requires forall i | 0 <= i < |ds| :: ds[i].v.uid == i
    requires HasVariable(DeclareAll(NewFunction(kernel), ds), v)
    ensures v.uid < |ds| && ds[v.uid].v == v
  {
    if ds != [] {
      var front := ds[..|ds| - 1];
      if HasVariable(DeclareAll(NewFunction(kernel), front), v) {
        ListedIsDeclared(kernel, front, v);
      }
    }
  }

  lemma VariableIsDeclared(f: Function, ds: seq<Decl>, v: Variable)
    requires Admissible(ds) && HasVariables(f, ds) && HasVariable(f, v)
    ensures v.uid < |ds| && ds[v.uid].v == v
  {
    ListedIsDeclared(f.kernel, ds, v);
  }

  /** Function n of a library, with its declarations. */
  ghost predicate Site(lib: B.Library, defs: seq<B.Definition>, n: nat, ds: seq<Decl>) {
    && B.IsLibrary(lib, defs) && n < |lib|
    && Admissible(ds) && HasVariables(lib[n], ds)
  }

  lemma {:induction false} MadeExprOk(lib: B.Library, defs: seq<B.Definition>, n: nat, ds: seq<Decl>, e: Expr)
    requires Site(lib, defs, n, ds) && ExprMade(lib[..n], defs[n], lib[n], e)
    ensures ExprOk(ProgramOf(lib), lib[n], n, ds, e)
    decreases e
  {
    var f, before := lib[n], lib[..n];
    assert B.Sound(before);
    hide Site, HasVariables, ProgramOf, B.IsLibrary, PlacedBy, ExplicitAt, Admissible;
    match e
    case Unary(_, _, x) => MadeExprOk(lib, defs, n, ds, x);
    case Binary(_, _, l, r) => MadeExprOk(lib, defs, n, ds, l); MadeExprOk(lib, defs, n, ds, r);
    case Member(_, x, _) => MadeExprOk(lib, defs, n, ds, x);
    case Swizzle(_, x, _, _) => MadeExprOk(lib, defs, n, ds, x);
    case Access(_, r, i) => MadeExprOk(lib, defs, n, ds, r); MadeExprOk(lib, defs, n, ds, i);
    case Literal(_, _) =>
    case Ref(v) => SiteVariable(lib, defs, n, ds, v);
    case Constant(_, _) =>
    case Call(_, Builtin(op), args) =>
      SiteOperation(lib, defs, n, ds, op);
      forall j | 0 <= j < |args| ensures OperandOk(ProgramOf(lib), f, n, ds, args[j]) {
        MadeExprOk(lib, defs, n, ds, args[j]);
      }
    case Call(ty, Custom(k), args) =>
      SiteCall(lib, defs, n, ds, k, args);
      forall j | 0 <= j < |args| ensures OperandOk(ProgramOf(lib), f, n, ds, args[j]) {
        if ExplicitAt(before, k, j) {
          MadeExprOk(lib, defs, n, ds, args[j]);
        }
      }
    case Cast(_, _, x) => MadeExprOk(lib, defs, n, ds, x);
  }

  lemma SiteVariable(lib: B.Library, defs: seq<B.Definition>, n: nat, ds: seq<Decl>, v: Variable)
    requires Site(lib, defs, n, ds) && HasVariable(lib[n], v)
    ensures v.uid < |ds| && ds[v.uid].v == v
  {
    VariableIsDeclared(lib[n], ds, v);
  }

  lemma SiteOperation(lib: B.Library, defs: seq<B.Definition>, n: nat, ds: seq<Decl>, op: nat)
    requires Site(lib, defs, n, ds) && op in B.Marked(defs[n].ops)
    ensures op != CUSTOM && op in lib[n].ops
  {
    hide B.Run, B.Marked, B.Called, Admissible, HasVariables, B.Closed;
    assert B.FinishedBy(lib, n, defs[n]);
    MarkedIsBuiltin(lib[..n], defs[n].kernel, defs[n].ops, op);
    B.LibraryUses(lib, defs, n);
    assert B.UsedOp(lib, B.Marked(defs[n].ops), B.Called(defs[n].ops), op);
  }

  lemma SiteCall(lib: B.Library, defs: seq<B.Definition>, n: nat, ds: seq<Decl>, k: Key, args: seq<Expr>)
    requires Site(lib, defs, n, ds) && exists i :: PlacedBy(lib[..n], defs[n], i, k, args)
    ensures var p := ProgramOf(lib);
            && k in p.functions && k in p.rank && p.rank[k] < n && p.functions[k] == lib[k]
            && !lib[k].kernel && |args| == |lib[k].arguments| && lib[k].ops <= lib[n].ops
    ensures forall j | 0 <= j < |args| :: !ExplicitAt(lib[..n], k, j) ==>
              OperandOk(ProgramOf(lib), lib[n], n, ds, args[j])
  {
    var i :| PlacedBy(lib[..n], defs[n], i, k, args);
    hide PlacedBy, ExplicitAt;
    CallFits(lib, defs, n, i, k, args);
    forall j | 0 <= j < |args| && !ExplicitAt(lib[..n], k, j)
      ensures OperandOk(ProgramOf(lib), lib[n], n, ds, args[j])
    {
      SiteVariable(lib, defs, n, ds, args[j].variable);
    }
  }

  lemma {:induction false} MadeStmtOk(lib: B.Library, defs: seq<B.Definition>, n: nat, ds: seq<Decl>, s: Stmt)
    requires Site(lib, defs, n, ds) && StmtMade(lib[..n], defs[n], lib[n], s)
    ensures StmtOk(ProgramOf(lib), lib[n], n, ds, s)
    decreases s, 0
  {
    hide ExprMade, ExprOk, Site, ProgramOf, BodyMade, StmtsOk, B.IsLibrary;
    match s
    case Break =>
    case Continue =>
    case Return(None) =>
    case Return(Some(e)) => MadeExprOk(lib, defs, n, ds, e);
    case If(c, t, e) =>
      MadeExprOk(lib, defs, n, ds, c); MadeBodyOk(lib, defs, n, ds, t); MadeBodyOk(lib, defs, n, ds, e);
    case Loop(b) => MadeBodyOk(lib, defs, n, ds, b);
    case ExprStmt(e) => MadeExprOk(lib, defs, n, ds, e);
    case Switch(e, b) => MadeExprOk(lib, defs, n, ds, e); MadeBodyOk(lib, defs, n, ds, b);
    case Case(e, b) => MadeExprOk(lib, defs, n, ds, e); MadeBodyOk(lib, defs, n, ds, b);
    case Default(b) => MadeBodyOk(lib, defs, n, ds, b);
    case Assign(l, r) => MadeExprOk(lib, defs, n, ds, l); MadeExprOk(lib, defs, n, ds, r);
    case For(v, c, st, b) =>
      MadeExprOk(lib, defs, n, ds, v); MadeExprOk(lib, defs, n, ds, c); MadeExprOk(lib, defs, n, ds, st);
      MadeBodyOk(lib, defs, n, ds, b);
    case Comment(_) =>
  }

  lemma {:induction false} MadeBodyOk(
      lib: B.Library, defs: seq<B.Definition>, n: nat, ds: seq<Decl>, body: seq<Stmt>)
    requires Site(lib, defs, n, ds) && BodyMade(lib[..n], defs[n], lib[n], body)
    ensures StmtsOk(ProgramOf(lib), lib[n], n, ds, body)
    decreases body, 1
  {
    var f := lib[n];
    hide StmtMade, StmtOk, Site, B.IsLibrary;
    forall i | 0 <= i < |body| ensures StmtOk(ProgramOf(lib), f, n, ds, body[i]) {
      MadeStmtOk(lib, defs, n, ds, body[i]);
    }
  }

  lemma {:induction false} LibraryIsDeclared(lib: B.Library, defs: seq<B.Definition>, n: nat)
    requires B.IsLibrary(lib, defs) && AllEnded(lib, defs) && n < |lib|
    ensures WellDeclared(lib[n])
    decreases n
  {
    hide WellDeclared, BodyMade, Finish, B.Run, SomeReturnsValue;
    forall k | 0 <= k < n ensures WellDeclared(lib[..n][k]) {
      LibraryIsDeclared(lib, defs, k);
    }
    assert B.FinishedBy(lib, n, defs[n]) && EndedAt(lib, defs, n);
    DefinitionsAreWellDeclared(lib[..n], defs[n].kernel, defs[n].ops);
  }

  lemma FunctionIsOk(lib: B.Library, defs: seq<B.Definition>, n: nat)
    requires B.IsLibrary(lib, defs) && AllEnded(lib, defs) && n < |lib|
    ensures exists ds :: FunctionOk(ProgramOf(lib), lib[n], n, ds)
  {
    hide BodyMade, Finish, B.Run, SomeReturnsValue, ProgramOf, Admissible, HasVariables, StmtsOk;
    LibraryIsDeclared(lib, defs, n);
    var ds: seq<Decl> :| Admissible(ds) && HasVariables(lib[n], ds);
    assert B.FinishedBy(lib, n, defs[n]) && EndedAt(lib, defs, n);
    MadeBodyOk(lib, defs, n, ds, lib[n].body);
    KeepsKind(lib[..n], defs[n].kernel, defs[n].ops);
    assert FunctionOk(ProgramOf(lib), lib[n], n, ds);
  }

  /** The functions of a library are a program that the round trip through JSON is about. */
  lemma LibraryIsProgram(lib: B.Library, defs: seq<B.Definition>)
    requires B.IsLibrary(lib, defs) && AllEnded(lib, defs)
    ensures ProgramOk(ProgramOf(lib))
  {
    hide FunctionOk, AllEnded, B.IsLibrary;
    var p := ProgramOf(lib);
    forall k | k in p.functions ensures k in p.rank && VariablesExist(p, k) {
      FunctionIsOk(lib, defs, k);
    }
  }

  /** A kernel that was built, written to JSON and read back is the kernel that was built. */
  method BuiltKernelBack(lib: B.Library, defs: seq<B.Definition>, n: nat)
      returns (kernel: Function, ghost parsed: map<Key, Function>)
    requires B.IsLibrary(lib, defs) && AllEnded(lib, defs)
    requires n < |lib| && lib[n].kernel
    ensures n in parsed && kernel == parsed[n] && AllRebuilt(ProgramOf(lib), parsed)
    ensures kernel.(ops := lib[n].ops, customs := lib[n].customs, constants := lib[n].constants) == lib[n]
    ensures Tight(ProgramOf(lib), parsed.Keys) ==> SameListing(kernel, lib[n])
  {
    hide B.IsLibrary, AllEnded, AllRebuilt, IsRebuilt, Tight, SameListing, ProgramOk;
    LibraryIsProgram(lib, defs);
    var serializer := new FunctionSerializer();
    kernel, parsed := serializer.RoundTrip(ProgramOf(lib), n);
  }
}
