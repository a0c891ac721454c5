/**
 * What the builder makes is what the round trip asks for: after any definition there is
 * a list of declarations, one for each uid, that accounts for all variables and bindings.
 */
module Declarations {
  import opened Types
  import opened Ast
  import opened Functions
  import B = Building
  import opened RoundTrip

  ghost predicate WellDeclared(f: Function) {
    exists ds :: Admissible(ds) && HasVariables(f, ds)
  }

  lemma {:induction false} CountsDecls(kernel: bool, ds: seq<Decl>)
    requires Admissible(ds)
    ensures var g := DeclareAll(NewFunction(kernel), ds);
            g.count == |ds| && |g.arguments| == |g.bindings| && g.kernel == kernel
  {
    DeclaredCounts(NewFunction(kernel), ds);
  }

  /** An argument of the list of declarations is an argument of the function. */
  lemma {:induction false} ArgumentListed(kernel: bool, ds: seq<Decl>, i: nat) returns (k: nat)
    requires i < |ds| && ds[i].role.ArgumentRole?
    ensures var g := DeclareAll(NewFunction(kernel), ds);
            && |g.arguments| == |g.bindings| && k < |g.arguments|
            && g.arguments[k] == ds[i].v && g.bindings[k] == ds[i].binding
  {
    var front := ds[..|ds| - 1];
    LengthsAgree(kernel, front);
    if i < |ds| - 1 {
      k := ArgumentListed(kernel, front, i);
    } else {
      k := |DeclareAll(NewFunction(kernel), front).arguments|;
    }
  }

  lemma {:induction false} LengthsAgree(kernel: bool, ds: seq<Decl>)
    ensures var g := DeclareAll(NewFunction(kernel), ds); |g.arguments| == |g.bindings| && g.kernel == kernel
  {
    if ds != [] {
      LengthsAgree(kernel, ds[..|ds| - 1]);
    }
  }

  lemma {:induction false} BuiltinListed(kernel: bool, ds: seq<Decl>, i: nat)
    requires i < |ds| && ds[i].role.BuiltinRole?
    ensures ds[i].v in DeclareAll(NewFunction(kernel), ds).builtins
  {
    if i < |ds| - 1 {
      BuiltinListed(kernel, ds[..|ds| - 1], i);
    }
  }

  /** Changing the binding of a bound argument changes one declaration. */
  lemma {:induction false} RebindDecl(kernel: bool, ds: seq<Decl>, k: nat, b: Binding) returns (i: nat)
    requires var g := DeclareAll(NewFunction(kernel), ds);
             |g.arguments| == |g.bindings| && k < |g.arguments| && g.bindings[k] != NoBinding
    ensures var g := DeclareAll(NewFunction(kernel), ds);
            && i < |ds| && ds[i].role.ArgumentRole?
            && ds[i].v == g.arguments[k] && ds[i].binding == g.bindings[k]
            && DeclareAll(NewFunction(kernel), ds[i := ds[i].(binding := b)]) == g.(bindings := g.bindings[k := b])
    decreases |ds|
  {
    hide Declare;
    var front := ds[..|ds| - 1];
    var g0 := DeclareAll(NewFunction(kernel), front);
    LengthsAgree(kernel, front);
    if k < |g0.arguments| {
      DeclareCommutes(g0, ds[|ds| - 1], k, b);
      i := RebindDecl(kernel, front, k, b);
      var ds' := ds[i := ds[i].(binding := b)];
      assert ds'[..|ds'| - 1] == front[i := front[i].(binding := b)];
    } else {
      i := |ds| - 1;
      DeclareRebound(g0, ds[i], k, b);
      var ds' := ds[i := ds[i].(binding := b)];
      assert ds'[..|ds'| - 1] == front;
    }
  }

  lemma DeclareRebound(g: Function, d: Decl, k: nat, b: Binding)
    requires |g.arguments| == |g.bindings| && k >= |g.bindings|
    requires var h := Declare(g, d); k < |h.arguments| && k < |h.bindings| && h.bindings[k] != NoBinding
    ensures var h := Declare(g, d);
            && d.role.ArgumentRole? && d.v == h.arguments[k] && d.binding == h.bindings[k]
            && Declare(g, d.(binding := b)) == h.(bindings := h.bindings[k := b])
  {
  }

  lemma DeclareCommutes(g: Function, d: Decl, k: nat, b: Binding)
    requires |g.arguments| == |g.bindings| && k < |g.bindings|
    ensures var h := Declare(g, d);
            && k < |h.bindings| && h.arguments[k] == g.arguments[k] && h.bindings[k] == g.bindings[k]
            && Declare(g.(bindings := g.bindings[k := b]), d) == h.(bindings := h.bindings[k := b])
  {
  }

  lemma NewDecl(f: Function, d: Decl, ds: seq<Decl>)
    requires Admissible(ds) && HasVariables(f, ds)
    requires Proper(d) && d.v.uid == f.count
    requires forall i | 0 <= i < |ds| :: Distinct(ds[i], d)
    ensures Admissible(ds + [d]) && HasVariables(Declare(f, d), ds + [d])
  {
    CountsDecls(f.kernel, ds);
    MoreAdmissible(ds, d);
    hide Admissible, Proper, Distinct, Declare;
    assert (ds + [d])[..|ds|] == ds;
    DeclareSame(f, DeclareAll(NewFunction(f.kernel), ds), d);
  }

  lemma MoreAdmissible(ds: seq<Decl>, d: Decl)
    requires Admissible(ds) && Proper(d) && d.v.uid == |ds|
    requires forall i | 0 <= i < |ds| :: Distinct(ds[i], d)
    ensures Admissible(ds + [d])
  {
    hide Proper, Distinct;
  }

  lemma DeclareSame(f: Function, g: Function, d: Decl)
    requires f.kernel == g.kernel && f.builtins == g.builtins && f.arguments == g.arguments && f.bindings == g.bindings
    requires f.shareds == g.shareds && f.locals == g.locals && f.count == g.count
    ensures var f', g' := Declare(f, d), Declare(g, d);
            && f'.kernel == f.kernel && f'.builtins == g'.builtins && f'.arguments == g'.arguments
            && f'.bindings == g'.bindings && f'.shareds == g'.shareds && f'.locals == g'.locals && f'.count == g'.count
  {
  }

  /** A variable without binding that is no builtin is distinct from all others. */
  lemma PlainDecl(f: Function, d: Decl)
    requires WellDeclared(f) && Proper(d) && d.v.uid == f.count
    requires d.binding == NoBinding && !d.role.BuiltinRole?
    ensures WellDeclared(Declare(f, d))
  {
    var ds: seq<Decl> :| Admissible(ds) && HasVariables(f, ds);
    NewDecl(f, d, ds);
  }

  lemma BuiltinDecl(f: Function, tag: Tag)
    requires WellDeclared(f) && IsBuiltin(tag)
    ensures WellDeclared(Functions.Builtin(f, tag).0)
  {
    hide Admissible, HasVariables, Proper, Distinct, Declare, FindTag, Functions.Builtin;
    var ds: seq<Decl> :| Admissible(ds) && HasVariables(f, ds);
    NewBuiltin(f, tag);
    if FindTag(f.builtins, tag).None? {
      var d := Decl(Variable(UINT3, tag, f.count), BuiltinRole, NoBinding);
      BuiltinDistinct(f, ds, d);
      NewDecl(f, d, ds);
    }
  }

  lemma NewBuiltin(f: Function, tag: Tag)
    requires IsBuiltin(tag)
    ensures var d := Decl(Variable(UINT3, tag, f.count), BuiltinRole, NoBinding);
            && Proper(d)
            && Functions.Builtin(f, tag).0 == if FindTag(f.builtins, tag).Some? then f else Declare(f, d)
  {
    hide FindTag;
  }

  lemma BuiltinDistinct(f: Function, ds: seq<Decl>, d: Decl)
    requires HasVariables(f, ds) && d.role.BuiltinRole? && d.binding == NoBinding
    requires FindTag(f.builtins, d.v.tag).None?
    ensures forall i | 0 <= i < |ds| :: Distinct(ds[i], d)
  {
    B.NoTag(f.builtins, d.v.tag);
    forall i: nat | i < |ds|
      ensures Distinct(ds[i], d)
    {
      if ds[i].role.BuiltinRole? {
        BuiltinListed(f.kernel, ds, i);
      }
    }
  }

  lemma BindDecl(f: Function, ty: Type, b: Binding)
    requires WellDeclared(f) && |f.arguments| == |f.bindings| && Valid(ty) && BindingFits(b) && b != NoBinding
    ensures WellDeclared(Bind(f, ty, b).0)
  {
    var ds: seq<Decl> :| Admissible(ds) && HasVariables(f, ds);
    var k := FindResource(f, 0, ty, b);
    hide FindResource;
    if k < |f.arguments| {
      WidenDecl(f, ds, ty, b, k);
    } else {
      NewBinding(f, ds, ty, b);
    }
  }

  lemma NewBinding(f: Function, ds: seq<Decl>, ty: Type, b: Binding)
    requires Admissible(ds) && HasVariables(f, ds)
    requires |f.arguments| == |f.bindings| && Valid(ty) && BindingFits(b) && b != NoBinding
    requires forall j | 0 <= j < |f.arguments| :: !SameResource(f.arguments[j], f.bindings[j], ty, b)
    ensures WellDeclared(Argument(f, ResourceType(b, ty), ResourceTag(b), b).0)
  {
    var d := Decl(Variable(ResourceType(b, ty), ResourceTag(b), f.count), ArgumentRole, b);
    forall i: nat | i < |ds|
      ensures Distinct(ds[i], d)
    {
      assert Proper(ds[i]);
      if ds[i].role.ArgumentRole? {
        var k := ArgumentListed(f.kernel, ds, i);
      }
    }
    assert Proper(d);
    hide Admissible, HasVariables, DeclareAll, Distinct, Proper;
    NewDecl(f, d, ds);
    assert Argument(f, ResourceType(b, ty), ResourceTag(b), b).0 == Declare(f, d);
  }

  lemma WidenDecl(f: Function, ds: seq<Decl>, ty: Type, b: Binding, k: nat)
    requires Admissible(ds) && HasVariables(f, ds)
    requires |f.arguments| == |f.bindings| && k < |f.arguments| && SameResource(f.arguments[k], f.bindings[k], ty, b)
    ensures WellDeclared(f.(bindings := f.bindings[k := Widened(f.bindings[k], b)]))
  {
    var wide := Widened(f.bindings[k], b);
    var i := RebindDecl(f.kernel, ds, k, wide);
    var ds' := ds[i := ds[i].(binding := wide)];
    WidenedAdmissible(ds, i, b);
    assert HasVariables(f.(bindings := f.bindings[k := wide]), ds');
  }

  lemma WidenedAdmissible(ds: seq<Decl>, i: nat, b: Binding)
    requires Admissible(ds) && i < |ds|
    ensures Admissible(ds[i := ds[i].(binding := Widened(ds[i].binding, b))])
  {
    var ds' := ds[i := ds[i].(binding := Widened(ds[i].binding, b))];
    forall x, y | 0 <= x < y < |ds|
      ensures Distinct(ds'[x], ds'[y])
    {
      assert Distinct(ds[x], ds[y]);
      B.WidenedIsSame(ds[i].v, ds[i].binding, b, ds[y].v, ds[y].binding);
      B.WidenedIsSame(ds[i].v, ds[i].binding, b, ds[x].v, ds[x].binding);
    }
    forall x | 0 <= x < |ds|
      ensures ds'[x].v.uid == x && Proper(ds'[x])
    {
      assert Proper(ds[x]);
    }
  }

  // ----- Calls and whole definitions -----

  /** Types and bindings of the parameters are proper. */
  predicate ProperParameters(callee: Function) {
    && |callee.arguments| == |callee.bindings|
    && forall i | 0 <= i < |callee.arguments| :: Valid(callee.arguments[i].ty) && BindingFits(callee.bindings[i])
  }

  lemma {:induction false} DeclaredParameters(kernel: bool, ds: seq<Decl>)
    requires forall i | 0 <= i < |ds| :: Proper(ds[i])
    ensures ProperParameters(DeclareAll(NewFunction(kernel), ds))
  {
    if ds != [] {
      DeclaredParameters(kernel, ds[..|ds| - 1]);
    }
  }

  lemma ParametersProper(f: Function)
    requires WellDeclared(f)
    ensures ProperParameters(f)
  {
    var ds: seq<Decl> :| Admissible(ds) && HasVariables(f, ds);
    DeclaredParameters(f.kernel, ds);
  }

  lemma {:induction false} PlaceDecls(f: Function, callee: Function, i: nat, args: seq<Expr>)
    requires WellDeclared(f) && |f.arguments| == |f.bindings|
    requires ProperParameters(callee) && i <= |callee.arguments|
    requires Place(f, callee, i, args).Ok?
    ensures WellDeclared(Place(f, callee, i, args).value.1)
    decreases |callee.arguments| - i
  {
    hide WellDeclared, Functions.Builtin, Bind, IsBuiltin;
    if i < |callee.arguments| {
      var v := callee.arguments[i];
      var b := callee.bindings[i];
      if IsBuiltin(v.tag) {
        BuiltinDecl(f, v.tag);
        B.BuiltinExtends(f, v.tag);
        PlaceDecls(Functions.Builtin(f, v.tag).0, callee, i + 1, args);
      } else if b.NoBinding? {
        PlaceDecls(f, callee, i + 1, args[1..]);
      } else {
        BindDecl(f, v.ty, b);
        B.BindExtends(f, v.ty, b);
        PlaceDecls(Bind(f, v.ty, b).0, callee, i + 1, args);
      }
    }
  }

  /** What the program's types guarantee of a primitive's arguments. */
  predicate ProperOp(op: B.Op) {
    match op
    case MakeLocal(ty) => Valid(ty)
    case MakeShared(ty) => Valid(ty)
    case MakeArgument(ty, tag) =>
      Valid(ty) && (tag.BindlessArrayTag? ==> ty == BindlessArray) && (tag.AccelTag? ==> ty == Accel)
    case MakeBinding(ty, b) => Valid(ty) && BindingFits(b)
    case AccessLiteral(_, range, _) => range.Literal? ==> Valid(range.ty)
    case _ => true
  }

  lemma SameVariablesDeclared(f: Function, g: Function)
    requires WellDeclared(f)
    requires g.kernel == f.kernel && g.builtins == f.builtins && g.arguments == f.arguments && g.bindings == f.bindings
    requires g.shareds == f.shareds && g.locals == f.locals && g.count == f.count
    ensures WellDeclared(g)
  {
    var ds: seq<Decl> :| Admissible(ds) && HasVariables(f, ds);
    assert HasVariables(g, ds);
  }

  lemma DoDecls(lib: B.Library, f: Function, op: B.Op)
    requires B.Sound(lib) && WellDeclared(f) && |f.arguments| == |f.bindings|
    requires ProperOp(op) && B.Do(lib, f, op).Ok?
    requires forall k | 0 <= k < |lib| :: ProperParameters(lib[k])
    ensures WellDeclared(B.Do(lib, f, op).value)
  {
    hide WellDeclared, Functions.Builtin, Bind, CallCustom, MakeAccess, Valid;
    var g := B.Do(lib, f, op).value;
    match op
    case MakeLocal(ty) => PlainDecl(f, Decl(Variable(ty, Ast.Local, f.count), LocalRole, NoBinding));
    case MakeShared(ty) => PlainDecl(f, Decl(Variable(ty, Ast.Shared, f.count), SharedRole, NoBinding));
    case MakeArgument(ty, tag) => PlainDecl(f, Decl(Variable(ty, tag, f.count), ArgumentRole, NoBinding));
    case MakeBinding(ty, b) => BindDecl(f, ty, b);
    case MakeBuiltin(tag) => BuiltinDecl(f, tag);
    case CallFunction(ty, k, args) => CallDecls(f, ty, k, lib[k], args);
    case AccessLiteral(ty, range, index) => AccessDecls(f, ty, range, index);
    case _ => SameVariablesDeclared(f, g);
  }

  lemma CallDecls(f: Function, ty: Option<Type>, k: Key, callee: Function, args: seq<Expr>)
    requires WellDeclared(f) && |f.arguments| == |f.bindings| && ProperParameters(callee)
    requires CallCustom(f, ty, k, callee, args).Ok?
    ensures WellDeclared(CallCustom(f, ty, k, callee, args).value.1)
  {
    assert |callee.arguments| == |callee.bindings|;
    hide WellDeclared, Place, ProperParameters, AppendNew;
    PlaceDecls(f, callee, 0, args);
    SameVariablesDeclared(Place(f, callee, 0, args).value.1, CallCustom(f, ty, k, callee, args).value.1);
  }

  lemma AccessDecls(f: Function, ty: Type, range: Expr, index: Expr)
    requires WellDeclared(f) && (range.Literal? ==> Valid(range.ty))
    ensures WellDeclared(MakeAccess(f, ty, range, index).0)
  {
    hide WellDeclared, Valid;
    var g := MakeAccess(f, ty, range, index).0;
    if range.Literal? {
      PlainDecl(f, Decl(Variable(range.ty, Ast.Local, f.count), LocalRole, NoBinding));
      SameVariablesDeclared(Functions.Local(f, range.ty).0, g);
    }
  }

  lemma NoVariables()
    ensures WellDeclared(NewFunction(true)) && WellDeclared(NewFunction(false))
  {
    var none: seq<Decl> := [];
    assert Admissible(none) && HasVariables(NewFunction(true), none) && HasVariables(NewFunction(false), none);
  }

  /**
   * The variables of every function that the builder can make meet the condition under which
   * the round trip through JSON is proved.
   */
  lemma {:induction false} DefinitionsAreWellDeclared(lib: B.Library, kernel: bool, ops: seq<B.Op>)
    requires B.Sound(lib) && forall k | 0 <= k < |lib| :: WellDeclared(lib[k])
    requires B.Run(lib, kernel, ops).Ok? && forall i | 0 <= i < |ops| :: ProperOp(ops[i])
    ensures WellDeclared(B.Run(lib, kernel, ops).value)
  {
    hide WellDeclared, B.Do, ProperOp;
    if ops == [] {
      NoVariables();
    } else {
      var front := ops[..|ops| - 1];
      DefinitionsAreWellDeclared(lib, kernel, front);
      forall k | 0 <= k < |lib|
        ensures ProperParameters(lib[k])
      {
        ParametersProper(lib[k]);
      }
      DoDecls(lib, B.Run(lib, kernel, front).value, ops[|ops| - 1]);
    }
  }
}
