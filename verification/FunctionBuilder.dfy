/**
 * The function builder as the object it is (src/ast/function_builder.{h,cpp}): its
 * methods append to the lists and search them in loops. Each method is proved against
 * the primitive of the module Functions that it implements.
 */
module FunctionBuilder {
  import opened Types
  import opened Ast
  import opened Functions
  import Building
  import UsageMarking

  class FunctionBuilder {
    const kernel: bool
    var blockSize: (nat, nat, nat)
    var builtinVariables: seq<Variable>
    var arguments: seq<Variable>
    var argumentBindings: seq<Binding>
    var localVariables: seq<Variable>
    var sharedVariables: seq<Variable>
    var variableUsages: seq<UsageMarking.Usage>
    var body: seq<Stmt>
    var returnType: Option<Type>
    var usedBuiltinCallables: set<nat>
    var usedCustomCallables: seq<Key>
    var capturedConstants: seq<Const>

    function State(): Function
      reads this
    {
      Function(kernel, blockSize, builtinVariables, arguments, argumentBindings, localVariables, sharedVariables,
               |variableUsages|, body, returnType, usedBuiltinCallables, usedCustomCallables, capturedConstants)
    }

    ghost predicate Valid()
      reads this
    {
      |arguments| == |argumentBindings|
    }

    constructor (kernel: bool)
      ensures Valid() && State() == NewFunction(kernel)
    {
      this.kernel := kernel;
      blockSize := (0, 0, 0);
      builtinVariables, arguments, argumentBindings, localVariables, sharedVariables := [], [], [], [], [];
      variableUsages, body, returnType := [], [], None;
      usedBuiltinCallables, usedCustomCallables, capturedConstants := {}, [], [];
    }

    method NextVariableUid() returns (uid: nat)
      modifies this`variableUsages
      ensures uid == old(State()).count
      ensures variableUsages == old(variableUsages) + [UsageMarking.NONE]
    {
      uid := |variableUsages|;
      variableUsages := variableUsages + [UsageMarking.NONE];
    }

    method MakeLocal(ty: Type) returns (v: Variable)
      requires Valid()
      modifies this
      ensures Valid() && (State(), v) == Functions.Local(old(State()), ty)
    {
      var uid := NextVariableUid();
      v := Variable(ty, Ast.Local, uid);
      localVariables := localVariables + [v];
    }

    method MakeShared(ty: Type) returns (v: Variable)
      requires Valid()
      modifies this
      ensures Valid() && (State(), v) == Functions.Shared(old(State()), ty)
    {
      var uid := NextVariableUid();
      v := Variable(ty, Ast.Shared, uid);
      sharedVariables := sharedVariables + [v];
    }

    /** argument, reference, buffer, texture, bindless_array and accel, and new bindings. */
    method MakeArgument(ty: Type, tag: Tag, binding: Binding) returns (v: Variable)
      requires Valid()
      modifies this
      ensures Valid() && (State(), v) == Argument(old(State()), ty, tag, binding)
    {
      var uid := NextVariableUid();
      v := Variable(ty, tag, uid);
      arguments := arguments + [v];
      argumentBindings := argumentBindings + [binding];
    }

    method MakeBuiltin(tag: Tag) returns (v: Variable)
      requires Valid()
      modifies this
      ensures Valid() && (State(), v) == Functions.Builtin(old(State()), tag)
    {
      var i := 0;
      while i < |builtinVariables|
        invariant i <= |builtinVariables|
        invariant FindTag(builtinVariables, tag) == FindTag(builtinVariables[i..], tag)
      {
        if builtinVariables[i].tag == tag {
          return builtinVariables[i];
        }
        i := i + 1;
      }
      var uid := NextVariableUid();
      v := Variable(UINT3, tag, uid);
      builtinVariables := builtinVariables + [v];
      if !kernel {
        arguments := arguments + [v];
        argumentBindings := argumentBindings + [NoBinding];
      }
    }

    // The searches of the bindings compare field by field.

    method FindBuffer(ty: Type, handle: nat, offset: nat, ghost size: nat) returns (i: nat)
      requires Valid()
      ensures i == FindResource(State(), 0, ty, Binding.BufferBinding(handle, offset, size))
    {
      hide FindTag;
      i := 0;
      while i < |arguments|
        invariant i <= |arguments|
        invariant FindResource(State(), 0, ty, Binding.BufferBinding(handle, offset, size))
                  == FindResource(State(), i, ty, Binding.BufferBinding(handle, offset, size))
      {
        var binding := argumentBindings[i];
        if arguments[i].ty == ty && binding.BufferBinding? && binding.handle == handle && binding.offset == offset {
          return;
        }
        i := i + 1;
      }
    }

    method FindTexture(ty: Type, handle: nat, level: nat) returns (i: nat)
      requires Valid()
      ensures i == FindResource(State(), 0, ty, Binding.TextureBinding(handle, level))
    {
      hide FindTag;
      i := 0;
      while i < |arguments|
        invariant i <= |arguments|
        invariant FindResource(State(), 0, ty, Binding.TextureBinding(handle, level))
                  == FindResource(State(), i, ty, Binding.TextureBinding(handle, level))
      {
        var binding := argumentBindings[i];
        if arguments[i].ty == ty && binding.TextureBinding? && binding.handle == handle && binding.level == level {
          return;
        }
        i := i + 1;
      }
    }

    method FindBindlessArray(handle: nat, ghost ty: Type) returns (i: nat)
      requires Valid()
      ensures i == FindResource(State(), 0, ty, Binding.BindlessArrayBinding(handle))
    {
      hide FindTag;
      i := 0;
      while i < |arguments|
        invariant i <= |arguments|
        invariant FindResource(State(), 0, ty, Binding.BindlessArrayBinding(handle))
                  == FindResource(State(), i, ty, Binding.BindlessArrayBinding(handle))
      {
        var binding := argumentBindings[i];
        if binding.BindlessArrayBinding? && binding.handle == handle {
          return;
        }
        i := i + 1;
      }
    }

    method FindAccel(handle: nat, ghost ty: Type) returns (i: nat)
      requires Valid()
      ensures i == FindResource(State(), 0, ty, Binding.AccelBinding(handle))
    {
      hide FindTag;
      i := 0;
      while i < |arguments|
        invariant i <= |arguments|
        invariant FindResource(State(), 0, ty, Binding.AccelBinding(handle))
                  == FindResource(State(), i, ty, Binding.AccelBinding(handle))
      {
        var binding := argumentBindings[i];
        if binding.AccelBinding? && binding.handle == handle {
          return;
        }
        i := i + 1;
      }
    }

    method BufferBinding(ty: Type, handle: nat, offset: nat, size: nat) returns (v: Variable)
      requires Valid()
      modifies this
      ensures Valid() && (State(), v) == Bind(old(State()), ty, Binding.BufferBinding(handle, offset, size))
      ensures exists k | 0 <= k < |arguments| ::
                && arguments[k] == v && v.ty == ty && argumentBindings[k].BufferBinding?
                && argumentBindings[k].handle == handle && argumentBindings[k].offset == offset
                && argumentBindings[k].size >= size
    {
      var wanted := Binding.BufferBinding(handle, offset, size);
      var i := FindBuffer(ty, handle, offset, size);
      if i < |arguments| {
        var binding := argumentBindings[i];
        argumentBindings := argumentBindings[i := binding.(size := Max(binding.size, size))];
        v := arguments[i];
      } else {
        v := MakeArgument(ty, BufferTag, wanted);
      }
      assert arguments[i] == v;
    }

    method TextureBinding(ty: Type, handle: nat, level: nat) returns (v: Variable)
      requires Valid()
      modifies this
      ensures Valid() && (State(), v) == Bind(old(State()), ty, Binding.TextureBinding(handle, level))
      ensures exists k | 0 <= k < |arguments| ::
                && arguments[k] == v && v.ty == ty && argumentBindings[k].TextureBinding?
                && argumentBindings[k].handle == handle && argumentBindings[k].level == level
    {
      var wanted := Binding.TextureBinding(handle, level);
      var i := FindTexture(ty, handle, level);
      if i < |arguments| {
        assert argumentBindings[i := argumentBindings[i]] == argumentBindings;
        v := arguments[i];
      } else {
        v := MakeArgument(ty, TextureTag, wanted);
      }
      assert arguments[i] == v;
    }

    method BindlessArrayBinding(handle: nat, ghost ty: Type) returns (v: Variable)
      requires Valid()
      modifies this
      ensures Valid() && (State(), v) == Bind(old(State()), ty, Binding.BindlessArrayBinding(handle))
      ensures exists k | 0 <= k < |arguments| ::
                && arguments[k] == v && argumentBindings[k].BindlessArrayBinding?
                && argumentBindings[k].handle == handle
    {
      var wanted := Binding.BindlessArrayBinding(handle);
      var i := FindBindlessArray(handle, ty);
      if i < |arguments| {
        assert argumentBindings[i := argumentBindings[i]] == argumentBindings;
        v := arguments[i];
      } else {
        v := MakeArgument(BindlessArray, BindlessArrayTag, wanted);
      }
      assert arguments[i] == v;
    }

    method AccelBinding(handle: nat, ghost ty: Type) returns (v: Variable)
      requires Valid()
      modifies this
      ensures Valid() && (State(), v) == Bind(old(State()), ty, Binding.AccelBinding(handle))
      ensures exists k | 0 <= k < |arguments| ::
                arguments[k] == v && argumentBindings[k].AccelBinding? && argumentBindings[k].handle == handle
    {
      var wanted := Binding.AccelBinding(handle);
      var i := FindAccel(handle, ty);
      if i < |arguments| {
        assert argumentBindings[i := argumentBindings[i]] == argumentBindings;
        v := arguments[i];
      } else {
        v := MakeArgument(Accel, AccelTag, wanted);
      }
      assert arguments[i] == v;
    }

    method AppendStmt(s: Stmt)
      requires Valid()
      modifies this`body
      ensures Valid() && State() == Append(old(State()), s)
    {
      body := body + [s];
    }

    method Return(value: Option<Expr>) returns (r: Result<bool>)
      requires Valid()
      modifies this
      ensures Valid()
      ensures r.Ok? <==> MakeReturn(old(State()), value).Ok?
      ensures State() == if r.Ok? then MakeReturn(old(State()), value).value else old(State())
    {
      if kernel && value.Some? {
        return Err("Kernels cannot return non-void values.");
      }
      if returnType.Some? && (value.None? || TypeOf(value.value) != returnType) {
        return Err("Mismatched return types");
      }
      if value.Some? {
        returnType := TypeOf(value.value);
      }
      AppendStmt(Stmt.Return(value));
      return Ok(true);
    }

    method CallBuiltin(ty: Option<Type>, op: nat, args: seq<Expr>) returns (r: Result<Option<Expr>>)
      requires Valid()
      modifies this
      ensures Valid()
      ensures match Functions.CallBuiltin(old(State()), ty, op, args)
              case Ok(made) => r == Ok(made.0) && State() == made.1
              case Err(_) => r.Err? && State() == old(State())
    {
      if op == CUSTOM {
        return Err("Custom functions are not allowed to be called with enum CallOp.");
      }
      usedBuiltinCallables := usedBuiltinCallables + {op};
      var expr := Call(ty, Callee.Builtin(op), args);
      if ty.None? {
        AppendStmt(ExprStmt(expr));
        return Ok(None);
      }
      return Ok(Some(expr));
    }

    /** The arguments of a call in the callee's positions, and how many of `args` were used. */
    method PlaceArguments(callee: Function, args: seq<Expr>) returns (r: Result<(seq<Expr>, nat)>)
      requires Valid() && |callee.arguments| == |callee.bindings|
      modifies this
      ensures Valid()
      ensures match Place(old(State()), callee, 0, args)
              case Ok(p) => r.Ok? && r.value.0 == p.0 && State() == p.1 && r.value.1 <= |args|
                && args[r.value.1..] == p.2
              case Err(_) => r.Err?
    {
      hide Place, Functions.Builtin, Bind;
      var callArgs: seq<Expr> := [];
      var next := 0;
      AfterNothing(Place(State(), callee, 0, args));
      assert args[0..] == args;
      for i := 0 to |callee.arguments|
        invariant Valid() && next <= |args|
        invariant Place(old(State()), callee, 0, args) == After(callArgs, Place(State(), callee, i, args[next..]))
      {
        var v := callee.arguments[i];
        ghost var before, rest := State(), args[next..];
        var arg: Expr;
        if Building.Explicit(callee, i) {
          if next == |args| {
            PlaceFails(State(), callee, i, args[next..]);
            return Err("Too few call arguments");
          }
          arg := args[next];
          next := next + 1;
        } else {
          var w := Captured(v, callee.bindings[i]);
          arg := Ref(w);
        }
        PlaceStep(before, State(), callee, i, rest, arg, args[next..]);
        AfterTwice(callArgs, arg, Place(State(), callee, i + 1, args[next..]));
        callArgs := callArgs + [arg];
      }
      PlaceEnds(State(), callee, args[next..]);
      return Ok((callArgs, next));
    }

    /** The caller's builtin variable or resource for a parameter that the callee captured. */
    method Captured(v: Variable, b: Binding) returns (w: Variable)
      requires Valid() && (IsBuiltin(v.tag) || b != NoBinding)
      modifies this
      ensures Valid()
      ensures IsBuiltin(v.tag) ==> (State(), w) == Functions.Builtin(old(State()), v.tag)
      ensures !IsBuiltin(v.tag) ==> (State(), w) == Bind(old(State()), v.ty, b)
    {
      hide Functions.Builtin, Bind;
      if IsBuiltin(v.tag) {
        w := MakeBuiltin(v.tag);
      } else if b.BufferBinding? {
        w := BufferBinding(v.ty, b.handle, b.offset, b.size);
      } else if b.TextureBinding? {
        w := TextureBinding(v.ty, b.handle, b.level);
      } else if b.BindlessArrayBinding? {
        w := BindlessArrayBinding(b.handle, v.ty);
      } else {
        w := AccelBinding(b.handle, v.ty);
      }
    }

    /**
     * Calls a callable. On an error, which ends the program, the state is what was
     * reached by then.
     */
    method CallFunction(ty: Option<Type>, key: Key, callee: Function, args: seq<Expr>) returns (r: Result<Option<Expr>>)
      requires Valid() && |callee.arguments| == |callee.bindings|
      modifies this
      ensures Valid()
      ensures match CallCustom(old(State()), ty, key, callee, args)
              case Ok(made) => r == Ok(made.0) && State() == made.1
              case Err(_) => r.Err?
    {
      hide Place, Propagate;
      if callee.kernel {
        return Err("Calling non-callable function in device code.");
      }
      var placed :- PlaceArguments(callee, args);
      if placed.1 != |args| {
        return Err("Invalid call arguments for custom callable");
      }
      PropagateFrom(key, callee);
      var expr := Call(ty, Custom(key), placed.0);
      if ty.None? {
        AppendStmt(ExprStmt(expr));
        return Ok(None);
      }
      return Ok(Some(expr));
    }

    method PropagateFrom(key: Key, callee: Function)
      requires Valid()
      modifies this
      ensures Valid() && State() == Propagate(old(State()), key, callee)
    {
      hide AppendNew;
      if key in usedCustomCallables {
        return;
      }
      usedCustomCallables := usedCustomCallables + [key];
      usedBuiltinCallables := usedBuiltinCallables + callee.ops;
      AddConstants(callee.constants);
      AddCallables(callee.customs);
    }

    method AddConstants(constants: seq<Const>)
      modifies this`capturedConstants
      ensures capturedConstants == AppendNew(old(capturedConstants), constants)
    {
      for i := 0 to |constants|
        invariant AppendNew(old(capturedConstants), constants) == AppendNew(capturedConstants, constants[i..])
      {
        var c := constants[i];
        AppendNewStep(capturedConstants, constants[i..]);
        assert constants[i..][1..] == constants[i + 1..];
        if c !in capturedConstants {
          capturedConstants := capturedConstants + [c];
        }
      }
    }

    method AddCallables(callables: seq<Key>)
      modifies this`usedCustomCallables
      ensures usedCustomCallables == AppendNew(old(usedCustomCallables), callables)
    {
      for i := 0 to |callables|
        invariant AppendNew(old(usedCustomCallables), callables) == AppendNew(usedCustomCallables, callables[i..])
      {
        var c := callables[i];
        AppendNewStep(usedCustomCallables, callables[i..]);
        assert callables[i..][1..] == callables[i + 1..];
        if c !in usedCustomCallables {
          usedCustomCallables := usedCustomCallables + [c];
        }
      }
    }
  }

  lemma AppendNewStep<T(!new)>(xs: seq<T>, ys: seq<T>)
    requires ys != []
    ensures AppendNew(xs, ys) == AppendNew(if ys[0] in xs then xs else xs + [ys[0]], ys[1..])
  {
  }

  lemma PlaceFails(f: Function, callee: Function, i: nat, rest: seq<Expr>)
    requires |f.arguments| == |f.bindings| && |callee.arguments| == |callee.bindings| && i < |callee.arguments|
    requires Building.Explicit(callee, i) && rest == []
    ensures Place(f, callee, i, rest).Err?
  {
  }

  lemma PlaceEnds(f: Function, callee: Function, rest: seq<Expr>)
    requires |f.arguments| == |f.bindings| && |callee.arguments| == |callee.bindings|
    ensures Place(f, callee, |callee.arguments|, rest) == Ok(([], f, rest))
  {
  }

  type Placed = Result<(seq<Expr>, Function, seq<Expr>)>

  /** Arguments placed after others. */
  function After(done: seq<Expr>, r: Placed): Placed {
    if r.Ok? then Ok((done + r.value.0, r.value.1, r.value.2)) else r
  }

  lemma AfterNothing(r: Placed)
    ensures After([], r) == r
  {
    if r.Ok? {
      assert [] + r.value.0 == r.value.0;
    }
  }

  lemma AfterTwice(done: seq<Expr>, arg: Expr, r: Placed)
    ensures After(done, After([arg], r)) == After(done + [arg], r)
  {
    if r.Ok? {
      assert done + ([arg] + r.value.0) == done + [arg] + r.value.0;
    }
  }

  /** One iteration places one argument. */
  lemma PlaceStep(
      before: Function, after: Function, callee: Function, i: nat, rest: seq<Expr>, arg: Expr, rest': seq<Expr>)
    requires |before.arguments| == |before.bindings| && |after.arguments| == |after.bindings|
    requires |callee.arguments| == |callee.bindings| && i < |callee.arguments|
    requires var v := callee.arguments[i];
             var b := callee.bindings[i];
             if IsBuiltin(v.tag) then
               arg.Ref? && (after, arg.variable) == Functions.Builtin(before, v.tag) && rest' == rest
             else if b.NoBinding? then
               after == before && rest != [] && arg == rest[0] && rest' == rest[1..]
             else
               arg.Ref? && (after, arg.variable) == Bind(before, v.ty, b) && rest' == rest
    ensures Place(before, callee, i, rest) == After([arg], Place(after, callee, i + 1, rest'))
  {
    hide Functions.Builtin, Bind;
  }
}
