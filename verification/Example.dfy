/**
 * A kernel that calls a callable which captures thread_id(): the smallest library on
 * which the round trip through JSON converts a closure.
 */
module Example {
  import opened Types
  import opened Ast
  import opened Functions
  import opened RoundTrip
  import opened Declarations
  import opened BuiltPrograms
  import B = Building

  const CALLABLE: Key := 0

  /** In the callable. */
  const CAPTURED: Variable := Variable(UINT3, ThreadId, 0)

  /** In the kernel. */
  const RESULT: Variable := Variable(UINT3, Ast.Local, 0)
  const THREAD: Variable := Variable(UINT3, ThreadId, 1)

  function CallableOps(): seq<B.Op> {
    [B.MakeBuiltin(ThreadId), B.AppendReturn(Some(Ref(CAPTURED)))]
  }

  /** The call passes no argument; placing the captured builtin creates one. */
  function KernelOps(): seq<B.Op> {
    [B.SetBlockSize((16, 16, 1)), B.MakeLocal(UINT3), B.CallFunction(Some(UINT3), CALLABLE, []),
     B.AppendStmt(Assign(Ref(RESULT), CapturingCall()))]
  }

  function CapturingCall(): Expr {
    Call(Some(UINT3), Custom(CALLABLE), [Ref(THREAD)])
  }

  function Callee(): Function {
    Function(false, (0, 0, 0), [CAPTURED], [CAPTURED], [NoBinding], [], [], 1,
             [Return(Some(Ref(CAPTURED)))], Some(UINT3), {}, [], [])
  }

  function Kernel(): Function {
    Function(true, (16, 16, 1), [THREAD], [], [], [RESULT], [], 2,
             [Assign(Ref(RESULT), CapturingCall())], None, {}, [CALLABLE], [])
  }

  function Built(): B.Library {
    [Callee(), Kernel()]
  }

  function Definitions(): seq<B.Definition> {
    [B.Definition(false, CallableOps()), B.Definition(true, KernelOps())]
  }

  /** One more primitive. */
  lemma Step(lib: B.Library, kernel: bool, ops: seq<B.Op>, n: nat, f: Function)
    requires B.Sound(lib) && n < |ops| && |f.arguments| == |f.bindings| && B.Run(lib, kernel, ops[..n]) == Ok(f)
    ensures B.Run(lib, kernel, ops[..n + 1]) == B.Do(lib, f, ops[n])
  {
    hide B.Do;
    assert ops[..n + 1][..n] == ops[..n];
  }

  lemma FirstBuiltin(f: Function, tag: Tag)
    requires f.builtins == [] && IsBuiltin(tag)
    ensures var v := Variable(UINT3, tag, f.count);
            Functions.Builtin(f, tag)
            == if f.kernel then (f.(builtins := [v], count := f.count + 1), v)
               else Argument(f.(builtins := [v]), UINT3, tag, NoBinding)
  {
    var v := Variable(UINT3, tag, f.count);
    assert FindTag(f.builtins, tag) == None && f.builtins + [v] == [v];
  }

  lemma FirstArgument(f: Function, v: Variable)
    requires f.arguments == [] && f.bindings == [] && v.uid == f.count
    ensures Argument(f, v.ty, v.tag, NoBinding)
            == (f.(arguments := [v], bindings := [NoBinding], count := f.count + 1), v)
  {
    assert f.arguments + [v] == [v] && f.bindings + [NoBinding] == [NoBinding];
  }

  lemma FirstStmt(f: Function, s: Stmt)
    requires f.body == []
    ensures Append(f, s) == f.(body := [s])
  {
    assert f.body + [s] == [s];
  }

  lemma CalleeIsBuilt()
    ensures B.Run([], false, CallableOps()) == Ok(Callee())
  {
    var ops := CallableOps();
    assert ops[..0] == [] && ops[..2] == ops;
    var f := NewFunction(false);
    Step([], false, ops, 0, f);
    FirstBuiltin(f, ThreadId);
    var g := f.(builtins := [CAPTURED]);
    FirstArgument(g, CAPTURED);
    var h := Argument(g, UINT3, ThreadId, NoBinding).0;
    assert B.Do([], f, ops[0]) == Ok(h);
    Step([], false, ops, 1, h);
    FirstStmt(h.(returnType := Some(UINT3)), Return(Some(Ref(CAPTURED))));
  }

  lemma CapturePlaced(f: Function)
    requires f.kernel && f.builtins == [] && |f.arguments| == |f.bindings| && f.count == 1
    ensures Place(f, Callee(), 0, []) == Ok(([Ref(THREAD)], f.(builtins := [THREAD], count := 2), []))
  {
    var g := f.(builtins := [THREAD], count := 2);
    FirstBuiltin(f, ThreadId);
    assert Place(g, Callee(), 1, []) == Ok(([], g, []));
    var none: seq<Expr> := [];
    assert [Ref(THREAD)] + none == [Ref(THREAD)];
    assert Callee().arguments[0] == CAPTURED && IsBuiltin(CAPTURED.tag);
  }

  /** The kernel before the call. */
  function Started(): Function {
    Function(true, (16, 16, 1), [], [], [], [RESULT], [], 1, [], None, {}, [], [])
  }

  lemma KernelIsStarted()
    ensures B.Run([Callee()], true, KernelOps()[..2]) == Ok(Started())
  {
    var lib, ops := [Callee()], KernelOps();
    assert ops[..0] == [];
    var f := NewFunction(true);
    Step(lib, true, ops, 0, f);
    var g := f.(blockSize := (16, 16, 1));
    assert B.Do(lib, f, ops[0]) == Ok(g);
    Step(lib, true, ops, 1, g);
    assert g.locals + [RESULT] == [RESULT];
    assert B.Do(lib, g, ops[1]) == Ok(Started());
  }

  lemma CallCaptures(f: Function)
    requires f.kernel && f.builtins == [] && |f.arguments| == |f.bindings| && f.count == 1
    requires f.customs == []
    ensures B.Do([Callee()], f, B.CallFunction(Some(UINT3), CALLABLE, []))
            == Ok(f.(builtins := [THREAD], count := 2, customs := [CALLABLE]))
  {
    CapturePlaced(f);
    var g := f.(builtins := [THREAD], count := 2);
    assert g.customs + [CALLABLE] == [CALLABLE];
    assert Propagate(g, CALLABLE, Callee()) == g.(customs := [CALLABLE]);
    hide Place;
  }

  lemma KernelIsBuilt()
    ensures B.Run([Callee()], true, KernelOps()) == Ok(Kernel())
  {
    var lib, ops := [Callee()], KernelOps();
    assert ops[..4] == ops;
    KernelIsStarted();
    var h := Started();
    Step(lib, true, ops, 2, h);
    CallCaptures(h);
    var k := h.(builtins := [THREAD], count := 2, customs := [CALLABLE]);
    hide B.Run, Callee;
    Step(lib, true, ops, 3, k);
    FirstStmt(k, Assign(Ref(RESULT), CapturingCall()));
  }

  lemma LibraryIsBuilt()
    ensures B.IsLibrary(Built(), Definitions())
  {
    CalleeIsBuilt();
    KernelIsBuilt();
    var lib, defs := Built(), Definitions();
    hide B.Run, CallableOps, KernelOps;
    assert lib[..0] == [] && lib[..1] == [Callee()];
    assert B.FinishedBy(lib, 0, defs[0]) && B.FinishedBy(lib, 1, defs[1]);
  }

  lemma CalleeIsEnded()
    ensures Ended([], B.Definition(false, CallableOps()), Callee())
  {
    var def, f := B.Definition(false, CallableOps()), Callee();
    var body := f.body;
    assert CAPTURED in f.builtins && OperandMade([], def, f, Ref(CAPTURED));
    assert StmtMade([], def, f, body[0]);
    assert body[..0] == [] && ReturnsValue(body[0]) && SomeReturnsValue(body);
  }

  lemma KernelIsEnded()
    ensures Ended([Callee()], B.Definition(true, KernelOps()), Kernel())
  {
    var lib, def, f := [Callee()], B.Definition(true, KernelOps()), Kernel();
    CallIsMade();
    ResultIsMade();
    hide OperandMade, CapturingCall;
    assert StmtMade(lib, def, f, f.body[0]);
    hide StmtMade;
    NoReturn(f.body);
    assert Valid(UINT3);
  }

  lemma NoReturn(body: seq<Stmt>)
    requires |body| == 1 && !ReturnsValue(body[0])
    ensures !SomeReturnsValue(body)
  {
    assert body[..0] == [] && !SomeReturnsValue([]);
  }

  lemma ResultIsMade()
    ensures OperandMade([Callee()], B.Definition(true, KernelOps()), Kernel(), Ref(RESULT))
  {
    hide KernelOps, Callee;
    assert RESULT in Kernel().locals;
  }

  lemma CallIsMade()
    ensures OperandMade([Callee()], B.Definition(true, KernelOps()), Kernel(), CapturingCall())
  {
    var lib, def := [Callee()], B.Definition(true, KernelOps());
    KernelIsStarted();
    CapturePlaced(Started());
    assert PlacedBy(lib, def, 2, CALLABLE, [Ref(THREAD)]);
    assert THREAD in Kernel().builtins && OperandMade(lib, def, Kernel(), Ref(THREAD));
  }

  /** The hypotheses of the round trip hold of the example ... */
  lemma ExampleIsOk()
    ensures B.IsLibrary(Built(), Definitions()) && AllEnded(Built(), Definitions())
    ensures ProgramOk(ProgramOf(Built()))
  {
    LibraryIsBuilt();
    CalleeIsEnded();
    KernelIsEnded();
    var lib, defs := Built(), Definitions();
    hide Ended, B.IsLibrary, Callee, Kernel, CallableOps, KernelOps;
    assert lib[..0] == [] && lib[..1] == [Callee()];
    assert EndedAt(lib, defs, 0) && EndedAt(lib, defs, 1);
    LibraryIsProgram(lib, defs);
  }

  /** ... whose callable is closure-converted, and whose kernel is not changed. */
  lemma ExampleRebuilt()
    ensures Rebuilt(Kernel()) == Kernel()
    ensures var argument := Variable(UINT3, Ast.Local, 0);
            && Rebuilt(Callee()).arguments == [argument] && Rebuilt(Callee()).builtins == []
            && Rebuilt(Callee()).body == [Return(Some(Ref(argument)))]
  {
    KernelUnchanged(Kernel());
    var body := Callee().body;
    assert body[1..] == [] && RetagStmts(false, body[1..]) == [];
  }
}
