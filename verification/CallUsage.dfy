/**
 * Usage across calls: a variable counts as written in a function exactly if some chain of
 * calls hands it, by reference, to an assignment or to an operation that writes
 * (src/ast/expression.cpp:17-54, src/ast/statement.h:183-187, 373-379).
 */
module CallUsage {
  import opened Types
  import opened UsageMarking
  import Ast

  /** What one expression or statement does to the expressions it is made of. */
  datatype Step =
    | Reads(es: seq<nat>)
    | Operation(op: nat, args: seq<nat>)
    | Assigns(lhs: nat, rhs: nat)
    | Repeats(variable: nat, cond: nat, step: nat)
    | Calls(callee: nat, args: seq<nat>)

  /** A parameter of a callable, as a variable of the callable. */
  datatype Formal = Formal(tag: Ast.Tag, uid: nat)

  /** A finished function: its expressions, its parameters, and the steps that marked its expressions. */
  datatype Def = Def(nodes: seq<Node>, formals: seq<Formal>, steps: seq<Step>)

  predicate AllBelow(es: seq<nat>, n: nat) {
    forall i | 0 <= i < |es| :: es[i] < n
  }

  /** A step of function n, whose callees were finished before. */
  predicate StepFits(defs: seq<Def>, n: nat, s: Step)
    requires n < |defs|
  {
    var size := |defs[n].nodes|;
    match s
    case Reads(es) => AllBelow(es, size)
    case Operation(op, args) => AllBelow(args, size) && (op in WRITERS ==> args != [])
    case Assigns(l, r) => l < size && r < size
    case Repeats(v, c, st) => v < size && c < size && st < size
    case Calls(c, args) => c < n && AllBelow(args, size) && |args| == |defs[c].formals|
  }

  predicate Fits(defs: seq<Def>) {
    forall n, k | 0 <= n < |defs| && 0 <= k < |defs[n].steps| :: StepFits(defs, n, defs[n].steps[k])
  }

  // ----- What the marks add up to -----

  function ReadMarks(es: seq<nat>): (r: seq<Mark>)
    ensures |r| == |es| && forall i | 0 <= i < |es| :: r[i] == Mark(es[i], READ)
  {
    seq(|es|, i requires 0 <= i < |es| => Mark(es[i], READ))
  }

  /** The marks of the constructors; a call looks up how the callee uses its parameters. */
  function StepMarks(defs: seq<Def>, n: nat, s: Step): (r: seq<Mark>)
    requires Fits(defs) && n < |defs| && StepFits(defs, n, s)
    ensures InRange(r, |defs[n].nodes|)
    decreases n, 1
  {
    match s
    case Reads(es) => ReadMarks(es)
    case Operation(op, args) => BuiltinCallMarks(op, args)
    case Assigns(l, r) => [Mark(l, WRITE), Mark(r, READ)]
    case Repeats(v, c, st) => [Mark(v, READ_WRITE), Mark(c, READ), Mark(st, READ)]
    case Calls(c, args) => CustomCallMarks(Parameters(defs, c), args)
  }

  function Parameters(defs: seq<Def>, c: nat): (r: seq<Parameter>)
    requires Fits(defs) && c < |defs|
    ensures |r| == |defs[c].formals|
    ensures forall i | 0 <= i < |r| ::
              r[i] == Parameter(defs[c].formals[i].tag, UsageOf(defs, c, defs[c].formals[i].uid))
    decreases c, 4
  {
    var fs := defs[c].formals;
    seq(|fs|, i requires 0 <= i < |fs| => Parameter(fs[i].tag, UsageOf(defs, c, fs[i].uid)))
  }

  function History(defs: seq<Def>, n: nat, k: nat): (r: seq<Mark>)
    requires Fits(defs) && n < |defs| && k <= |defs[n].steps|
    ensures InRange(r, |defs[n].nodes|)
    decreases n, 2, k
  {
    if k == 0 then [] else
      assert StepFits(defs, n, defs[n].steps[k - 1]);
      History(defs, n, k - 1) + StepMarks(defs, n, defs[n].steps[k - 1])
  }

  /** variable_usage of the finished function. */
  function UsageOf(defs: seq<Def>, n: nat, uid: nat): Usage
    requires Fits(defs) && n < |defs|
    decreases n, 3
  {
    Collected(defs[n].nodes, History(defs, n, |defs[n].steps|), uid)
  }

  /** A builder that took these steps has this table. */
  lemma TableIsUsage(defs: seq<Def>, n: nat, table: seq<Usage>, uid: nat)
    requires Fits(defs) && n < |defs| && uid < |table|
    requires Explained(defs[n].nodes, History(defs, n, |defs[n].steps|), table)
    ensures table[uid] == UsageOf(defs, n, uid)
  {
  }

  // ----- Chains of calls -----

  /** A variable of a function. */
  type Place = (nat, nat)

  predicate LeadsTo(defs: seq<Def>, n: nat, e: nat, uid: nat) {
    n < |defs| && e < |defs[n].nodes| && Root(defs[n].nodes, e) == Some(uid)
  }

  predicate StepWrites(defs: seq<Def>, n: nat, s: Step, uid: nat) {
    match s
    case Reads(_) => false
    case Operation(op, args) => op in WRITERS && args != [] && LeadsTo(defs, n, args[0], uid)
    case Assigns(l, _) => LeadsTo(defs, n, l, uid)
    case Repeats(v, _, _) => LeadsTo(defs, n, v, uid)
    case Calls(_, _) => false
  }

  /** Read directly; an argument of a call is, unless it is passed by reference. */
  predicate StepReads(defs: seq<Def>, n: nat, s: Step, uid: nat) {
    match s
    case Reads(es) => exists i | 0 <= i < |es| :: LeadsTo(defs, n, es[i], uid)
    case Operation(op, args) =>
      exists i | 0 <= i < |args| :: LeadsTo(defs, n, args[i], uid) && !(op in WRITERS && i == 0)
    case Assigns(_, r) => LeadsTo(defs, n, r, uid)
    case Repeats(v, c, st) => LeadsTo(defs, n, v, uid) || LeadsTo(defs, n, c, uid) || LeadsTo(defs, n, st, uid)
    case Calls(c, args) =>
      && c < |defs| && |args| == |defs[c].formals|
      && exists i | 0 <= i < |args| :: LeadsTo(defs, n, args[i], uid) && !ByReference(defs[c].formals[i])
  }

  /** References, buffers, textures and acceleration structures; bindless arrays are only read. */
  predicate ByReference(f: Formal) {
    match f.tag
    case Reference => true
    case BufferTag => true
    case TextureTag => true
    case AccelTag => true
    case _ => false
  }

  /** A call hands variable p to the callee as its variable q. */
  predicate StepHands(defs: seq<Def>, s: Step, p: Place, q: Place) {
    && s.Calls? && s.callee == q.0 && q.0 < |defs| && |s.args| == |defs[q.0].formals|
    && exists i | 0 <= i < |s.args| ::
         && LeadsTo(defs, p.0, s.args[i], p.1)
         && ByReference(defs[q.0].formals[i]) && defs[q.0].formals[i].uid == q.1
  }

  predicate Hands(defs: seq<Def>, p: Place, q: Place) {
    p.0 < |defs| && exists k | 0 <= k < |defs[p.0].steps| :: StepHands(defs, defs[p.0].steps[k], p, q)
  }

  predicate WritesHere(defs: seq<Def>, p: Place) {
    p.0 < |defs| && exists k | 0 <= k < |defs[p.0].steps| :: StepWrites(defs, p.0, defs[p.0].steps[k], p.1)
  }

  predicate ReadsHere(defs: seq<Def>, p: Place) {
    p.0 < |defs| && exists k | 0 <= k < |defs[p.0].steps| :: StepReads(defs, p.0, defs[p.0].steps[k], p.1)
  }

  /** Each call of the chain hands its variable to the next one. */
  predicate Handed(defs: seq<Def>, chain: seq<Place>) {
    chain != [] && forall k | 0 <= k < |chain| - 1 :: Hands(defs, chain[k], chain[k + 1])
  }

  // ----- One function -----

  /** A mark of the right kind on an expression that leads to the variable. */
  predicate MarksPlace(defs: seq<Def>, p: Place, m: Mark, write: bool) {
    LeadsTo(defs, p.0, m.e, p.1) && if write then m.u.write else m.u.read
  }

  predicate Uses(u: Usage, write: bool) {
    if write then u.write else u.read
  }

  predicate Acts(defs: seq<Def>, n: nat, s: Step, uid: nat, write: bool) {
    if write then StepWrites(defs, n, s, uid) else StepReads(defs, n, s, uid)
  }

  lemma {:induction false} HistoryIsSteps(defs: seq<Def>, n: nat, k: nat, m: Mark)
    requires Fits(defs) && n < |defs| && k <= |defs[n].steps|
    ensures m in History(defs, n, k) <==>
            exists j | 0 <= j < k :: StepFits(defs, n, defs[n].steps[j]) && m in StepMarks(defs, n, defs[n].steps[j])
    decreases k
  {
    hide StepMarks, StepFits, Fits;
    if k > 0 {
      HistoryIsSteps(defs, n, k - 1, m);
      StepIsFit(defs, n, k - 1);
    }
  }

  lemma StepIsFit(defs: seq<Def>, n: nat, k: nat)
    requires Fits(defs) && n < |defs| && k < |defs[n].steps|
    ensures StepFits(defs, n, defs[n].steps[k])
  {
  }

  lemma ReadsMark(defs: seq<Def>, n: nat, es: seq<nat>, uid: nat, write: bool)
    ensures (exists m | m in ReadMarks(es) :: MarksPlace(defs, (n, uid), m, write)) <==>
            Acts(defs, n, Reads(es), uid, write)
  {
    var marks := ReadMarks(es);
    hide LeadsTo;
    if !write {
      if i :| 0 <= i < |es| && LeadsTo(defs, n, es[i], uid) {
        assert marks[i] in marks && MarksPlace(defs, (n, uid), marks[i], write);
      }
    }
  }

  lemma OperationMarks(defs: seq<Def>, n: nat, op: nat, args: seq<nat>, uid: nat, write: bool)
    requires op in WRITERS ==> args != []
    ensures (exists m | m in BuiltinCallMarks(op, args) :: MarksPlace(defs, (n, uid), m, write)) <==>
            Acts(defs, n, Operation(op, args), uid, write)
  {
    WritersAreNamed(op);
    var marks := BuiltinCallMarks(op, args);
    hide LeadsTo, WritesFirst;
    if write && op in WRITERS && LeadsTo(defs, n, args[0], uid) {
      assert marks[0] in marks && MarksPlace(defs, (n, uid), marks[0], write);
    }
    if !write {
      if i :| 0 <= i < |args| && LeadsTo(defs, n, args[i], uid) && !(op in WRITERS && i == 0) {
        assert marks[i] in marks && MarksPlace(defs, (n, uid), marks[i], write);
      }
    }
  }

  lemma CallMarks(defs: seq<Def>, n: nat, c: nat, args: seq<nat>, uid: nat, write: bool)
    requires Fits(defs) && n < |defs| && c < |defs| && |args| == |defs[c].formals|
    ensures (exists m | m in CustomCallMarks(Parameters(defs, c), args) :: MarksPlace(defs, (n, uid), m, write)) <==>
            || Acts(defs, n, Calls(c, args), uid, write)
            || exists q: Place ::
                 StepHands(defs, Calls(c, args), (n, uid), q) && q.0 < |defs| && Uses(UsageOf(defs, q.0, q.1), write)
  {
    var marks := CustomCallMarks(Parameters(defs, c), args);
    hide LeadsTo, UsageOf, Fits, ByReference, PassedUsage, StepHands, Acts;
    if m :| m in marks && MarksPlace(defs, (n, uid), m, write) {
      var i :| 0 <= i < |marks| && marks[i] == m;
      FromCallMark(defs, n, c, args, uid, write, i);
    }
    if Acts(defs, n, Calls(c, args), uid, write) {
      ToReadMark(defs, n, c, args, uid, write);
    }
    if q: Place :|
      StepHands(defs, Calls(c, args), (n, uid), q) && q.0 < |defs| && Uses(UsageOf(defs, q.0, q.1), write)
    {
      ToCallMark(defs, n, c, args, uid, write, q);
    }
  }

  lemma FromCallMark(defs: seq<Def>, n: nat, c: nat, args: seq<nat>, uid: nat, write: bool, i: nat)
    requires Fits(defs) && n < |defs| && c < |defs| && |args| == |defs[c].formals| && i < |args|
    requires MarksPlace(defs, (n, uid), CustomCallMarks(Parameters(defs, c), args)[i], write)
    ensures || Acts(defs, n, Calls(c, args), uid, write)
            || exists q: Place ::
                 StepHands(defs, Calls(c, args), (n, uid), q) && q.0 < |defs| && Uses(UsageOf(defs, q.0, q.1), write)
  {
    hide LeadsTo, UsageOf, Fits, ByReference, PassedUsage;
    ArgumentMark(defs, c, args, i);
    if ByReference(defs[c].formals[i]) {
      assert StepHands(defs, Calls(c, args), (n, uid), (c, defs[c].formals[i].uid));
    }
  }

  lemma ToReadMark(defs: seq<Def>, n: nat, c: nat, args: seq<nat>, uid: nat, write: bool)
    requires Fits(defs) && n < |defs| && c < |defs| && |args| == |defs[c].formals|
    requires Acts(defs, n, Calls(c, args), uid, write)
    ensures exists m | m in CustomCallMarks(Parameters(defs, c), args) :: MarksPlace(defs, (n, uid), m, write)
  {
    hide LeadsTo, UsageOf, Fits, ByReference, PassedUsage;
    var i :| 0 <= i < |args| && LeadsTo(defs, n, args[i], uid) && !ByReference(defs[c].formals[i]);
    ArgumentMark(defs, c, args, i);
    var m := CustomCallMarks(Parameters(defs, c), args)[i];
    assert MarksPlace(defs, (n, uid), m, write);
  }

  lemma ToCallMark(defs: seq<Def>, n: nat, c: nat, args: seq<nat>, uid: nat, write: bool, q: Place)
    requires Fits(defs) && n < |defs| && c < |defs| && |args| == |defs[c].formals|
    requires StepHands(defs, Calls(c, args), (n, uid), q) && q.0 < |defs| && Uses(UsageOf(defs, q.0, q.1), write)
    ensures exists m | m in CustomCallMarks(Parameters(defs, c), args) :: MarksPlace(defs, (n, uid), m, write)
  {
    hide LeadsTo, UsageOf, Fits, ByReference, PassedUsage;
    var fs := defs[c].formals;
    var i :| 0 <= i < |args| && LeadsTo(defs, n, args[i], uid) && ByReference(fs[i]) && fs[i].uid == q.1;
    ArgumentMark(defs, c, args, i);
    var m := CustomCallMarks(Parameters(defs, c), args)[i];
    assert MarksPlace(defs, (n, uid), m, write);
  }

  /** An argument is marked as the callee uses its parameter, or as read. */
  lemma ArgumentMark(defs: seq<Def>, c: nat, args: seq<nat>, i: nat)
    requires Fits(defs) && c < |defs| && |args| == |defs[c].formals| && i < |args|
    ensures var f := defs[c].formals[i];
            CustomCallMarks(Parameters(defs, c), args)[i]
            == Mark(args[i], if ByReference(f) then UsageOf(defs, c, f.uid) else READ)
  {
    hide UsageOf, Fits;
  }

  /** One step marks a variable as the step says, or as a callee says of the parameter it is handed to. */
  lemma StepMarksIff(defs: seq<Def>, n: nat, s: Step, uid: nat, write: bool)
    requires Fits(defs) && n < |defs| && StepFits(defs, n, s)
    ensures (exists m | m in StepMarks(defs, n, s) :: MarksPlace(defs, (n, uid), m, write)) <==>
            || Acts(defs, n, s, uid, write)
            || exists q: Place ::
                 StepHands(defs, s, (n, uid), q) && q.0 < |defs| && Uses(UsageOf(defs, q.0, q.1), write)
  {
    hide LeadsTo, UsageOf, Fits;
    match s
    case Reads(es) => ReadsMark(defs, n, es, uid, write);
    case Operation(op, args) => OperationMarks(defs, n, op, args, uid, write);
    case Assigns(l, r) =>
      var marks := StepMarks(defs, n, s);
      assert marks[0] in marks && marks[1] in marks;
      assert MarksPlace(defs, (n, uid), marks[0], write) == (write && LeadsTo(defs, n, l, uid));
      assert MarksPlace(defs, (n, uid), marks[1], write) == (!write && LeadsTo(defs, n, r, uid));
    case Repeats(v, c, st) =>
      var marks := StepMarks(defs, n, s);
      assert marks[0] in marks && marks[1] in marks && marks[2] in marks;
      assert MarksPlace(defs, (n, uid), marks[0], write) == LeadsTo(defs, n, v, uid);
      assert MarksPlace(defs, (n, uid), marks[1], write) == (!write && LeadsTo(defs, n, c, uid));
      assert MarksPlace(defs, (n, uid), marks[2], write) == (!write && LeadsTo(defs, n, st, uid));
    case Calls(c, args) => CallMarks(defs, n, c, args, uid, write);
  }

  predicate ActsHere(defs: seq<Def>, p: Place, write: bool) {
    if write then WritesHere(defs, p) else ReadsHere(defs, p)
  }

  /** A function uses its variable itself, or hands it to a callee that uses its own. */
  lemma UsedHereOrBelow(defs: seq<Def>, p: Place, write: bool)
    requires Fits(defs) && p.0 < |defs|
    ensures Uses(UsageOf(defs, p.0, p.1), write) <==>
            || ActsHere(defs, p, write)
            || exists q: Place :: Hands(defs, p, q) && q.0 < |defs| && Uses(UsageOf(defs, q.0, q.1), write)
  {
    var n := p.0;
    var steps := defs[n].steps;
    MarkedPlace(defs, p, History(defs, n, |steps|), write);
    hide Fits, StepHands, StepWrites, StepReads, History, Collected, MarksPlace;
    if m :| m in History(defs, n, |steps|) && MarksPlace(defs, p, m, write) {
      StepOfMark(defs, p, m, write);
    }
    if ActsHere(defs, p, write) {
      var j :| 0 <= j < |steps| && Acts(defs, n, steps[j], p.1, write);
      MarkedByStep(defs, p, j, write);
    }
    if q: Place :| Hands(defs, p, q) && q.0 < |defs| && Uses(UsageOf(defs, q.0, q.1), write) {
      var j :| 0 <= j < |steps| && StepHands(defs, steps[j], p, q);
      MarkedByStep(defs, p, j, write);
    }
  }

  lemma StepOfMark(defs: seq<Def>, p: Place, m: Mark, write: bool)
    requires Fits(defs) && p.0 < |defs|
    requires m in History(defs, p.0, |defs[p.0].steps|) && MarksPlace(defs, p, m, write)
    ensures || ActsHere(defs, p, write)
            || exists q: Place :: Hands(defs, p, q) && q.0 < |defs| && Uses(UsageOf(defs, q.0, q.1), write)
  {
    hide StepMarks, StepFits, Fits, StepHands, StepWrites, StepReads, History, UsageOf, MarksPlace;
    var steps := defs[p.0].steps;
    HistoryIsSteps(defs, p.0, |steps|, m);
    var j :| 0 <= j < |steps| && StepFits(defs, p.0, steps[j]) && m in StepMarks(defs, p.0, steps[j]);
    assert p == (p.0, p.1);
    StepMarksIff(defs, p.0, steps[j], p.1, write);
  }

  lemma MarkedPlace(defs: seq<Def>, p: Place, marks: seq<Mark>, write: bool)
    requires p.0 < |defs| && InRange(marks, |defs[p.0].nodes|)
    ensures Uses(Collected(defs[p.0].nodes, marks, p.1), write) <==>
            exists m | m in marks :: MarksPlace(defs, p, m, write)
  {
    var nodes := defs[p.0].nodes;
    MarkedIff(nodes, marks, p.1);
    hide Root, Collected;
    if m :| m in marks && MarksPlace(defs, p, m, write) {
      var i :| 0 <= i < |marks| && marks[i] == m;
    }
    if write {
      if i :| 0 <= i < |marks| && marks[i].u.write && Root(nodes, marks[i].e) == Some(p.1) {
        assert marks[i] in marks && MarksPlace(defs, p, marks[i], write);
      }
    } else {
      if i :| 0 <= i < |marks| && marks[i].u.read && Root(nodes, marks[i].e) == Some(p.1) {
        assert marks[i] in marks && MarksPlace(defs, p, marks[i], write);
      }
    }
  }

  lemma MarkedByStep(defs: seq<Def>, p: Place, j: nat, write: bool)
    requires Fits(defs) && p.0 < |defs| && j < |defs[p.0].steps|
    requires var s := defs[p.0].steps[j];
             || Acts(defs, p.0, s, p.1, write)
             || exists q: Place :: StepHands(defs, s, p, q) && q.0 < |defs| && Uses(UsageOf(defs, q.0, q.1), write)
    ensures exists m | m in History(defs, p.0, |defs[p.0].steps|) :: MarksPlace(defs, p, m, write)
  {
    hide StepMarks, StepFits, Fits, StepHands, Acts, History, UsageOf, MarksPlace;
    StepIsFit(defs, p.0, j);
    var s := defs[p.0].steps[j];
    StepMarksIff(defs, p.0, s, p.1, write);
    var m :| m in StepMarks(defs, p.0, s) && MarksPlace(defs, (p.0, p.1), m, write);
    HistoryIsSteps(defs, p.0, |defs[p.0].steps|, m);
  }

  // ----- All functions -----

  lemma HandsDown(defs: seq<Def>, p: Place, q: Place)
    requires Fits(defs) && Hands(defs, p, q)
    ensures q.0 < p.0 < |defs|
  {
    var k :| 0 <= k < |defs[p.0].steps| && StepHands(defs, defs[p.0].steps[k], p, q);
    StepIsFit(defs, p.0, k);
  }

  lemma {:induction false} ChainFromUse(defs: seq<Def>, p: Place, write: bool) returns (chain: seq<Place>)
    requires Fits(defs) && p.0 < |defs| && Uses(UsageOf(defs, p.0, p.1), write)
    ensures Handed(defs, chain) && chain[0] == p && ActsHere(defs, chain[|chain| - 1], write)
    decreases p.0
  {
    hide UsageOf, Fits, Hands, ActsHere;
    UsedHereOrBelow(defs, p, write);
    if ActsHere(defs, p, write) {
      chain := [p];
    } else {
      var q: Place :| Hands(defs, p, q) && q.0 < |defs| && Uses(UsageOf(defs, q.0, q.1), write);
      HandsDown(defs, p, q);
      var rest := ChainFromUse(defs, q, write);
      chain := [p] + rest;
      forall k | 0 <= k < |chain| - 1 ensures Hands(defs, chain[k], chain[k + 1]) {
        assert k > 0 ==> chain[k] == rest[k - 1] && chain[k + 1] == rest[k - 1 + 1];
      }
    }
  }

  lemma {:induction false} UseFromChain(defs: seq<Def>, chain: seq<Place>, write: bool)
    requires Fits(defs) && Handed(defs, chain) && ActsHere(defs, chain[|chain| - 1], write)
    ensures chain[0].0 < |defs| && Uses(UsageOf(defs, chain[0].0, chain[0].1), write)
    decreases |chain|
  {
    if |chain| == 1 {
      assert chain[0].0 < |defs|;
    } else {
      hide UsageOf, Fits, Hands, ActsHere;
      var rest := chain[1..];
      forall k | 0 <= k < |rest| - 1 ensures Hands(defs, rest[k], rest[k + 1]) {
        assert Hands(defs, chain[k + 1], chain[k + 1 + 1]);
      }
      UseFromChain(defs, rest, write);
      assert Hands(defs, chain[0], chain[0 + 1]);
      HandsDown(defs, chain[0], chain[1]);
    }
    UsedHereOrBelow(defs, chain[0], write);
  }

  /**
   * A variable is marked as written if and only if a chain of calls hands it by reference to a
   * function that writes it itself: with an assignment, as the variable of a for-loop, or with
   * an operation that writes.
   */
  lemma WrittenIff(defs: seq<Def>, n: nat, uid: nat)
    requires Fits(defs) && n < |defs|
    ensures UsageOf(defs, n, uid).write <==>
            exists chain :: Handed(defs, chain) && chain[0] == (n, uid) && WritesHere(defs, chain[|chain| - 1])
  {
    if UsageOf(defs, n, uid).write {
      var chain := ChainFromUse(defs, (n, uid), true);
    }
    hide UsageOf;
    if chain :| Handed(defs, chain) && chain[0] == (n, uid) && WritesHere(defs, chain[|chain| - 1]) {
      UseFromChain(defs, chain, true);
    }
  }

  /** And it is marked as read if and only if such a chain leads to a function that reads it itself. */
  lemma ReadIff(defs: seq<Def>, n: nat, uid: nat)
    requires Fits(defs) && n < |defs|
    ensures UsageOf(defs, n, uid).read <==>
            exists chain :: Handed(defs, chain) && chain[0] == (n, uid) && ReadsHere(defs, chain[|chain| - 1])
  {
    if UsageOf(defs, n, uid).read {
      var chain := ChainFromUse(defs, (n, uid), false);
    }
    hide UsageOf;
    if chain :| Handed(defs, chain) && chain[0] == (n, uid) && ReadsHere(defs, chain[|chain| - 1]) {
      UseFromChain(defs, chain, false);
    }
  }
}
