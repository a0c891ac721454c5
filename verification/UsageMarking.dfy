/**
 * How expressions and variables are marked as read and written
 * (src/ast/expression.{h,cpp}, src/ast/function_builder.cpp:309-313).
 *
 * An expression is identified with its position among the expressions the builder has
 * made; the operands of an expression are made before it.
 */
module UsageMarking {
  import opened Types
  import Ast

  datatype Usage = Usage(read: bool, write: bool)
  {
    function Or(u: Usage): Usage {
      Usage(read || u.read, write || u.write)
    }

    predicate Within(u: Usage) {
      (read ==> u.read) && (write ==> u.write)
    }
  }

  const NONE := Usage(false, false)
  const READ := Usage(true, false)
  const WRITE := Usage(false, true)
  const READ_WRITE := Usage(true, true)

  /** What marking an expression passes the mark on to: the range of an access, the object of a member, a variable. */
  datatype Node = Chain(child: nat) | Reference(uid: nat) | Opaque

  predicate Formed(nodes: seq<Node>, variables: nat) {
    forall e | 0 <= e < |nodes| ::
      match nodes[e]
      case Chain(child) => child < e
      case Reference(uid) => uid < variables
      case Opaque => true
  }

  /** The variable at the end of the chain. */
  function Root(nodes: seq<Node>, e: nat): (r: Option<nat>)
    requires e < |nodes|
    decreases e
  {
    match nodes[e]
    case Chain(child) => if child < e then Root(nodes, child) else None
    case Reference(uid) => Some(uid)
    case Opaque => None
  }

  /** The naive walk: follow the chain to the variable, always. */
  function NaiveMark(nodes: seq<Node>, table: seq<Usage>, e: nat, u: Usage): (r: seq<Usage>)
    requires e < |nodes|
    ensures |r| == |table|
  {
    match Root(nodes, e)
    case Some(uid) => if uid < |table| then table[uid := table[uid].Or(u)] else table
    case None => table
  }

  datatype Mark = Mark(e: nat, u: Usage)

  predicate InRange(marks: seq<Mark>, n: nat) {
    forall i | 0 <= i < |marks| :: marks[i].e < n
  }

  function NaiveMarks(nodes: seq<Node>, table: seq<Usage>, marks: seq<Mark>): (r: seq<Usage>)
    requires InRange(marks, |nodes|)
    ensures |r| == |table|
  {
    if marks == [] then table else
      var last := marks[|marks| - 1];
      NaiveMark(nodes, NaiveMarks(nodes, table, marks[..|marks| - 1]), last.e, last.u)
  }

  /** The mark of a node is within that of the next node of its chain, and within its variable's entry. */
  predicate Passed(nodes: seq<Node>, usage: seq<Usage>, table: seq<Usage>, e: nat)
    requires e < |nodes| == |usage|
  {
    match nodes[e]
    case Chain(child) => child < e && usage[e].Within(usage[child])
    case Reference(uid) => uid < |table| && usage[e].Within(table[uid])
    case Opaque => true
  }

  /** `Passed` for all nodes below n. */
  predicate PassedBelow(nodes: seq<Node>, usage: seq<Usage>, table: seq<Usage>, n: nat)
    requires n <= |nodes| == |usage|
  {
    forall e | 0 <= e < n :: Passed(nodes, usage, table, e)
  }

  /** So what a node is marked with, its variable is marked with. */
  lemma {:induction false} RootHasMark(nodes: seq<Node>, usage: seq<Usage>, table: seq<Usage>, e: nat)
    requires e < |nodes| == |usage| && PassedBelow(nodes, usage, table, e + 1)
    ensures var r := Root(nodes, e);
            r.Some? ==> r.value < |table| && usage[e].Within(table[r.value])
    decreases e
  {
    assert Passed(nodes, usage, table, e);
    if nodes[e].Chain? {
      RootHasMark(nodes, usage, table, nodes[e].child);
    }
  }

  predicate Grew(a: seq<Usage>, b: seq<Usage>) {
    |a| == |b| && forall i | 0 <= i < |a| :: a[i].Within(b[i])
  }

  /** What the marks of expressions with this root add up to. */
  function Collected(nodes: seq<Node>, marks: seq<Mark>, uid: nat): Usage
    requires InRange(marks, |nodes|)
  {
    if marks == [] then NONE else
      var last := marks[|marks| - 1];
      var front := Collected(nodes, marks[..|marks| - 1], uid);
      if Root(nodes, last.e) == Some(uid) then front.Or(last.u) else front
  }

  predicate Explained(nodes: seq<Node>, history: seq<Mark>, table: seq<Usage>) {
    InRange(history, |nodes|) && forall uid | 0 <= uid < |table| :: table[uid] == Collected(nodes, history, uid)
  }

  class Expressions {
    var nodes: seq<Node>
    /** _usage of each expression */
    var usage: seq<Usage>
    /** _variable_usages of the builder */
    var table: seq<Usage>

    /** All marks that constructors made. */
    ghost var history: seq<Mark>

    /** The table says of each variable what the naive walks of all marks together say. */
    ghost predicate Valid()
      reads this
    {
      && |usage| == |nodes|
      && Formed(nodes, |table|)
      && PassedBelow(nodes, usage, table, |nodes|)
      && Explained(nodes, history, table)
    }

    constructor ()
      ensures Valid() && nodes == [] && table == [] && history == []
    {
      nodes, usage, table, history := [], [], [], [];
    }

    method NextVariableUid() returns (uid: nat)
      requires Valid()
      modifies this
      ensures Valid() && nodes == old(nodes) && history == old(history)
      ensures uid == |old(table)| && table == old(table) + [NONE]
    {
      uid := |table|;
      table := table + [NONE];
      assert forall e | 0 <= e < |nodes| :: Passed(nodes, usage, old(table), e) ==> Passed(nodes, usage, table, e);
      NoRootYet(nodes, history, uid);
    }

    method MarkVariableUsage(uid: nat, u: Usage)
      requires uid < |table|
      modifies this`table
      ensures table == old(table)[uid := old(table[uid]).Or(u)]
    {
      table := table[uid := table[uid].Or(u)];
    }

    /** Expression::mark with the _mark overrides: stops where the mark is already set. */
    method MarkExpr(e: nat, u: Usage)
      requires e < |nodes| == |usage| && Formed(nodes, |table|)
      requires PassedBelow(nodes, usage, table, e + 1)
      modifies this`usage, this`table
      ensures table == NaiveMark(nodes, old(table), e, u)
      ensures |usage| == |nodes| && PassedBelow(nodes, usage, table, e + 1)
      ensures Grew(old(usage), usage) && u.Within(usage[e])
      ensures forall i | e < i < |nodes| :: usage[i] == old(usage[i])
      decreases e
    {
      RootHasMark(nodes, usage, table, e);
      var a := usage[e];
      if a.Or(u) != a {
        assert Passed(nodes, usage, table, e);
        usage := usage[e := a.Or(u)];
        match nodes[e] {
          case Chain(child) =>
            assert forall i | 0 <= i < e :: Passed(nodes, old(usage), table, i) ==> Passed(nodes, usage, table, i);
            MarkExpr(child, u);
            StillPassed(nodes, old(usage), old(table), usage, table, child, e, u);
          case Reference(uid) =>
            MarkVariableUsage(uid, u);
            assert forall i | 0 <= i < e :: Passed(nodes, old(usage), old(table), i) ==> Passed(nodes, usage, table, i);
          case Opaque =>
            assert forall i | 0 <= i < e :: Passed(nodes, old(usage), table, i) ==> Passed(nodes, usage, table, i);
        }
      }
    }

    /** The marks a constructor makes, in order. */
    method MarkAll(marks: seq<Mark>)
      requires Valid() && InRange(marks, |nodes|)
      modifies this`usage, this`table, this`history
      ensures Valid() && table == NaiveMarks(nodes, old(table), marks)
      ensures history == old(history) + marks
    {
      for i := 0 to |marks|
        invariant history == old(history) && |usage| == |nodes| && |table| == |old(table)|
        invariant PassedBelow(nodes, usage, table, |nodes|)
        invariant table == NaiveMarks(nodes, old(table), marks[..i])
      {
        ghost var usage0, table0 := usage, table;
        assert marks[..i + 1][..i] == marks[..i];
        BelowPassed(nodes, usage, table, marks[i].e);
        MarkExpr(marks[i].e, marks[i].u);
        AllStillPassed(nodes, usage0, table0, usage, table, marks[i].e);
      }
      assert marks[..|marks|] == marks;
      history := history + marks;
      StillExplained(nodes, old(history), old(table), marks);
    }

    /** A new expression, whose constructor marks its operands. */
    method Make(node: Node, marks: seq<Mark>) returns (e: nat)
      requires Valid() && InRange(marks, |nodes|)
      requires node.Chain? ==> node.child < |nodes|
      requires node.Reference? ==> node.uid < |table|
      modifies this
      ensures Valid()
      ensures e == |old(nodes)| && nodes == old(nodes) + [node]
      ensures table == NaiveMarks(nodes, old(table), marks)
      ensures history == old(history) + marks
    {
      e := |nodes|;
      MadePassed(nodes, usage, table, node);
      MadeExplained(nodes, history, table, node);
      nodes := nodes + [node];
      usage := usage + [NONE];
      MarkAll(marks);
    }

    method MakeUnary(operand: nat) returns (e: nat)
      requires Valid() && operand < |nodes|
      modifies this
      ensures Valid() && e == |old(nodes)| && nodes == old(nodes) + [Opaque]
      ensures table == NaiveMarks(nodes, old(table), [Mark(operand, READ)])
      ensures history == old(history) + [Mark(operand, READ)]
    {
      e := Make(Opaque, [Mark(operand, READ)]);
    }

    method MakeBinary(lhs: nat, rhs: nat) returns (e: nat)
      requires Valid() && lhs < |nodes| && rhs < |nodes|
      modifies this
      ensures Valid() && e == |old(nodes)| && nodes == old(nodes) + [Opaque]
      ensures table == NaiveMarks(nodes, old(table), [Mark(lhs, READ), Mark(rhs, READ)])
      ensures history == old(history) + [Mark(lhs, READ), Mark(rhs, READ)]
    {
      e := Make(Opaque, [Mark(lhs, READ), Mark(rhs, READ)]);
    }

    /** Members do not mark the object they are taken from. */
    method MakeMember(self: nat) returns (e: nat)
      requires Valid() && self < |nodes|
      modifies this
      ensures Valid() && e == |old(nodes)| && nodes == old(nodes) + [Chain(self)]
      ensures table == old(table)
    {
      e := Make(Chain(self), []);
    }

    method MakeAccess(range: nat, index: nat) returns (e: nat)
      requires Valid() && range < |nodes| && index < |nodes|
      modifies this
      ensures Valid() && e == |old(nodes)| && nodes == old(nodes) + [Chain(range)]
      ensures table == NaiveMarks(nodes, old(table), [Mark(range, READ), Mark(index, READ)])
      ensures history == old(history) + [Mark(range, READ), Mark(index, READ)]
    {
      e := Make(Chain(range), [Mark(range, READ), Mark(index, READ)]);
    }

    method MakeRef(uid: nat) returns (e: nat)
      requires Valid() && uid < |table|
      modifies this
      ensures Valid() && e == |old(nodes)| && nodes == old(nodes) + [Reference(uid)]
      ensures table == old(table)
    {
      e := Make(Reference(uid), []);
    }

    /** Built-in operations write to their first argument or read all of them. */
    method MakeBuiltinCall(op: nat, args: seq<nat>) returns (e: nat)
      requires Valid() && forall i | 0 <= i < |args| :: args[i] < |nodes|
      requires op in WRITERS ==> args != []
      modifies this
      ensures Valid() && e == |old(nodes)| && nodes == old(nodes) + [Opaque]
      ensures table == NaiveMarks(nodes, old(table), BuiltinCallMarks(op, args))
      ensures history == old(history) + BuiltinCallMarks(op, args)
      ensures forall uid | 0 <= uid < |table| ::
                && (table[uid].write <==>
                      old(table)[uid].write || (op in WRITERS && Root(nodes, args[0]) == Some(uid)))
                && (table[uid].read <==>
                      || old(table)[uid].read
                      || exists i :: 0 <= i < |args| && Root(nodes, args[i]) == Some(uid) && !(op in WRITERS && i == 0))
    {
      BuiltinCallEffect(nodes + [Opaque], table, op, args);
      e := Make(Opaque, BuiltinCallMarks(op, args));
    }

    /**
     * An argument is marked as written if the callee writes the parameter it is passed to, and
     * that is a reference or a resource; all other parameters only read their arguments.
     */
    method MakeCustomCall(parameters: seq<Parameter>, args: seq<nat>) returns (e: nat)
      requires Valid() && |parameters| == |args| && forall i | 0 <= i < |args| :: args[i] < |nodes|
      modifies this
      ensures Valid() && e == |old(nodes)| && nodes == old(nodes) + [Opaque]
      ensures table == NaiveMarks(nodes, old(table), CustomCallMarks(parameters, args))
      ensures history == old(history) + CustomCallMarks(parameters, args)
      ensures forall uid | 0 <= uid < |table| ::
                && (table[uid].write <==>
                      || old(table)[uid].write
                      || exists i :: 0 <= i < |args| && Root(nodes, args[i]) == Some(uid) && parameters[i].usage.write
                           && parameters[i].tag in {Ast.Reference, Ast.BufferTag, Ast.TextureTag, Ast.AccelTag})
                && (table[uid].read <==>
                      || old(table)[uid].read
                      || exists i :: 0 <= i < |args| && Root(nodes, args[i]) == Some(uid)
                           && (parameters[i].usage.read
                               || parameters[i].tag !in {Ast.Reference, Ast.BufferTag, Ast.TextureTag, Ast.AccelTag}))
    {
      CustomCallEffect(nodes + [Opaque], table, parameters, args);
      e := Make(Opaque, CustomCallMarks(parameters, args));
    }

    method Assign(lhs: nat, rhs: nat)
      requires Valid() && lhs < |nodes| && rhs < |nodes|
      modifies this`usage, this`table, this`history
      ensures Valid() && table == NaiveMarks(nodes, old(table), [Mark(lhs, WRITE), Mark(rhs, READ)])
      ensures history == old(history) + [Mark(lhs, WRITE), Mark(rhs, READ)]
      ensures forall uid | 0 <= uid < |table| ::
                && (table[uid].write <==> old(table)[uid].write || Root(nodes, lhs) == Some(uid))
                && (table[uid].read <==> old(table)[uid].read || Root(nodes, rhs) == Some(uid))
    {
      AssignEffect(nodes, table, lhs, rhs);
      MarkAll([Mark(lhs, WRITE), Mark(rhs, READ)]);
    }

    method For(variable: nat, cond: nat, step: nat)
      requires Valid() && variable < |nodes| && cond < |nodes| && step < |nodes|
      modifies this`usage, this`table, this`history
      ensures Valid()
      ensures table == NaiveMarks(nodes, old(table), [Mark(variable, READ_WRITE), Mark(cond, READ), Mark(step, READ)])
      ensures history == old(history) + [Mark(variable, READ_WRITE), Mark(cond, READ), Mark(step, READ)]
    {
      MarkAll([Mark(variable, READ_WRITE), Mark(cond, READ), Mark(step, READ)]);
    }
  }

  // operations of src/ast/op.h
  const ATOMIC_EXCHANGE: nat := 55
  const ATOMIC_COMPARE_EXCHANGE: nat := 56
  const ATOMIC_FETCH_ADD: nat := 57
  const ATOMIC_FETCH_SUB: nat := 58
  const ATOMIC_FETCH_AND: nat := 59
  const ATOMIC_FETCH_OR: nat := 60
  const ATOMIC_FETCH_XOR: nat := 61
  const ATOMIC_FETCH_MIN: nat := 62
  const ATOMIC_FETCH_MAX: nat := 63
  const BUFFER_WRITE: nat := 65
  const TEXTURE_WRITE: nat := 67
  const SET_INSTANCE_TRANSFORM: nat := 101
  const SET_INSTANCE_VISIBILITY: nat := 102

  /** The operations that write to what their first argument refers to. */
  const WRITERS: set<nat> := {
    BUFFER_WRITE, TEXTURE_WRITE, SET_INSTANCE_TRANSFORM, SET_INSTANCE_VISIBILITY,
    ATOMIC_EXCHANGE, ATOMIC_COMPARE_EXCHANGE, ATOMIC_FETCH_ADD, ATOMIC_FETCH_SUB, ATOMIC_FETCH_AND,
    ATOMIC_FETCH_OR, ATOMIC_FETCH_XOR, ATOMIC_FETCH_MIN, ATOMIC_FETCH_MAX}

  /** Those of one kind have consecutive numbers. */
  predicate WritesFirst(op: nat) {
    || op == BUFFER_WRITE || op == TEXTURE_WRITE
    || op == SET_INSTANCE_TRANSFORM || op == SET_INSTANCE_VISIBILITY
    || ATOMIC_EXCHANGE <= op <= ATOMIC_FETCH_MAX
  }

  lemma WritersAreNamed(op: nat)
    ensures WritesFirst(op) <==> op in WRITERS
  {
  }

  function BuiltinCallMarks(op: nat, args: seq<nat>): (r: seq<Mark>)
    ensures |r| == |args| && forall i | 0 <= i < |args| ::
              r[i] == Mark(args[i], if WritesFirst(op) && i == 0 then WRITE else READ)
  {
    seq(|args|, i requires 0 <= i < |args| => Mark(args[i], if WritesFirst(op) && i == 0 then WRITE else READ))
  }

  /** A parameter of a callable, and how the callable uses it. */
  datatype Parameter = Parameter(tag: Ast.Tag, usage: Usage)

  function CustomCallMarks(parameters: seq<Parameter>, args: seq<nat>): (r: seq<Mark>)
    requires |parameters| == |args|
    ensures |r| == |args| && forall i | 0 <= i < |args| ::
              r[i] == Mark(args[i], PassedUsage(parameters[i]))
  {
    seq(|args|, i requires 0 <= i < |args| => Mark(args[i], PassedUsage(parameters[i])))
  }

  function PassedUsage(p: Parameter): Usage {
    if p.tag.Reference? || p.tag.BufferTag? || p.tag.AccelTag? || p.tag.TextureTag? then p.usage else READ
  }

  // ----- What the marks of a constructor say of a variable -----

  lemma MarksEffect(nodes: seq<Node>, table: seq<Usage>, marks: seq<Mark>, uid: nat)
    requires InRange(marks, |nodes|) && uid < |table|
    ensures NaiveMarks(nodes, table, marks)[uid].write <==>
            || table[uid].write
            || exists i :: 0 <= i < |marks| && marks[i].u.write && Root(nodes, marks[i].e) == Some(uid)
    ensures NaiveMarks(nodes, table, marks)[uid].read <==>
            || table[uid].read
            || exists i :: 0 <= i < |marks| && marks[i].u.read && Root(nodes, marks[i].e) == Some(uid)
  {
    TableIsCollected(nodes, table, marks, uid);
    MarkedIff(nodes, marks, uid);
  }

  lemma AssignEffect(nodes: seq<Node>, table: seq<Usage>, lhs: nat, rhs: nat)
    requires lhs < |nodes| && rhs < |nodes|
    ensures var after := NaiveMarks(nodes, table, [Mark(lhs, WRITE), Mark(rhs, READ)]);
            forall uid | 0 <= uid < |table| ::
              && (after[uid].write <==> table[uid].write || Root(nodes, lhs) == Some(uid))
              && (after[uid].read <==> table[uid].read || Root(nodes, rhs) == Some(uid))
  {
    var marks := [Mark(lhs, WRITE), Mark(rhs, READ)];
    hide Root, NaiveMarks;
    forall uid: nat | uid < |table|
      ensures NaiveMarks(nodes, table, marks)[uid].write <==> table[uid].write || Root(nodes, lhs) == Some(uid)
      ensures NaiveMarks(nodes, table, marks)[uid].read <==> table[uid].read || Root(nodes, rhs) == Some(uid)
    {
      MarksEffect(nodes, table, marks, uid);
      TwoMarks(nodes, lhs, rhs, uid);
    }
  }

  lemma TwoMarks(nodes: seq<Node>, lhs: nat, rhs: nat, uid: nat)
    requires lhs < |nodes| && rhs < |nodes|
    ensures var marks := [Mark(lhs, WRITE), Mark(rhs, READ)];
            && ((exists i :: 0 <= i < |marks| && marks[i].u.write && Root(nodes, marks[i].e) == Some(uid)) <==>
                Root(nodes, lhs) == Some(uid))
            && ((exists i :: 0 <= i < |marks| && marks[i].u.read && Root(nodes, marks[i].e) == Some(uid)) <==>
                Root(nodes, rhs) == Some(uid))
  {
    hide Root;
    var marks := [Mark(lhs, WRITE), Mark(rhs, READ)];
    assert marks[0].u.write && !marks[0].u.read && marks[1].u.read && !marks[1].u.write;
  }

  lemma BuiltinCallEffect(nodes: seq<Node>, table: seq<Usage>, op: nat, args: seq<nat>)
    requires forall i | 0 <= i < |args| :: args[i] < |nodes|
    requires op in WRITERS ==> args != []
    ensures var after := NaiveMarks(nodes, table, BuiltinCallMarks(op, args));
            forall uid | 0 <= uid < |table| ::
              && (after[uid].write <==> table[uid].write || (op in WRITERS && Root(nodes, args[0]) == Some(uid)))
              && (after[uid].read <==>
                    || table[uid].read
                    || exists i :: 0 <= i < |args| && Root(nodes, args[i]) == Some(uid) && !(op in WRITERS && i == 0))
  {
    var marks := BuiltinCallMarks(op, args);
    WritersAreNamed(op);
    hide Root, WritesFirst, NaiveMarks;
    forall uid: nat | uid < |table|
      ensures NaiveMarks(nodes, table, marks)[uid].write <==>
              table[uid].write || (op in WRITERS && Root(nodes, args[0]) == Some(uid))
      ensures NaiveMarks(nodes, table, marks)[uid].read <==>
              || table[uid].read
              || exists i :: 0 <= i < |args| && Root(nodes, args[i]) == Some(uid) && !(op in WRITERS && i == 0)
    {
      MarksEffect(nodes, table, marks, uid);
      if op in WRITERS && Root(nodes, args[0]) == Some(uid) {
        assert marks[0].u.write;
      }
      if i :| 0 <= i < |args| && Root(nodes, args[i]) == Some(uid) && !(op in WRITERS && i == 0) {
        assert marks[i].u.read;
      }
    }
  }

  lemma CustomCallEffect(nodes: seq<Node>, table: seq<Usage>, parameters: seq<Parameter>, args: seq<nat>)
    requires |parameters| == |args| && forall i | 0 <= i < |args| :: args[i] < |nodes|
    ensures var after := NaiveMarks(nodes, table, CustomCallMarks(parameters, args));
            forall uid | 0 <= uid < |table| ::
              && (after[uid].write <==>
                    || table[uid].write
                    || exists i :: 0 <= i < |args| && Root(nodes, args[i]) == Some(uid) && parameters[i].usage.write
                         && parameters[i].tag in {Ast.Reference, Ast.BufferTag, Ast.TextureTag, Ast.AccelTag})
              && (after[uid].read <==>
                    || table[uid].read
                    || exists i :: 0 <= i < |args| && Root(nodes, args[i]) == Some(uid)
                         && (parameters[i].usage.read
                             || parameters[i].tag !in {Ast.Reference, Ast.BufferTag, Ast.TextureTag, Ast.AccelTag}))
  {
    var marks := CustomCallMarks(parameters, args);
    hide Root, NaiveMarks;
    forall i | 0 <= i < |args|
      ensures marks[i].u.write <==> parameters[i].usage.write && PassedByReference(parameters[i])
      ensures marks[i].u.read <==> parameters[i].usage.read || !PassedByReference(parameters[i])
    {
    }
    forall uid: nat | uid < |table|
      ensures NaiveMarks(nodes, table, marks)[uid].write <==>
              || table[uid].write
              || exists i :: 0 <= i < |args| && Root(nodes, args[i]) == Some(uid) && parameters[i].usage.write
                   && PassedByReference(parameters[i])
      ensures NaiveMarks(nodes, table, marks)[uid].read <==>
              || table[uid].read
              || exists i :: 0 <= i < |args| && Root(nodes, args[i]) == Some(uid)
                   && (parameters[i].usage.read || !PassedByReference(parameters[i]))
    {
      MarksEffect(nodes, table, marks, uid);
    }
  }

  predicate PassedByReference(p: Parameter) {
    p.tag in {Ast.Reference, Ast.BufferTag, Ast.TextureTag, Ast.AccelTag}
  }

  lemma BelowPassed(nodes: seq<Node>, usage: seq<Usage>, table: seq<Usage>, e: nat)
    requires e < |nodes| == |usage| && PassedBelow(nodes, usage, table, |nodes|)
    ensures PassedBelow(nodes, usage, table, e + 1)
  {
  }

  lemma AllStillPassed(
    nodes: seq<Node>, usage0: seq<Usage>, table0: seq<Usage>, usage: seq<Usage>, table: seq<Usage>, e: nat)
    requires e < |nodes| == |usage0| == |usage| && |table0| == |table|
    requires PassedBelow(nodes, usage0, table0, |nodes|) && PassedBelow(nodes, usage, table, e + 1)
    requires Grew(usage0, usage) && Grew(table0, table)
    requires forall i | e < i < |nodes| :: usage[i] == usage0[i]
    ensures PassedBelow(nodes, usage, table, |nodes|)
  {
    forall i | 0 <= i < |nodes|
      ensures Passed(nodes, usage, table, i)
    {
      assert Passed(nodes, usage0, table0, i);
    }
  }

  lemma MadePassed(nodes: seq<Node>, usage: seq<Usage>, table: seq<Usage>, node: Node)
    requires |nodes| == |usage| && PassedBelow(nodes, usage, table, |nodes|)
    requires node.Chain? ==> node.child < |nodes|
    requires node.Reference? ==> node.uid < |table|
    ensures PassedBelow(nodes + [node], usage + [NONE], table, |nodes| + 1)
  {
    forall i | 0 <= i < |nodes| + 1
      ensures Passed(nodes + [node], usage + [NONE], table, i)
    {
      assert i < |nodes| ==> Passed(nodes, usage, table, i);
    }
  }

  lemma StillPassed(
    nodes: seq<Node>, usage0: seq<Usage>, table0: seq<Usage>, usage: seq<Usage>, table: seq<Usage>,
    child: nat, e: nat, u: Usage)
    requires e < |nodes| == |usage0| == |usage| && nodes[e] == Chain(child) && child < e
    requires PassedBelow(nodes, usage0, table0, e + 1)
    requires PassedBelow(nodes, usage, table, child + 1) && Grew(table0, table)
    requires u.Within(usage[child]) && usage[e] == usage0[e].Or(u)
    requires forall i | 0 <= i < e :: usage0[i].Within(usage[i])
    requires forall i | child < i < e :: usage[i] == usage0[i]
    ensures PassedBelow(nodes, usage, table, e + 1)
  {
    forall i | 0 <= i < e + 1
      ensures Passed(nodes, usage, table, i)
    {
      assert Passed(nodes, usage0, table0, i);
    }
  }

  /** A variable's entry is what all marks together say of it, in whatever order they were made. */
  lemma {:induction false} TableIsCollected(nodes: seq<Node>, table: seq<Usage>, marks: seq<Mark>, uid: nat)
    requires InRange(marks, |nodes|) && uid < |table|
    ensures NaiveMarks(nodes, table, marks)[uid] == table[uid].Or(Collected(nodes, marks, uid))
  {
    if marks != [] {
      TableIsCollected(nodes, table, marks[..|marks| - 1], uid);
    }
  }

  /** A variable is marked as written exactly when some expression that leads to it is, and likewise for reads. */
  lemma {:induction false} MarkedIff(nodes: seq<Node>, marks: seq<Mark>, uid: nat)
    requires InRange(marks, |nodes|)
    ensures Collected(nodes, marks, uid).write <==>
            exists i :: 0 <= i < |marks| && marks[i].u.write && Root(nodes, marks[i].e) == Some(uid)
    ensures Collected(nodes, marks, uid).read <==>
            exists i :: 0 <= i < |marks| && marks[i].u.read && Root(nodes, marks[i].e) == Some(uid)
  {
    if marks != [] {
      var front := marks[..|marks| - 1];
      MarkedIff(nodes, front, uid);
      assert forall i | 0 <= i < |front| :: front[i] == marks[i];
    }
  }

  lemma {:induction false} CollectedBoth(nodes: seq<Node>, a: seq<Mark>, b: seq<Mark>, uid: nat)
    requires InRange(a, |nodes|) && InRange(b, |nodes|)
    ensures InRange(a + b, |nodes|)
    ensures Collected(nodes, a + b, uid) == Collected(nodes, a, uid).Or(Collected(nodes, b, uid))
    decreases |b|
  {
    if b == [] {
      assert a + b == a;
    } else {
      var front := b[..|b| - 1];
      CollectedBoth(nodes, a, front, uid);
      assert (a + b)[..|a + b| - 1] == a + front;
    }
  }

  lemma StillExplained(nodes: seq<Node>, history: seq<Mark>, table: seq<Usage>, marks: seq<Mark>)
    requires Explained(nodes, history, table) && InRange(marks, |nodes|)
    ensures Explained(nodes, history + marks, NaiveMarks(nodes, table, marks))
  {
    forall uid | 0 <= uid < |table|
      ensures NaiveMarks(nodes, table, marks)[uid] == Collected(nodes, history + marks, uid)
    {
      TableIsCollected(nodes, table, marks, uid);
      CollectedBoth(nodes, history, marks, uid);
    }
  }

  lemma {:induction false} RootStays(nodes: seq<Node>, node: Node, e: nat)
    requires e < |nodes|
    ensures Root(nodes + [node], e) == Root(nodes, e)
    decreases e
  {
    if nodes[e].Chain? && nodes[e].child < e {
      RootStays(nodes, node, nodes[e].child);
    }
  }

  lemma {:induction false} CollectedStays(nodes: seq<Node>, node: Node, marks: seq<Mark>, uid: nat)
    requires InRange(marks, |nodes|)
    ensures Collected(nodes + [node], marks, uid) == Collected(nodes, marks, uid)
    decreases |marks|
  {
    if marks != [] {
      CollectedStays(nodes, node, marks[..|marks| - 1], uid);
      RootStays(nodes, node, marks[|marks| - 1].e);
    }
  }

  lemma MadeExplained(nodes: seq<Node>, history: seq<Mark>, table: seq<Usage>, node: Node)
    requires Explained(nodes, history, table)
    ensures Explained(nodes + [node], history, table)
  {
    forall uid | 0 <= uid < |table|
      ensures Collected(nodes + [node], history, uid) == Collected(nodes, history, uid)
    {
      CollectedStays(nodes, node, history, uid);
    }
  }

  lemma {:induction false} RootExists(nodes: seq<Node>, variables: nat, e: nat)
    requires Formed(nodes, variables) && e < |nodes|
    ensures Root(nodes, e).Some? ==> Root(nodes, e).value < variables
    decreases e
  {
    if nodes[e].Chain? {
      RootExists(nodes, variables, nodes[e].child);
    }
  }

  /** No mark concerns a variable that was not made yet. */
  lemma {:induction false} NoRootYet(nodes: seq<Node>, marks: seq<Mark>, uid: nat)
    requires Formed(nodes, uid) && InRange(marks, |nodes|)
    ensures Collected(nodes, marks, uid) == NONE
    decreases |marks|
  {
    if marks != [] {
      NoRootYet(nodes, marks[..|marks| - 1], uid);
      RootExists(nodes, uid, marks[|marks| - 1].e);
    }
  }
}
