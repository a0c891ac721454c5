/**
 * FunctionSerializer (src/ast/function_serializer.{h,cpp}): a whole kernel with its
 * callables, to JSON and back.
 */
module Serializer {
  import opened Types
  import opened Ast
  import opened Functions
  import opened FunctionDump
  import opened FunctionParse
  import opened RoundTrip

  /** Everything the functions of the table mention is in the tables. */
  predicate Complete(functions: map<Key, Json>, constants: set<Key>, ms: set<Mention>) {
    forall m | m in ms :: Defines(functions.Keys, constants, m)
  }

  /** The entries that are new since `before` are what the program's functions are written as. */
  predicate Written(p: Program, before: map<Key, Json>, functions: map<Key, Json>, constants: set<Key>) {
    && before.Keys <= functions.Keys
    && (forall k | k in before :: functions[k] == before[k])
    && forall k | k in functions && k !in before ::
         && k in p.functions
         && |p.functions[k].arguments| == |p.functions[k].bindings|
         && functions[k] == DumpFunction(p.functions[k])
         && Complete(functions, constants, BodyMentions(p.functions[k].body))
  }

  class FunctionSerializer {
    var constants: set<Key>
    var functions: map<Key, Json>

    constructor ()
      ensures constants == {} && functions == map[]
    {
      constants, functions := {}, map[];
    }

    /** Writes function k, and everything it mentions, unless it is written already. */
    method Dump(p: Program, k: Key)
      requires ProgramOk(p) && k in p.functions
      modifies this
      ensures Written(p, old(functions), functions, constants)
      ensures k in functions && old(constants) <= constants
      decreases p.functions.Keys - functions.Keys
    {
      hide Written, Complete, ProgramOk, BodyMentions, DumpFunction;
      if k in functions {
        NothingWritten(p, functions, constants);
        return;
      }
      WellFormed(p, k);
      var f := p.functions[k];
      functions := functions[k := JObject(map[])];
      ghost var started := functions;
      NothingWritten(p, started, constants);
      ghost var all := BodyMentions(f.body);
      var rest := BodyMentions(f.body);
      assert all - rest == {};
      while rest != {}
        invariant rest <= all
        invariant Written(p, started, functions, constants) && started.Keys <= functions.Keys
        invariant Complete(functions, constants, all - rest)
        invariant old(constants) <= constants
        decreases rest
      {
        var m :| m in rest;
        ghost var before, known := functions, constants;
        FewerLeft(p, old(functions), functions, k);
        match m {
          case Operation(_) => NothingWritten(p, functions, constants);
          case Callable(callee) => Dump(p, callee);
          case Data(_, key) =>
            constants := constants + {key};
            NothingWritten(p, functions, constants);
        }
        WrittenTwice(p, started, before, known, functions, constants);
        OneMoreComplete(p, before, known, functions, constants, all - rest, m);
        assert all - (rest - {m}) == all - rest + {m};
        rest := rest - {m};
      }
      assert all - {} == all;
      ghost var done := functions;
      functions := functions[k := DumpFunction(f)];
      SelfWritten(p, old(functions), k, started, done, functions, constants);
    }

    method ToJson(p: Program, entry: Key) returns (doc: Doc)
      requires ProgramOk(p) && entry in p.functions
      modifies this
      ensures Faithful(doc, p)
      ensures doc.entry == entry && entry in doc.functions
    {
      constants, functions := {}, map[];
      Dump(p, entry);
      doc := Doc(entry, constants, functions);
      WrittenIsFaithful(p, doc);
      constants, functions := {}, map[];
    }

    /**
     * A kernel that is written to JSON and read back is the same kernel. Its lists of used
     * operations, callables and constants hold what its body reaches: what they held
     * before, if that all occurs in the bodies.
     */
    method RoundTrip(p: Program, entry: Key) returns (kernel: Function, ghost parsed: map<Key, Function>)
      requires ProgramOk(p) && entry in p.functions && p.functions[entry].kernel
      modifies this
      ensures AllRebuilt(p, parsed) && entry in parsed && kernel == parsed[entry]
      ensures IsRebuilt(parsed, kernel, p.functions[entry])
      ensures kernel.(ops := p.functions[entry].ops, customs := p.functions[entry].customs,
                      constants := p.functions[entry].constants) == p.functions[entry]
      ensures SameListings(p, parsed) <==> Tight(p, parsed.Keys)
      ensures Tight(p, parsed.Keys) ==>
                && SameListing(kernel, p.functions[entry])
                && kernel.ops == p.functions[entry].ops
                && (forall k :: k in kernel.customs <==> k in p.functions[entry].customs)
                && (forall c :: c in kernel.constants <==> c in p.functions[entry].constants)
    {
      var doc := ToJson(p, entry);
      parsed := ReadBack(doc, p);
      KernelUnchanged(p.functions[entry]);
      ListsBackIff(p, parsed);
      if SameListing(parsed[entry], p.functions[entry]) {
        ListingElements(parsed[entry], p.functions[entry]);
      }
      hide ParseFunction, Faithful, ProgramOk, Rebuilt, Lists, AllRebuilt, Tight, SameListing;
      var r := FromJson(doc);
      return r.value, parsed;
    }
  }

  /** A function that was started is not started again. */
  lemma FewerLeft(p: Program, before: map<Key, Json>, functions: map<Key, Json>, k: Key)
    requires k in p.functions && k !in before && k in functions && before.Keys <= functions.Keys
    ensures p.functions.Keys - functions.Keys < p.functions.Keys - before.Keys
  {
    assert k in p.functions.Keys - before.Keys && k !in p.functions.Keys - functions.Keys;
  }

  lemma NothingWritten(p: Program, functions: map<Key, Json>, constants: set<Key>)
    ensures Written(p, functions, functions, constants)
    ensures Complete(functions, constants, {})
  {
  }

  lemma OneMoreComplete(
    p: Program, before: map<Key, Json>, known: set<Key>, functions: map<Key, Json>, constants: set<Key>,
    done: set<Mention>, m: Mention)
    requires Written(p, before, functions, constants) && known <= constants
    requires Complete(before, known, done)
    requires Defines(functions.Keys, constants, m)
    ensures Complete(functions, constants, done + {m})
  {
  }

  lemma SelfWritten(
    p: Program, before: map<Key, Json>, k: Key, started: map<Key, Json>, done: map<Key, Json>,
    functions: map<Key, Json>, constants: set<Key>)
    requires k !in before && started.Keys == before.Keys + {k}
    requires forall q | q in before :: started[q] == before[q]
    requires Written(p, started, done, constants)
    requires k in p.functions && |p.functions[k].arguments| == |p.functions[k].bindings|
    requires functions.Keys == done.Keys && k in functions && functions[k] == DumpFunction(p.functions[k])
    requires forall q | q in done && q != k :: functions[q] == done[q]
    requires Complete(done, constants, BodyMentions(p.functions[k].body))
    ensures Written(p, before, functions, constants)
  {
    hide BodyMentions, DumpFunction;
    forall q, ms | q in functions && Complete(done, constants, ms)
      ensures Complete(functions, constants, ms)
    {
    }
  }

  lemma WellFormed(p: Program, k: Key)
    requires ProgramOk(p) && k in p.functions
    ensures |p.functions[k].arguments| == |p.functions[k].bindings|
    ensures CalleesExist(p, BodyMentions(p.functions[k].body))
  {
    hide *;
    var ds := PickVariables(p, k);
    OkFacts(p, p.functions[k], p.rank[k], ds);
    FunctionVariables(p.functions[k], ds);
    BodyCallees(p, p.functions[k], p.rank[k], ds, p.functions[k].body);
  }

  lemma WrittenTwice(
    p: Program, a: map<Key, Json>, b: map<Key, Json>, bc: set<Key>, c: map<Key, Json>, cc: set<Key>)
    requires Written(p, a, b, bc) && Written(p, b, c, cc) && bc <= cc
    ensures Written(p, a, c, cc) && a.Keys <= c.Keys
  {
    hide BodyMentions, DumpFunction;
  }

  lemma WrittenIsFaithful(p: Program, doc: Doc)
    requires Written(p, map[], doc.functions, doc.constants)
    ensures Faithful(doc, p)
  {
  }

  /**
   * Reading a written program succeeds. The entry and every function it reaches are
   * rebuilt: the same body with the same variables under the same uids, the same calls
   * with the same arguments; kernels unchanged, and callables with their builtin
   * variables and captured resources as ordinary arguments.
   */
  lemma ReadBack(doc: Doc, p: Program) returns (parsed: map<Key, Function>)
    requires ProgramOk(p) && Faithful(doc, p) && doc.entry in doc.functions
    ensures ParseFunction(doc, doc.entry, map[], {}) == Ok(parsed)
    ensures doc.entry in parsed && doc.entry in p.functions && FromJson(doc) == Ok(parsed[doc.entry])
    ensures IsRebuilt(parsed, parsed[doc.entry], p.functions[doc.entry])
    ensures AllRebuilt(p, parsed)
  {
    hide *;
    FaithfulFacts(doc, p, doc.entry);
    NothingParsed(p, doc.entry);
    parsed := FunctionBack(doc, p, doc.entry, map[], {});
    RebuiltEntry(p, parsed, doc.entry);
    EntryParsed(doc, parsed);
  }

  lemma NothingParsed(p: Program, k: Key)
    requires ProgramOk(p) && k in p.functions
    ensures Finished(map[]) && AllRebuilt(p, map[]) && k in p.rank && Above(p, {}, p.rank[k] + 1)
  {
  }

  lemma EntryParsed(doc: Doc, parsed: map<Key, Function>)
    requires Finished(map[]) && ParseFunction(doc, doc.entry, map[], {}) == Ok(parsed) && doc.entry in parsed
    ensures FromJson(doc) == Ok(parsed[doc.entry])
  {
    hide ParseFunction;
  }
}
