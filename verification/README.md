# LuisaCompute: verified models of its trickiest bookkeeping

Dafny models of seven parts of LuisaCompute, each proved against what its code and its users rely on.
`dafny verify dfyconfig.toml` checks everything.

| files | part of the program |
|---|---|
| `Ast`, `Functions`, `FunctionDump`, `FunctionParse`, `RoundTrip`, `Serializer`, `Example` | kernels and callables written to JSON and rebuilt through the function builder |
| `Building`, `Bodies`, `Declarations`, `BuiltPrograms`, `FunctionBuilder` | the function builder: variables, bindings, calls, statements, used-lists |
| `UsageMarking`, `CallUsage`, `ExpressionUsage` | which variables are marked as read and written, in expressions and across calls |
| `DefinitionAnalysis`, `Occurrences` | which scopes must declare which local variables |
| `Types`, `Descriptions`, `TypeRegistry`, `Layout` | type descriptions, the memoising registry and type layouts |
| `ThreadPool`, `Deadlock`, `Parallel` | the thread pool's queue, barriers, shutdown and `parallel` |
| `Words`, `Blocks`, `Pool`, `FirstFit` | the first-fit allocator with its node pool and `next_pow2` |
| `Printer` | the device log: concurrent writers and the host's decoding loop |
| `Integers` | 32-bit and 64-bit words |

How the parts are modelled:

- **Serializer.** `FunctionDump` and `FunctionParse` follow `dump` and the `parse_*` members; errors of any
  kind (JSON exceptions, failed assertions, null operands) are `Err`. JSON keys and tag words are
  constructors, hashes and handles are numbers. `RoundTrip.ProgramOk` says what a program is that the builder
  can have made: variables declared one by one with increasing uids (`Admissible`), expressions and
  statements with valid types, literals of the type of their value, returns that agree, callees of lower rank.
  `BuiltPrograms` proves that functions built through the primitives of `Building` meet it, on what
  `Declarations` proves about their variables; `Example` builds a kernel whose callee captures a builtin
  variable.
  `RoundTrip.Rebuilt` is the closure-converted function: a kernel is itself; in a callable, builtin variables
  become ordinary arguments, bindings are dropped, and nothing else changes but the lists of what is used,
  which then hold exactly what the body reaches.
- **Builder.** `Functions` holds the primitives on values and `FunctionBuilder` the class whose methods are
  proved to implement them. `Building` proves what holds after every sequence of primitives, for a library
  of functions finished one after another.
- **Definition analysis.** A scope pointer is the path to the scope from the function body. The class walks
  as the visitor does; the specification is a recursion over the tree, and the lowest-common-ancestor
  theorem is proved about the specification and carried over to the table. `Occurrences` states the result
  for occurrences in the fields of expressions and statements, without the tables that the visitors share.
- **Type registry.** `Types.Parse` is the decoder without memo, `TypeRegistry` the class with it;
  `Descriptions` says which texts are accepted. Layouts use 64-bit words, dimensions 32-bit ones. Alignment 0
  of a structure, which divides by zero in the program, is an error.
- **Thread pool.** Critical sections and guarded waits are atomic events that interleave arbitrarily; one host
  thread calls `barrier`, `synchronize` and the destructor. The barrier's phase is a 32-bit word that wraps.
- **Allocator.** Nodes live in a store addressed by the pool's slots and links are addresses; the class methods
  rewrite links, offsets and sizes as the program does, and are tied to lists of blocks on which the partition
  arguments are made.
- **Device log.** Every buffer access is one atomic step; any number of threads and any interleaving.

Assumptions: hashes are injective; sizes of tables and texts fit the 32-bit counters of the program; all
returns of a function agree; the words reserved in the device log fit in 32 bits.

## Model

| member | source | states |
|---|---|---|
| `Serializer.ReadBack` | src/ast/function_serializer.cpp:327-338 | Reading the JSON of any well-formed program succeeds; the entry and every callable it reaches are rebuilt: same body tree, variable i under uid i, each call with its callee and full argument list, every callee of a rebuilt body itself rebuilt, and lists of used operations, callables and constants that hold exactly what the body reaches |
| `Serializer.FunctionSerializer.RoundTrip` | src/ast/function_serializer.cpp:316-338 | Writing a kernel and reading it back gives the same kernel, bindings included; its lists of used operations, callables and constants hold exactly what its body reaches, and all rebuilt functions list what the originals list if and only if the originals list just what their bodies reach |
| `Serializer.FunctionSerializer.ToJson` | src/ast/function_serializer.cpp:316-325 | The tables hold the entry and, for every function in them, exactly its JSON and everything it mentions |
| `Serializer.FunctionSerializer.Dump` | src/ast/function_serializer.cpp:199-314 | Depth-first writing with the visited check: old entries stay, each new entry is the function's JSON, and all it calls and all its constants are in the tables |
| `RoundTrip.FunctionBack` | src/ast/function_serializer.cpp:730-814 | Parsing a written function succeeds whatever subset is parsed already, keeps every entry of it, and leaves a table closed under callees in which every function is the rebuilt one |
| `RoundTrip.ListsBackIff` | src/ast/function_builder.cpp:489-512 | The rebuilt functions list the same operations, callables and constants as the originals if and only if the originals list exactly what occurs in their bodies or is listed by what these call |
| `RoundTrip.PropagateAdds` | src/ast/function_builder.cpp:489-512 | A call adds the callee and all that it lists, although nothing is done for a callee that is listed already, and keeps the lists closed |
| `RoundTrip.EqualBodiesListTheSame` | src/ast/function_builder.cpp:489-512 | Rebuilt callables with equal bodies have equal lists, so that skipping one of two callables that became equal loses nothing |
| `RoundTrip.DefinitionBack` | src/ast/function_serializer.cpp:796-813 | The definition of one function: variables, body and the checks at its end |
| `RoundTrip.ExprBack` | src/ast/function_serializer.cpp:75-560 | Parsing a written expression yields the expression with rebuilt variables and changes nothing of the builder but the used-lists, to which it adds exactly what the expression reaches |
| `RoundTrip.CallBack` | src/ast/function_serializer.cpp:541-553 | A parsed call keeps its callee and its full argument list; a void call yields no expression and exactly one statement |
| `RoundTrip.PlaceExplicit` | src/ast/function_builder.cpp:456-487 | A rebuilt callable captures nothing, so the builder takes the written arguments as they are |
| `RoundTrip.StmtBack` | src/ast/function_serializer.cpp:562-641 | Parsing a written statement appends exactly the rebuilt statement to the open scope and adds to the used-lists exactly what the statement reaches |
| `RoundTrip.StmtsBack` | src/ast/function_serializer.cpp:578-637 | The same for the statements of a scope, with the return type that results |
| `RoundTrip.ReturnStmtBack` | src/ast/function_builder.cpp:80-102 | A written return is accepted and sets the return type, if all returns of the function agree |
| `RoundTrip.TypeIsWritten` | src/ast/function_serializer.cpp:28-73 | The type that the builder compares for a returned expression is the type written for the expression |
| `RoundTrip.ValueBack` | src/ast/function_serializer.cpp:108-201 | A literal is read back as itself if and only if its type is the type of its value |
| `RoundTrip.FoldedSwizzle` | src/ast/function_builder.cpp:227-268 | A folded swizzle of a literal can be read back if and only if it is a scalar or keeps the width of its source, because it keeps the source's type |
| `RoundTrip.VariablesWritten` | src/ast/function_serializer.cpp:226-311 | The four passes over builtins, arguments, shared and local variables write at each uid exactly the entry of that variable |
| `RoundTrip.VariablesRead` | src/ast/function_serializer.cpp:733-795 | Reading the entries creates variable i under uid i, in a callable with builtins as ordinary arguments and without bindings; no deduplication strikes |
| `RoundTrip.RebuiltVariables` | src/ast/function_serializer.cpp:247-249 | The variables read are those of the closure-converted function, position by position |
| `RoundTrip.BindingBack` | src/ast/function_serializer.cpp:757-785 | Bindings of kernels are read back unchanged |
| `RoundTrip.KernelUnchanged` | src/ast/function_serializer.cpp:221-311 | For a kernel the rebuilt function is the function itself |
| `RoundTrip.DefinitionEnds` | src/ast/function_builder.cpp:21-58 | The rebuilt function passes the checks at the end of its definition because the original did |
| `Building.DefinitionsAreOrdered` | src/ast/function_builder.cpp:136-213 | After any sequence of building primitives: as many bindings as arguments, uids increasing and below the usage-table size, no resource and no builtin variable twice, each buffer bound with the largest size requested, each request answered |
| `Building.BindKeeps` | src/ast/function_builder.cpp:190-213 | Binding keeps these invariants; binding again keeps one binding and the larger size |
| `Building.BindFields` | src/ast/function_builder.cpp:190-213 | Binding returns an argument with the tag and type of the resource and the handle, offset or level asked for, and for a buffer at least the size |
| `Building.BoundArgumentsDiffer` | src/ast/function_builder.cpp:190-213 | After any definition two bound arguments of one kind differ in the handle, the offset or level, or the type |
| `Building.PlaceKeeps` | src/ast/function_builder.cpp:456-482 | Placing call arguments keeps them, counting the callee's captures as requests |
| `Building.PlacedRight` | src/ast/function_builder.cpp:456-482 | Each position gets the caller's builtin variable, an argument bound to the captured resource, or the next explicit argument, these consumed once and in order |
| `Building.CallIsPlaced` | src/ast/function_builder.cpp:450-518 | A successful call has arguments placed this way and none left over |
| `Building.CallSucceedsIff` | src/ast/function_builder.cpp:450-487 | A call succeeds if and only if the callee is a callable and the number of explicit arguments is the number of its unbound, non-builtin parameters |
| `Building.LibraryUses` | src/ast/function_builder.cpp:489-512 | Used-callable lists are transitively closed and hold exactly what is used directly or through a called callable, although known callees are skipped |
| `Building.CustomsAreReachable` | src/ast/function_builder.cpp:489-512 | A callable is listed if and only if a chain of calls leads to it |
| `Building.OpsAreReachable` | src/ast/function_builder.cpp:433-447 | A builtin operation is in the set if and only if a function at the end of some chain of calls uses it |
| `Building.RaytracingIff` | src/ast/function_builder.cpp:550-553 | raytracing() holds if and only if a ray is traced in the function or in a callable it reaches |
| `FunctionBuilder.FunctionBuilder.NextVariableUid` | src/ast/function_builder.cpp:148-152 | The uid is the size of the usage table, which grows by one |
| `FunctionBuilder.FunctionBuilder.MakeBuiltin` | src/ast/function_builder.cpp:159-174 | Search by tag, else a new variable that is also an argument in callables |
| `FunctionBuilder.FunctionBuilder.BufferBinding` | src/ast/function_builder.cpp:190-213 | Returns an argument of the type asked for, bound to the same handle and offset with at least the size asked for: the first one found, widened, or else a new one |
| `FunctionBuilder.FunctionBuilder.TextureBinding` | src/ast/function_builder.cpp:330-350 | Returns an argument of the type asked for, bound to the same handle and level, found or new |
| `FunctionBuilder.FunctionBuilder.BindlessArrayBinding` | src/ast/function_builder.cpp:378-396 | Returns an argument bound to the same handle, found or new |
| `FunctionBuilder.FunctionBuilder.AccelBinding` | src/ast/function_builder.cpp:405-423 | Returns an argument bound to the same handle, found or new |
| `FunctionBuilder.FunctionBuilder.PlaceArguments` | src/ast/function_builder.cpp:456-482 | The loop over the callee's parameters refines the recursive placement |
| `FunctionBuilder.FunctionBuilder.CallFunction` | src/ast/function_builder.cpp:450-518 | A call refines the specified primitive: arguments, propagation, statement or expression, and the error cases |
| `FunctionBuilder.FunctionBuilder.PropagateFrom` | src/ast/function_builder.cpp:489-512 | The loops over constants and callables refine the specified propagation |
| `FunctionBuilder.FunctionBuilder.Return` | src/ast/function_builder.cpp:80-102 | Accepts or rejects a return and records the return type as specified |
| `Declarations.DefinitionsAreWellDeclared` | src/ast/function_builder.cpp:136-213 | The variables and bindings of every function that the builder can make meet the condition under which the round trip is proved |
| `Declarations.BindDecl` | src/ast/function_builder.cpp:190-213 | Binding a resource, new or again, keeps that condition |
| `Declarations.PlaceDecls` | src/ast/function_builder.cpp:456-482 | Placing call arguments keeps it |
| `Bodies.AccessUnfolds` | src/ast/function_builder.cpp:270-277 | An access to a literal reads a fresh local variable that the statement just appended has assigned the literal; any other access is made as asked for |
| `Bodies.LiteralsAreAssigned` | src/ast/function_builder.cpp:270-277 | In every definition each accessed literal is assigned to a fresh local variable in the open scope, right behind the statements appended before |
| `Bodies.BodyIsAppended` | src/ast/function_builder.cpp:80-102 | A definition's body is what its primitives append in order: statements, returns, void calls with their placed arguments, and assigned literals |
| `Bodies.ReturnAcceptedIff` | src/ast/function_builder.cpp:80-102 | A return is accepted if and only if a kernel returns no value and the type agrees with that of every value returned before in the definition |
| `Bodies.AcceptedIff` | src/ast/function_builder.cpp:159-213 | Which other primitives fail, and why |
| `Bodies.FinishesIff` | src/ast/function_builder.cpp:21-58 | The end of a definition fails if and only if rays are traced, in the function or through calls, and shared variables or a block barrier, in the function or through calls, are used |
| `Bodies.SwizzlePicks` | src/ast/function_builder.cpp:227-268 | A folded swizzle holds the components that its code lists, one by one, and fails if one is out of range |
| `BuiltPrograms.LibraryIsProgram` | src/ast/function_builder.cpp:21-58 | Functions finished one after another through the building primitives, with bodies made of the expressions and variables that the primitives handed out, valid types and agreeing returns, form a program the round trip is about |
| `BuiltPrograms.CallFits` | src/ast/function_builder.cpp:450-518 | A call made by the builder names an earlier callable, has one argument for each of its parameters, each captured one a variable of the caller, and the callee uses no operation that the caller does not list |
| `BuiltPrograms.BuiltKernelBack` | src/ast/function_serializer.cpp:316-338 | A kernel that was built, written to JSON and read back is the kernel that was built |
| `UsageMarking.Expressions.MarkExpr` | src/ast/expression.cpp:12-61 | Memoised marking stops early, and still leaves the table that the naive walk to the root variable leaves |
| `UsageMarking.Expressions.MarkAll` | src/ast/expression.cpp:17-54 | The marks of one constructor change the table as the naive walks do; over the whole history the table is what all marks together say |
| `UsageMarking.Expressions.MakeAccess` | src/ast/expression.h:192-196 | A new access marks range and index as read |
| `UsageMarking.Expressions.MakeBuiltinCall` | src/ast/expression.cpp:17-40 | After an operation a variable is marked as written if and only if it was, or the operation is one of the thirteen that write and the first argument leads to it; all other arguments are read |
| `UsageMarking.Expressions.MakeCustomCall` | src/ast/expression.cpp:41-54 | After a call a variable is marked as written if and only if it was, or some argument that leads to it is passed to a reference, buffer, texture or acceleration structure that the callee writes; and as read accordingly, where all other parameters read their arguments |
| `UsageMarking.Expressions.Assign` | src/ast/statement.h:183-187 | Assignment marks the variable of the left side as written and that of the right side as read, and no other |
| `UsageMarking.RootHasMark` | src/ast/expression.cpp:56-61 | A node's mark is contained in its root variable's entry |
| `UsageMarking.TableIsCollected` | src/ast/function_builder.cpp:309-313 | A variable's entry is its old value joined with all marks whose chain ends in it |
| `UsageMarking.MarkedIff` | src/ast/function_builder.cpp:309-313 | A variable is marked as read or written if and only if some mark of that kind has it at the end of its chain |
| `CallUsage.WrittenIff` | src/ast/expression.cpp:17-54 | Across functions a variable is marked as written if and only if a chain of calls hands it by reference to a function that writes it itself, with an assignment, as the variable of a for-loop or with a writing operation |
| `CallUsage.TableIsUsage` | src/ast/function_builder.cpp:309-313 | The table of a builder that took these steps holds this usage for each variable |
| `CallUsage.ReadIff` | src/ast/expression.cpp:17-54 | And as read if and only if such a chain leads to a function that reads it itself |
| `CallUsage.UsedHereOrBelow` | src/ast/expression.cpp:41-54 | One function: it uses the variable itself or hands it by reference to a callee that uses its parameter |
| `ExpressionUsage.Read` | src/ast/expression.h:105-220 | Making an expression and reading it marks exactly the variables that occur in it as read, and none as written |
| `ExpressionUsage.Assign` | src/ast/statement.h:183-187 | An assignment writes the variable that its left side is, or is an element or a member of, and no other; it reads what occurs on the right and in the indices of the left |
| `DefinitionAnalysis.DeclaredAroundAllUses` | src/compile/definition_analysis.cpp:18-25 | For every body and every referenced local: the innermost scope around all references lists it, and every scope that lists it lies within that scope |
| `DefinitionAnalysis.TableDeclares` | src/compile/definition_analysis.cpp:69-83 | In the table left behind, that scope has an entry with the variable and encloses each reference |
| `DefinitionAnalysis.TableDeclaresOnce` | src/compile/definition_analysis.cpp:69-83 | No entry outside that scope holds the variable |
| `DefinitionAnalysis.OneEntryPerScope` | src/compile/definition_analysis.cpp:18-25 | The table has one entry for each scope, holding what the recursive specification lists |
| `DefinitionAnalysis.ScopeEffect` | src/compile/definition_analysis.cpp:140-155 | The record of a finished scope holds exactly the variables referenced directly or through two distinct nested scopes; enclosing records get everything referenced |
| `DefinitionAnalysis.FinalizedIsListed` | src/compile/definition_analysis.cpp:149-155 | `finalize` adds exactly the variables propagated from more than one nested scope |
| `DefinitionAnalysis.DefinitionAnalysis.VisitRef` | src/compile/definition_analysis.cpp:114-126 | The reverse loop over the stack marks the top record and propagates the child scope to every enclosing one |
| `DefinitionAnalysis.DefinitionAnalysis.VisitExpr` | src/compile/definition_analysis.cpp:90-138 | Visiting an expression marks exactly the local variables in it that are not arguments |
| `DefinitionAnalysis.DefinitionAnalysis.VisitStmt` | src/compile/definition_analysis.cpp:27-67 | Visiting a statement: its own expressions, then its scopes |
| `DefinitionAnalysis.DefinitionAnalysis.VisitScope` | src/compile/definition_analysis.cpp:18-25 | Push, visit, finalize, pop: the stack below only gains what the scope references, and the table one entry for each scope |
| `DefinitionAnalysis.DefinitionAnalysis.Analyze` | src/compile/definition_analysis.cpp:69-83 | Ends with an empty stack, without warning if it began with one, and with the complete table |
| `Occurrences.OccurrencesAreDeclared` | src/compile/definition_analysis.cpp:18-155 | Every local variable that occurs anywhere in a body, said on the fields of expressions and statements alone, is declared in the innermost scope around all scopes where it occurs, and in no scope that is not within that one |
| `Occurrences.DeclaredOccurs` | src/compile/definition_analysis.cpp:69-83 | Nothing is declared that does not occur, and the table has an entry for exactly the scopes of the body |
| `Occurrences.RefsAreOccurrences` | src/compile/definition_analysis.cpp:90-138 | Visiting an expression references exactly the local variables that occur in it and are no arguments, as operands, indices and call arguments alike |
| `Occurrences.StmtRefsAreOccurrences` | src/compile/definition_analysis.cpp:27-67 | A statement references exactly those that occur in the expressions it evaluates itself |
| `Occurrences.PathsLeadToScopes` | src/compile/definition_analysis.cpp:27-67 | The visited scopes are exactly the scopes nested in the statements' fields |
| `Occurrences.OccursSomewhere` | src/compile/definition_analysis.cpp:27-67 | Every occurrence in a body lies directly in a scope that some path leads to |
| `Descriptions.DecodesIffSpelled` | src/ast/type_registry.cpp:17-245 | The decoder accepts a text as a type if and only if the type is valid and the text is one of its spellings: the printed form with its numbers written in any way that reads as them, dimensions modulo 2^32 |
| `Descriptions.OneSpelling` | src/ast/type_registry.cpp:66-91 | Every accepted text can be taken apart in one way only |
| `Descriptions.NumeralIsPadded` | src/ast/type_registry.cpp:45-55 | The ways to write a number are its decimal digits with zeros in front |
| `Descriptions.ParsePrint` | src/ast/type_registry.cpp:17-245 | Decoding the printed description of any valid type, of any depth, yields that type |
| `Descriptions.WideDimensionWraps` | src/ast/type_registry.cpp:157-157 | A dimension is cut to 32 bits: an array that is too long comes back as a shorter one |
| `Descriptions.DecodesIffValid` | src/ast/type_registry.cpp:110-239 | A type survives printing and decoding if and only if it is valid |
| `Descriptions.PrintIsInjective` | src/ast/type_registry.h:87-241 | Distinct types have distinct descriptions |
| `Descriptions.SplitsOffOne` | src/ast/type_registry.cpp:66-91 | `split` returns exactly the next component's text, at any nesting depth |
| `Descriptions.TextIsNeutral` | src/ast/type_registry.cpp:66-91 | A description leaves the bracket balance as it was |
| `Descriptions.NumeralReadBack` | src/ast/type_registry.cpp:45-55 | Digits that denote a number below 2^64 are read back as that number, and nothing behind them is consumed |
| `Types.ParseStructure` | src/ast/type_registry.cpp:166-193 | What is accepted as a structure is a valid type |
| `Types.Parse` | src/ast/type_registry.cpp:97-239 | Whatever the decoder accepts is a valid type |
| `TypeRegistry.TypeRegistry.Decode` | src/ast/type_registry.cpp:17-245 | The memoising decoder succeeds exactly when the specification does; the node stands for the type described, known descriptions change nothing, and a new node is the last one |
| `TypeRegistry.TypeRegistry.DecodeStructure` | src/ast/type_registry.cpp:166-193 | The member loop, the layout and the alignment checks for structures |
| `TypeRegistry.TypeRegistry.DecodeMembers` | src/ast/type_registry.cpp:170-173 | The loop over the members refines the recursive description |
| `TypeRegistry.TypeRegistry.LayOut` | src/ast/type_registry.cpp:175-185 | The layout loop computes the specified size and the largest alignment |
| `TypeRegistry.TypeRegistry.Register` | src/ast/type_registry.cpp:241-244 | The inserted description was never present; the node gets the next index |
| `TypeRegistry.TypeRegistry.TypeOf` | src/ast/type_registry.h:245-251 | Every valid type is found under its description whatever the registry holds |
| `TypeRegistry.TypeRegistry.TypeFrom` | src/ast/type_registry.cpp:252-256 | "void" is no type; everything else is decoded |
| `TypeRegistry.OneNodePerDescription` | src/ast/type_registry.cpp:31-34 | Two nodes are the same if and only if their descriptions are |
| `TypeRegistry.MembersComeFirst` | src/ast/type_registry.cpp:241-244 | Members have smaller indices than the types they are part of |
| `TypeRegistry.NodeLayout` | src/ast/type_registry.cpp:99-193 | Every node's alignment is a power of two up to 16 and divides its size |
| `TypeRegistry.NodeIsLaidOut` | src/ast/type_registry.cpp:99-239 | Every node holds the nodes it points to: a vector its components, a matrix its columns, an array its elements, a structure its members packed in order; containers hold only what they may |
| `TypeRegistry.NodeDetermines` | src/ast/type_registry.cpp:99-239 | A node's tag, dimension, alignment and members determine the type it stands for |
| `TypeRegistry.NodesOfEqualTypes` | src/ast/type_registry.cpp:31-34 | Two nodes stand for equal types if and only if their spellings mean the same, and are one node if and only if the spellings are the same |
| `TypeRegistry.NodeIsSpelled` | src/ast/type_registry.cpp:241-244 | Every node is described by a spelling of the type it stands for |
| `Layout.SizeIsMultiple` | src/ast/type_registry.cpp:130-193 | Every size is a multiple of the alignment, even where 64-bit arithmetic wraps |
| `Layout.RoundUpIsLeast` | src/ast/type_registry.cpp:184-184 | Rounding up yields the least multiple of the alignment that is not below the offset |
| `Layout.RoundUp64Wraps` | src/ast/type_registry.cpp:184-184 | On 64-bit words the rounding is the exact one, modulo 2^64 |
| `Layout.VectorLayout` | src/ast/type_registry.cpp:130-130 | A vector has the least power of two that its components fit in as size and as alignment |
| `Layout.MatrixLayout` | src/ast/type_registry.cpp:131-151 | A matrix is as many columns as rows, each laid out as a vector of floats |
| `Layout.ArrayLayout` | src/ast/type_registry.cpp:152-166 | An array is its elements one after another, each aligned, in 64-bit arithmetic |
| `Layout.ScalarLayout` | src/ast/type_registry.cpp:99-110 | Numbers take 32 bits, handles 64 bits and a boolean one byte, aligned to their sizes |
| `Layout.StructureIsPacked` | src/ast/type_registry.cpp:175-193 | A structure's members lie one after another, each at the first offset with its alignment, with padding up to the first multiple of the structure's alignment, modulo 2^64 |
| `Layout.PackedIsUnique` | src/ast/type_registry.cpp:175-193 | There is only one such layout |
| `Layout.MemberAligned` | src/ast/type_registry.cpp:182-184 | Members of a structure are aligned |
| `Layout.MembersDisjoint` | src/ast/type_registry.cpp:182-184 | Members of a structure that fits into 64 bits are disjoint and in order |
| `Layout.MemberInBounds` | src/ast/type_registry.cpp:182-193 | They end within the structure's size |
| `Layout.Check` | src/ast/type_registry.h:268-291 | The loop accepts exactly the offsets that its 32-bit computation yields |
| `Layout.AcceptedIffSameLayout` | src/ast/type_registry.h:258-295 | C++ members laid out in order are accepted if and only if the registry puts every member where C++ does, computes the size that sizeof has, and that size is below 2^32 |
| `ThreadPool.StepInv` | src/core/thread_pool.cpp:47-137 | Every step keeps the invariant: tasks are popped in order and held by one worker, and each barrier has 1 <= counter <= n, n - counter arrivals in the current phase, and as phase the number of batches it opened |
| `ThreadPool.SynchronizeWaitsForAll` | src/core/thread_pool.cpp:105-109 | When synchronize() returns, every task queued before its batch has finished |
| `ThreadPool.BarrierOrdersTasks` | src/core/thread_pool.cpp:100-103 | A task queued after a batch starts only after all tasks queued before the batch have finished |
| `ThreadPool.RunsAtMostOnce` | src/core/thread_pool.cpp:84-92 | No task runs twice, and none before it was popped |
| `ThreadPool.JoinedMeansDrained` | src/core/thread_pool.cpp:130-137 | After the destructor the queue is empty and every task ever queued ran exactly once |
| `ThreadPool.Progress` | src/core/thread_pool.cpp:84-92 | In every reachable state with work left some thread can step, if each barrier has been used for fewer than 2^32 batches |
| `Deadlock.DrainsIffPhasesFit` | src/core/thread_pool.cpp:58-69 | However the pool runs on from a reachable state until no step is left, it ends with everything done if and only if each barrier has been used for fewer than 2^32 batches |
| `Deadlock.DeadlockIsReachable` | src/core/thread_pool.cpp:58-69 | With any number of threads a run leads to a state with work left in which nothing can ever step |
| `Deadlock.WaiterStays` | src/core/thread_pool.cpp:58-69 | A worker that waits with the last phase before the wrap is released by no run, and its task never finishes |
| `ThreadPool.Drains` | src/core/thread_pool.cpp:84-137 | Left alone, the pool finishes within a bounded number of steps with every task run once |
| `ThreadPool.ReleasedUnlessLastPhase` | src/core/thread_pool.cpp:58-69 | An opened barrier releases its waiters if and only if the phase does not wrap around |
| `ThreadPool.Barrier.Arrive` | src/core/thread_pool.cpp:58-65 | One arrival as the step system describes it |
| `ThreadPool.TaskQueue.DispatchAll` | src/core/thread_pool.cpp:119-128 | One copy for each thread, at most max_threads, at the end of the queue |
| `ThreadPool.TaskQueue.Pop` | src/core/thread_pool.cpp:88-89 | The oldest task leaves the queue |
| `Parallel.EveryIndexOnce` | src/core/thread_pool.h:84-96 | Every run ends within 2n steps and one for each copy, with f called exactly once for each index and the task count decremented once |
| `Parallel.OnceIffIndicesFit` | src/core/thread_pool.h:84-96 | No run calls f twice on an index if and only if n plus the number of copies is at most 2^32 |
| `Parallel.IndexZeroTwice` | src/core/thread_pool.h:91-92 | A run that calls f(0) twice beyond that bound |
| `Parallel.Grid2Covered` | src/core/thread_pool.h:98-105 | The two-dimensional form visits every cell if and only if the product fits in 32 bits |
| `Parallel.Grid2Distinct` | src/core/thread_pool.h:101-104 | No cell is visited twice, none outside the grid |
| `Parallel.Grid3Covered` | src/core/thread_pool.h:107-114 | The same for three dimensions |
| `Parallel.Grid3Distinct` | src/core/thread_pool.h:110-113 | The same for three dimensions |
| `FirstFit.FirstFit.Allocate` | src/core/first_fit.cpp:46-70 | Grants, from the lowest free block strictly larger than the request, the least multiple of the alignment that covers it, or the whole block; null if and only if no block is larger; a sound allocator that grants stays sound if and only if 0 < size <= 2^64 - alignment |
| `FirstFit.FirstFit.Free` | src/core/first_fit.cpp:72-128 | Finds a slot if and only if the block overlaps no free block, merges on both sides, and leaves a sound allocator sound; the error branch is unreachable there |
| `FirstFit.FirstFit.WalkToSlot` | src/core/first_fit.cpp:74-97 | The search of the list |
| `FirstFit.FirstFit.GiveBack` | src/core/first_fit.cpp:76-121 | The insertion and merging cases |
| `FirstFit.FirstFit.Release` | src/core/first_fit.cpp:72-128 | Freeing at the slot found: merging, the outstanding set and soundness |
| `FirstFit.FirstFit.Destroy` | src/core/first_fit.cpp:130-145 | Warns if and only if something is outstanding; recycles every node of the list |
| `FirstFit.FirstFit.constructor` | src/core/first_fit.cpp:20-27 | One free block [0, size), a power-of-two alignment |
| `FirstFit.GrantIsSoundIff` | src/core/first_fit.cpp:49-66 | Free and outstanding blocks stay a partition with aligned offsets and no empty block if and only if the request is above zero and its rounding does not wrap |
| `FirstFit.GrantIsSound` | src/core/first_fit.cpp:49-66 | A grant covers the request and keeps free and outstanding blocks a partition with aligned offsets |
| `FirstFit.ReleaseIsSound` | src/core/first_fit.cpp:76-121 | A release keeps the partition and the alignment |
| `FirstFit.EmptyGrantFails` | src/core/first_fit.cpp:52-125 | Three requests to an allocator of four bytes, one of them empty, all granted and each freed once: the last free fails |
| `Blocks.CanonicalUnique` | src/core/first_fit.cpp:76-121 | A list of sorted blocks with gaps is determined by what it covers |
| `Blocks.FreeListDetermined` | src/core/first_fit.cpp:72-121 | The free list depends on the outstanding blocks only, not on the order of frees |
| `Blocks.SingleBlockIffNothingOut` | src/core/first_fit.cpp:132-137 | The condition that the destructor tests holds if and only if nothing is outstanding |
| `Blocks.SlotIffFits` | src/core/first_fit.cpp:74-97 | A slot exists if and only if the block overlaps no free block |
| `Blocks.GrantKeepsPartition` | src/core/first_fit.cpp:55-65 | Free and outstanding blocks partition [0, total) after a grant |
| `Blocks.ReleaseKeepsPartition` | src/core/first_fit.cpp:76-121 | and after a release |
| `Pool.Pool.Enlarge` | src/core/pool.h:34-43 | A new block's slots become available, first slot on top |
| `Pool.Pool.Create` | src/core/pool.h:84-92 | Slots are either available or live; a new object takes an available slot |
| `Pool.Pool.Recycle` | src/core/pool.h:100-103 | A live slot becomes available again |
| `Pool.Pool.Leaks` | src/core/pool.h:60-74 | The destructor's count finds a leak if and only if some slot is live |
| `Words.NextPow2` | src/core/mathematics.h:23-33 | The least power of two not below v if and only if 1 <= v <= 2^63, else 0 |
| `Words.AlignedSizeCovers` | src/core/first_fit.cpp:52-53 | The mask expression is the least multiple of the alignment that is not below the size |
| `Printer.PrintRun` | src/dsl/printer.cpp:33-52 | After any interleaving of the writing threads, the host loop prints each record that fits exactly once, in the order of the reservations, and reports truncation if and only if more words were reserved than fit |
| `Printer.Print` | src/dsl/printer.cpp:33-52 | The host decodes exactly the records that fit, once each, in the order of their reservations and with their arguments; truncated if and only if the counter exceeds the capacity |
| `Printer.FittingIsPrefix` | src/dsl/printer.cpp:41-49 | The records that fit are those of the first reservations, as many as the buffer has words for |
| `Printer.RunKeeps` | src/dsl/printer.h:126-132 | In every interleaving reservations tile [0, counter), and every word written so far is in its place |
| `Printer.Tiled` | src/dsl/printer.h:129-129 | A reservation ends before the next begins |
| `Printer.CounterKept` | src/dsl/printer.h:131-132 | No write of a record touches the counter |
| `Printer.OtherWord` | src/dsl/printer.h:44-58 | No write of a record touches a word of another one |
| `Printer.ItemIsDecoded` | src/dsl/printer.h:134-164 | The decoder made with an item restores the arguments from its words |
| `Printer.GivenShowsAll` | src/dsl/printer.h:134-164 | What a log call shows holds every value of the kernel once, in order |
| `Printer.GivenInPlace` | src/dsl/printer.h:134-164 | and its texts and values stand in the positions of the arguments |
| `Printer.EncodedIsDecoded` | src/dsl/printer.h:145-152 | Words of booleans, integers and floats are decoded to the values they encode |

## Left out

- Serializer.FunctionSerializer.RoundTrip: the lists of used callables and constants are compared as sets; their order and repetitions follow the order of reading, which may differ from the order of building. What was used but does not occur in any body is lost, and `RoundTrip.ListsBackIff` says that nothing else is.
- Serializer.ReadBack: rebuilt callables are named by the key under which they were written; the new hashes they get are not modelled. Two callables that become equal when their builtin variables turn into arguments stay two here; `RoundTrip.EqualBodiesListTheSame` shows that either can stand for the other.
- RoundTrip.ValueBack: a JSON scalar of another kind than the literal's type is an error here, although the JSON library converts between some of them; no well-formed kernel has one.
- FunctionParse.ParseFunction: the `parse_*` members thread the builder and the parsed table as values; updates in place and the stacks of builders and variables are not captured, and a compound statement is appended when its scopes are complete instead of before.
- FunctionBuilder.FunctionBuilder.CallFunction: after an error, which ends the program, the state is not specified.
- UsageMarking.Expressions.MarkAll: statements that only mark one operand as read (if, switch, case, return, expression statements) and unary, cast and literal nodes follow the same pattern and have no extra rows.
- ThreadPool.Progress: needs fewer than 2^32 batches on each barrier, and `Deadlock.DrainsIffPhasesFit` shows that the condition is exact.
- Layout.MembersDisjoint: for structures that fit into 64 bits; sizes that wrap around are modelled, but overlap then.
- Printer.Print: assumes that the words reserved since the last reset fit in 32 bits, and leaves out the check that the printer was reset.
- FirstFit.FirstFit.Allocate: does not keep the allocator sound for a request of size zero or above 2^64 - alignment, because the program does not; `FirstFit.GrantIsSoundIff` states the exact condition, `FirstFit.EmptyGrantFails` is a run in which a later `free` fails, and `FirstFit.FirstFit.Free` says exactly when it does.
- BuiltPrograms.LibraryIsProgram: nested scopes are appended whole with their statements; that returns inside them agree is assumed, as the builder checks it while the scope is open.
- FirstFit: the move constructor and the move assignment, which do not transfer the list.
- Constant data: a constant is its hash; its bytes are not modelled.
- Hashing of functions, types and expressions: hashes stand for what is hashed.
- Thread pool: the build that uses `std::barrier`, condition-variable wake-ups, memory orders, exceptions in tasks, `async`, and concurrent callers of `barrier` or `synchronize`; `task_count` is modelled for `parallel` only.
- Binary serialization, which is not implemented in the program.
- Sharing of expression nodes between statements: bodies are trees in the serializer and the definition analysis; usage marking is on the shared graph.
- The rest of LuisaCompute: the runtime scheduler, back ends, DSL templates, matrix functions, windows and platform code.
