# Pup: a verified model

Pup is a small Ruby-like language. Its front end, in Ruby, turns a syntax tree into LLVM
blocks; its runtime, in C, has a collector, an allocator and an unwinder. This project models
the parts with the most state and proves what they promise, over all inputs, runs and
interleavings. `dafny verify dfyconfig.toml` checks everything.

The parts, with the files that hold them:

- **Code generation** (`PupAst`, `Ir`, `Runtime`, `AstEval`, `Machine`, `Codegen`,
  `CodegenContext`, `ExprProof`, `StmtProof`, `UnitProof`, `RescueProof`, `UnitExamples`).
  `Codegen` is the generator as a function from syntax to blocks, slots and locals. `CodegenContext` does the
  same with a mutable builder that is repositioned and patched later, as the original does,
  and is proved to give the same graph. `AstEval` evaluates the syntax, `Machine` runs the
  graph, and the proofs relate the two, for any answers of the runtime. Values are opaque; the
  order and arguments of runtime calls are observed.
- **Tracing** (`Graphs`, `MarkSpec`, `MarkProof`, `MarkRoots`, `MarkSmall`, `MarkSound`, `MarkRuns`,
  `GcState`). What marking does to the queue and the marks, first as functions over a graph, then in
  place over linked segments of 200 references and objects with attribute lists. "Reachable" is
  reachable from the program's roots, which are what is queued when a scan starts, by the
  references that the code traces: an object's class and its attribute values. What the collector's
  own segment still holds from earlier periods is not a root.
- **Objects and classes** (`Attributes`, `Objects`, `Classes`).
- **The heap** (`Bytes`, `Regions`, `RegionHeap`, `Heap`, `AllocRuns`, `Sweep`, `Accounting`):
  bytes, headers, walks by stored sizes, one region per thread, the sweep over the others and what it counts.
- **Protocols** (`LockFree`, `Safepoint`): state machines over the single steps of all threads.
- **Exception tables** (`Words`, `Leb`, `LebProof`, `Pointers`, `Lsda`, `LsdaProof`,
  `LsdaRanges`): numbers as in section 7.6 of DWARF 3, the language-specific data area, and the two phases of section 1.6
  of the Itanium C++ ABI: Exception Handling.
- **Stack maps** (`StackMap`, `StackMapProof`, `StackMapCounts`): the printer and the reader.
- **Symbols** (`Symbols`, `SymTable`).

`Options` holds the type of a value that may be missing, `Sequences` the notion of a list without
repetition.

Places where the code does less than its surroundings suggest, each with its exact condition:

- `-` and `!=` parse, but are compiled as `+` and `==` (`PupAst.OperatorIsSent`).
- Compound assignments such as `x += 1` parse, but code generation never looks at the operator and
  compiles them as `x = 1` (ast_codegen.rb:94-119, parser.treetop:142-167). The `else` and `ensure`
  parts of a begin parse and are dropped (ast_codegen.rb:319-365).
- A begin rescues only what method invocations raise: only `pup_invoke` is emitted as an invoke
  with a landing pad (codegen_context.rb:217-231). Other runtime calls raise too, as the lookup of
  an undefined constant does (class.c:222-231), and then the exception passes the clauses by
  (`RescueProof.RescuedIffInvocation`, `RescueProof.UndefinedConstantPassesBy`).
- The segment that tracing fills (`current_segment`) is handed to the queue only when it is full.
  What is in it when the scan ends stays unscanned, so objects that the roots reach can stay
  unmarked: nothing is missed if and only if every reference left there that the roots reach is
  marked (`MarkProof.CompleteUnlessLeftover`). When the segment has room for everything the roots
  refer to, only the roots get marked (`MarkSmall.SmallScanMarksQueued`), which is exact if and only
  if they refer to roots only (`MarkSmall.SmallScanExactIff`).
- What is left in the segment stays there for the next period, even when the program has dropped it,
  and is scanned when the segment overfills. So from the second period on garbage can be marked
  (`MarkRuns.LeftoverRevivesGarbage`). Only what the roots reach gets marked if and only if there is
  room in the segment for all they refer to, or what is left in it is reachable or carries the live
  mark already (`MarkSound.SoundIff`).
- Flipping the live value instead of clearing marks works for a run if and only if each of its
  collections is complete (`MarkRuns.FlippingWorksIff`); roots that refer to roots only are enough
  for that, and in small collections are needed (`MarkRuns.ClosedRootsWork`).
- `pup_gc_state_create` never assigns `current_segment` (gc.c:232-248), so its first value is
  indeterminate; the model takes it as null.
- Garbage in a thread's own region is not swept, so its mark can come round to mean live again by
  the time it is; the sweep then counts it as live (`Accounting.SweepCountsGarbage`). What exactly
  the live count counts is `Accounting.LiveCountAfterTracing`.
- An action chain that comes back to itself is followed for ever (`Lsda.LongIsEndless`). The methods
  of `Lsda` notice it and answer `Endless`, `Hangs`.
- The value of a while whose body never ran is whatever its slot holds.
- LEB128 groups are shifted as ints. A shift of 32 bits or more, or into the sign, is undefined
  in C; the model takes the behaviour of x86-64, where shift counts are taken modulo 32 and the
  result is sign-extended (`LebProof.UnsignedRoundTrip`, `LebProof.SignedRoundTrip`).
- The reader of stack maps adds four bytes to each stride, which matches the printer's alignment
  only over odd live counts (`StackMapProof.OnTrackIffOdd`, `StackMapCounts.CountsDecide`).
- A safepoint flag cleared after the barrier can swallow the next period's signal
  (`Safepoint.MeetsUnlessLost`).
- A second stealing thread would make the lists unsafe (`LockFree.SafeIffOneStealer`); the code has
  only one, the collector.
- A method defined again is appended behind the first, so the first stays in force
  (`Classes.GetAfterDefine`).

Conventions. Memory is a sequence of bytes, least significant byte first, with the layout that
the x86-64 ABI gives the structures: an object's data starts nine bytes into its 16-byte header
block, and its mark bit 16 bytes into its data. For exception tables the buffer is all of memory,
and an address is an index into it. A read outside a buffer is an outcome of its own (`Fault`,
`Crashed`, `OutOfMap`). `ABORTF` and `abort()` are outcomes too, except where a type already rules
the case out. Words of 32 and 64 bits wrap explicitly where they are decoded. Allocation of memory
by the system succeeds.

## Model

| member | source | states |
|---|---|---|
| PupAst.OperatorIsSent | ast_codegen.rb:176-192 | `==` and `!=` send the message `==`, `+` and `-` send `+`, and a comparison sends itself; so what is written is sent exactly when it is neither `!=` nor `-` |
| UnitExamples.BinarySends | ast_codegen.rb:170-192 | a compiled unit that is one operator between any two expressions calls just that message, in letters, when both have their values, with the left one as receiver and the right one as argument, and stops with the answer |
| Codegen.CompiledGraphIsComplete | ast_codegen.rb:10-155 | every block of a compiled unit ends in one terminator, whose targets are blocks of the unit other than the entry block |
| Codegen.IfAdvances | ast_codegen.rb:33-65 | generating an if/else keeps all code emitted before it, closes the block it began in and leaves an open block at its end |
| Codegen.WhileAdvances | ast_codegen.rb:67-92 | the same for a while loop |
| Codegen.BeginAdvances | ast_codegen.rb:319-397 | the same for a begin with its landing pad, test blocks and rescue blocks |
| Codegen.RescueAdvances | ast_codegen.rb:367-397 | one clause adds its test blocks and one rescue block, closes the tests it made and leaves the last "not matched" block open |
| ExprProof.SimExpr | ast_codegen.rb:94-223 | started at the code of an expression, in any linked program, the machine reaches the value, exception or escape that the evaluator computes, with the same calls and locals, and disturbs no register in use |
| ExprProof.SimInvocation | codegen_context.rb:204-231 | an invocation sends the stored arguments; its outcome continues in the next block, or, inside a begin, goes to the landing pad when it raises |
| ExprProof.SimStoreArgs | codegen_context.rb:210-215 | the argument array holds exactly the argument values, in order, when the call is made |
| ExprProof.SimAssignLocal | ast_codegen.rb:106-111 | an assignment makes the local before its right-hand side is generated, and stores the value in it |
| ExprProof.SimAssignInst | ast_codegen.rb:113-118 | an assignment to an instance variable sets that variable of self and yields the value |
| ExprProof.SimConst | ast_codegen.rb:138-142 | a constant is looked up in the class context of self |
| ExprProof.SimBinary | ast_codegen.rb:170-192 | the left operand is evaluated before the right, then the message is sent |
| StmtProof.SimIf | ast_codegen.rb:33-65 | an if runs one branch, chosen by comparing the condition with the false object, and yields that branch's value |
| StmtProof.SimLoop | ast_codegen.rb:67-92 | each round trip through the loop's blocks is one iteration of the evaluator's loop, with a safepoint behind each body |
| StmtProof.SimWhile | ast_codegen.rb:67-92 | a while yields the value its result slot holds: that of the last body run, and whatever was there when no body ran |
| StmtProof.SimBegin | ast_codegen.rb:319-365 | a begin yields the body's value, or a rescue clause's, or passes the exception on |
| StmtProof.SimHandler | ast_codegen.rb:335-353 | the landing pad fetches the exception object and its class, tries the clauses in order and rethrows behind the last |
| StmtProof.SimRescues | ast_codegen.rb:346-397 | the chain of test blocks makes the evaluator's tests, in order, and runs the clause it chooses |
| StmtProof.SimTypes | ast_codegen.rb:372-387 | the tests of one clause are made in order until one matches |
| StmtProof.SimTests | ast_codegen.rb:370-387 | the tests of a clause, as emitted, lead to its rescue block or to the block behind the last test |
| StmtProof.SimStmts | ast_codegen.rb:25-31 | statements run in order and yield the last value |
| StmtProof.KnownStmts | codegen_context.rb:153-172 | the names that code generation takes for locals are those assigned earlier in the text, on whatever path |
| UnitProof.EntryRuns | gclib/lib/pupgcplugin/pupgc.cpp:11-12 | the entry block allocates every slot before the body starts, and locals start as null |
| UnitProof.SimUnit | ast_codegen.rb:10-23 | with any amount of fuel, the compiled unit stops as the evaluator stops, or runs on for at least that many steps |
| UnitProof.MeaningPreserved | ast_codegen.rb:10-155 | whatever a unit evaluates to, the compiled graph comes to it from its entry block: same outcome, same trace of runtime calls, same locals |
| UnitProof.StopsAsEvaluated | ast_codegen.rb:10-155 | conversely a compiled unit that stops does so as the evaluator says |
| UnitProof.NeverStuck | codegen_context.rb:143-172 | no run of a compiled unit reads an unset register or a missing slot, or runs off the end of a block |
| UnitProof.LocalsAreAssignedNames | codegen_context.rb:153-172 | the local slots made are those of the names the text assigns |
| RescueProof.EmittedTestsDecide | ast_codegen.rb:370-387 | when the classes a clause lists are defined, the tests emitted for it look them up as far as the first ancestor of the exception's class, RuntimeError when none is listed, and enter its rescue block if and only if there is one |
| RescueProof.ChainEntersFirst | ast_codegen.rb:346-397 | the emitted chain enters the rescue block of the first clause in source order that lists an ancestor, having made just the lookups up to there; otherwise it comes to the rethrow |
| RescueProof.PadEntersFirst | ast_codegen.rb:337-353 | the same from the landing pad, where the exception arrives; without a match it leaves the unit |
| RescueProof.BeginDispatches | ast_codegen.rb:319-365 | wherever a begin stands in a program, an exception that an invocation in its body raises makes the compiled begin go on as the first clause does that lists an ancestor of its class, or raise it again; any other outcome of the body, exceptions of other runtime calls too, is the outcome of the begin |
| RescueProof.UnitDispatches | ast_codegen.rb:10-23 | a compiled unit that is one begin stops with just that outcome, the calls of the body, the lookups as far as the matching class and the calls of the clause, and the values of the locals after them |
| RescueProof.RescuedIffInvocation | codegen_context.rb:217-231 | when the body of a begin throws, its clauses are tried if and only if the runtime call that raised was a method invocation; otherwise the exception leaves the unit past them |
| RescueProof.UndefinedConstantPassesBy | class.c:222-231 | whatever its clauses are, a begin around an undefined constant rescues nothing: the exception leaves the unit, and the lookup is the only call |
| UnitExamples.TestFollowsSuperclasses | class.c:190-202 | where the world's ancestors of the exception's class are its chain of superclasses, the test compiled for a listed class holds if and only if that class is on the chain, which is what `Classes.IsDescendantOrSame` answers |
| UnitExamples.ListedAncestorRescues | ast_codegen.rb:367-387 | a compiled begin around a call that raises: the class its clause names, or `RuntimeError` when it names none, is looked up, and the clause runs if and only if that class is the exception's class or among its ancestors |
| UnitExamples.EveryFormCompiles | ast_codegen.rb:25-92 | ifs, whiles and begins of any expressions, inside each other, are among the units that the theorems above are about |
| CodegenContext.GenerateUnit | ast_codegen.rb:10-23 | building a unit with the repositioned builders gives the graph that all theorems above are about |
| CodegenContext.Context.constructor | codegen_context.rb:131-151 | a method starts with its entry block |
| CodegenContext.Context.Append | codegen_context.rb:53-62 | a new block goes behind all others |
| CodegenContext.Context.PositionAtEnd | codegen_context.rb:64-74 | only the place of insertion changes |
| CodegenContext.Context.InsertTerm | codegen_context.rb:64-74 | the terminator goes to the end of the current block and no other block changes |
| CodegenContext.Context.LocalFor | codegen_context.rb:153-162 | a local has one slot, made at its first use, in the entry block |
| CodegenContext.Context.GenerateArgv | codegen_context.rb:204-215 | the argument array is made in the entry block and filled in the current one |
| CodegenContext.Context.GenerateInvocation | codegen_context.rb:204-231 | emits a call, or inside a begin an invoke with a continuation block that becomes current |
| CodegenContext.Context.GenerateExpr | ast_codegen.rb:94-223 | leaves exactly the blocks, slots and locals of the expression's code behind |
| CodegenContext.Context.GenerateStmts | ast_codegen.rb:25-31 | the same for a list of statements, in a loop over them |
| CodegenContext.Context.GenerateIf | ast_codegen.rb:33-65 | the same for an if/else, whose blocks are made before its condition is generated |
| CodegenContext.Context.GenerateWhile | ast_codegen.rb:67-92 | the same for a while loop |
| CodegenContext.Context.GenerateBegin | ast_codegen.rb:319-365 | the same for a begin, whose rescue blocks get their branches only when the last block exists |
| CodegenContext.Context.GenerateRescue | ast_codegen.rb:367-397 | the same for a clause, whose tests get their branches only when its rescue block exists |
| CodegenContext.Context.GenerateTypes | ast_codegen.rb:372-380 | the same for the loop over a clause's classes |
| CodegenContext.Context.PatchAllTests | ast_codegen.rb:384-387 | each test's block gets its conditional branch; other blocks keep theirs |
| CodegenContext.Context.JumpAll | ast_codegen.rb:356-359 | each rescue block gets its branch to the block behind the begin |
| MarkProof.QueueRefsCount | gc.c:154-173 | queueing keeps every segment within its 200 references and adds exactly the references given |
| MarkProof.ScanRefsKeepsInv | gc/refqueue.c:73-86 | scanning a segment keeps the invariant: marked objects are reachable, and what a marked object refers to is marked or still queued |
| MarkProof.ScanHeapKeepsInv | gc.c:257-266 | the invariant holds throughout the scan of the heap, up to its end |
| MarkProof.MarksOnlyTraceable | gc.c:257-266 | when the scan ends the queue is empty, and every object marked by it is reachable from the queued roots or from what earlier periods left in the current segment |
| MarkProof.NothingForgotten | gc/refqueue.c:66-86 | at the end each reference of a marked object, each queued root and each reference left from before is marked or left in the current segment |
| MarkProof.MissedIsBehindLeftover | gc.c:175-182 | every object reachable from the queued roots that stays unmarked is reachable from a reference left in the current segment, itself reachable and unmarked |
| MarkProof.CompleteUnlessLeftover | gc.c:175-182 | everything reachable from the queued roots is marked if and only if every reference left in the current segment that is reachable from them is marked |
| MarkProof.BoundedWork | gc.c:257-271 | each object's fields are scanned at most once, and references scanned plus references left equal those queued at first plus one plus the attribute count for each object marked |
| MarkProof.RootsBecomePending | gc.c:175-193 | root collection queues each root of a frame and nothing else, and overfills no segment |
| MarkSpec.ScanStepShrinks | gc.c:257-266 | each turn of the tracing loop leaves fewer unmarked objects, or as many and fewer segments |
| MarkSmall.SmallScanMarksQueued | gc.c:154-173 | in any period, when the current segment has room for its leftovers and all that the queued objects refer to, the scan marks the queued objects and nothing else |
| MarkSmall.SmallScanExactIff | gc.c:154-193 | such a scan marks exactly what is reachable from the roots if and only if the roots refer to roots only, which can be told before it starts |
| MarkSmall.ClosedQueueIsComplete | gc.c:257-266 | when the roots refer to roots only, a scan of any size misses nothing |
| MarkSmall.ClassOfLoneRootIsMissed | gc.c:175-193 | a heap of one root and its class: the class is reachable and stays unmarked |
| MarkSound.LeftoversGetMarked | gc.c:154-173 | when the current segment has no room for all that the roots refer to, it is handed on, and everything that earlier periods left in it gets marked |
| MarkSound.SoundIff | gc.c:154-173 | the scan marks only what is reachable from the roots if and only if there is such room, or what earlier periods left is reachable or carries the live mark already |
| MarkSound.ExactIff | gc.c:257-266 | it marks exactly what is reachable from the roots if and only if that holds and every reachable reference left at the end is marked |
| MarkSound.ClosedQueueExactIff | gc.c:257-266 | when the roots refer to roots only, whatever their number, the first of these conditions alone decides, before the scan |
| MarkRuns.FlipUnmarks | gc.c:295-300 | after the flip nothing the program can reach carries the new live value if and only if everything it can reach carried the old |
| MarkRuns.CollectKeepsIffComplete | gc.c:257-300 | after a collection everything the program can reach carries the live mark if and only if every reference left over that it can reach is marked |
| MarkRuns.CompleteIfClosed | gc.c:257-266 | this can be told before: it is so when the roots refer to roots only, and, given room in the segment for what they refer to, only then |
| MarkRuns.StepKeepsIff | heap.c:571-574 | allocation with the synced mark, attribute writes and changing roots always keep everything the program can reach live-marked; a collection does if and only if it is complete |
| MarkRuns.ReachedAfter | gc.c:175-193 | what the program can reach after each of its steps, exactly: a new object is added, a write cuts off what only the old references led to and adds what the new ones lead to, dropping roots leaves what the others lead to |
| MarkRuns.FlippingWorksIff | gc.c:295-300 | over any run, everything the program can reach is live-marked at every moment if and only if each collection of the run is complete |
| MarkRuns.ClosedRootsWork | gc.c:257-300 | over any run: so it is when the roots refer to roots only whenever there is a collection, and, when each collection has room in the segment, only then |
| MarkRuns.FlippingWorks | gc.c:295-300 | after any run of complete collections the next period starts with nothing marked that the program can reach; it marks all of that if and only if it is complete, and only that if and only if the segment has room or what is left in it is reachable or marked |
| MarkRuns.IncompleteCollectionBreaksFlipping | gc.c:226-230 | a heap in which one incomplete collection lets an old mark pass for the next live mark |
| MarkRuns.OldMarkComesRound | gc.c:295-300 | two complete collections, in the second of which unreachable garbage carries the live value from its start |
| MarkRuns.LeftoverRevivesGarbage | gc.c:154-173 | a heap, all live-marked, with a full segment: the collection marks an object that no root reaches |
| MarkRuns.ExampleRun | heap.c:346-363 | a run with a step of each kind is possible, and ends with what the program uses live-marked and the rest garbage |
| MarkRoots.FrameHoldsRoots | gc.c:175-193 | the segments that one frame pushes hold exactly its roots, at most 200 in each |
| MarkRoots.FramesInTurnHoldRoots | gc.c:175-193 | frame after frame, root collection leaves exactly the roots on the queue |
| MarkRoots.SegmentsHoldRoots | gc.c:208-224 | in whatever order the segments of all frames are on the queue, they hold exactly the roots |
| MarkRoots.AnyInterleavingHoldsRoots | gc.c:112-152 | when the threads have made the segments that their frames fill and none has one in its hands any more, then after any interleaving of the single steps of their compare-and-swap pushes, lost races included, following the list from its head visits segments that hold exactly the roots |
| MarkRoots.SegmentsAreReady | heap.c:346-359 | so the scan starts with exactly the roots queued |
| MarkRoots.SegmentsMayCollect | heap.c:346-359 | and a collection of a run may begin |
| GcState.Segment.Add | gc/refqueue.c:39-49 | the reference goes behind the others in the fixed array, or the segment is full and nothing changes |
| GcState.Collector.AddSegmentToGlobalQueue | gc.c:126-137 | the segment becomes the head of the linked queue |
| GcState.Collector.StealSegmentFromGlobalQueue | gc.c:139-151 | the head is taken off, or null when there is none |
| GcState.Collector.MakeRoom | gc.c:154-164 | afterwards the current segment has room; a full one has moved to the queue |
| GcState.Collector.QueueForMarking | gc.c:154-173 | in place, what MarkSpec.QueueRef does to the queue |
| GcState.Collector.EachRef | object.c:228-240 | the object's class and then each attribute value is queued, in list order |
| GcState.Collector.MarkReachable | gc.c:268-271 | the mark is set and true returned exactly when it was not set |
| GcState.Collector.ScanQueueRef | gc/refqueue.c:73-78 | in place, one step of the traced specification; references between objects stay |
| GcState.Collector.ScanSegment | gc/refqueue.c:80-86 | each reference of the segment is scanned in order |
| GcState.Collector.ScanHeap | gc.c:257-266 | the tracing loop computes MarkSpec.ScanHeap on the graph of the objects in memory |
| GcState.Collector.ScanReachable | heap.c:356-359 | on the objects in memory: what gets marked; that it is only what the queued roots reach if and only if the current segment has room, or holds nothing else to begin with; and that it is all of that if and only if each reachable reference left in the segment is marked |
| GcState.Collector.PeriodStart | gc.c:295-300 | the counters start at zero and the flip exchanges marked and unmarked objects |
| Attributes.GetAfterSet | object.c:183-226 | setting one symbol gives it that value, changes no other symbol's answer and lists no symbol twice |
| Attributes.ListRefinesMap | object.c:183-226 | after any sequence of sets the list answers every get as a map would |
| Objects.PupObject.FindAttr | object.c:183-194 | the first entry with the symbol, or null |
| Objects.PupObject.IvSet | object.c:206-217 | the linked list becomes the list with the symbol set; new entries go in front |
| Objects.PupObject.IvGet | object.c:219-226 | what the list holds for the symbol, if anything |
| Objects.PupObject.GcCopyInstance | object.c:66-93 | a fresh object with the same class and mark and, in the same order, fresh entries with the same symbols and values |
| Regions.WalkVisitsEach | heap.c:318-323 | stepping by stored sizes visits each allocated record once, in order, and stops at the end of what is allocated |
| Regions.RecordsApart | heap.c:519-529 | records lie in order, do not overlap and end before the end of what is allocated |
| Regions.DataWriteKeepsTiling | heap.c:44-48 | a write into one record's data changes no header, no other record's data and no walk |
| Regions.TilingGrows | heap.c:519-529 | a record laid down at the end extends the tiling by itself |
| Bytes.ReadBack | heap.c:44-48 | a size stored byte by byte is the size read back |
| RegionHeap.Region.constructor | heap.c:50-73 | a new region is empty and tiled |
| RegionHeap.Layout | heap.c:44-48 | in numbers: the size is in the first eight bytes of a header, the kind in the low bit of the ninth, and an object's mark in the low bit of the byte 25 behind the header's start |
| RegionHeap.Region.MakeRoomFor | heap.c:519-529 | exactly one record is added, its data starts right behind its header, and no byte outside that header changes |
| RegionHeap.Region.Allocate | heap.c:571-574 | the new record has the given mark, unless it is tiny and its mark would lie outside the region, and all earlier records keep theirs |
| RegionHeap.Region.SetMark | object.c:251-254 | one mark changes; records and other marks stay |
| Heap.PupHeap.RegionFor | heap.c:514-570 | the thread keeps its region if and only if what it has used, the request and 16 bytes more are at most 0x100000; otherwise a new one takes its place, and the old one goes to the list |
| Heap.PupHeap.ThreadLocalAlloc | heap.c:553-575 | the record goes behind the others in the thread's own region, with the thread's mark; other regions, records and marks stay; every region remains one thread's own or on the list, once |
| Heap.PupHeap.Alloc | heap.c:577-588 | requests above 0x1000 bytes abort and change nothing; all others get a record, and its mark too unless that would lie outside the region, which cannot happen for an object or attribute entry |
| AllocRuns.AllocateInTurn | heap.c:514-575 | from an empty region, all requests whose sizes and 16 bytes each add up to at most 0x100000 land in it, one behind the other, and the list stays as it was |
| AllocRuns.AllocateBeyond | heap.c:553-575 | the first request beyond that lands in a new region, and the full one, with all its records, goes to the list |
| Heap.PupHeap.WriteData | heap.c:44-48 | an in-bounds write of a mutator keeps every region tiled and every other mark |
| Heap.PupHeap.ThreadInit | heap.c:170-186 | a thread starts with an empty region of its own |
| Heap.PupHeap.CollectRegion | heap.c:307-324 | the byte walk counts exactly the region's object records, by whether they carry the live mark |
| Heap.PupHeap.SweepRegion | heap.c:326-337 | one region leaves the list, with its objects accounted for |
| Heap.PupHeap.CollectUnmarked | heap.c:326-337 | the list is empty afterwards, threads keep their regions, and live plus garbage is the number of object records that were on the list |
| Sweep.CountMarkedIsCard | object.c:261-269 | the live count of a region is the number of its object records with the live mark |
| Sweep.LiveCountIsReachableCount | object.c:261-269 | when the marks are exact, the live count is the number of reachable objects on the list |
| Accounting.LiveCountIsMarkedCount | object.c:261-269 | when memory holds the marks that tracing left, the live count is the number of marked objects on the list |
| Accounting.LiveCountAfterTracing | heap.c:346-363 | the live count is the number of objects on the list that the roots reach, less those the scan missed, plus unreachable ones that carried the live value from the start and unreachable ones that the scan marked |
| Accounting.LiveCountExactIff | heap.c:346-363 | when nothing is missed it is exact if and only if there are none of these two kinds; of the second there are none when the segment has room, or what was left in it is reachable or marked |
| Accounting.SweepAfterTracing | heap.c:307-324 | the same of what the sweep returns, whose two counts add up to the number of objects on the list |
| Accounting.SweepCountsGarbage | heap.c:307-324 | the bytes of a tiled region of two objects, of which one is reachable and the sweep counts both as live |
| LockFree.StepIsStackStep | gc.c:126-151 | with one stealer, every step of every interleaving pushes one node, pops the node it returns, or leaves the list as it was |
| LockFree.OneStealerIsSafe | gc.c:126-151 | in every interleaving the list is acyclic and duplicate-free, no node is stolen twice, and the nodes pushed are those listed and those stolen, also when stolen addresses are used again |
| LockFree.NothingIsLost | gc.c:126-151 | in every interleaving with any number of pushers, the nodes made are exactly those pushed and those that a pusher still has in hand, also one that lost a race; each is listed, stolen or in hand, and in one place only |
| LockFree.LonePusherPushes | heap.c:531-550 | from wherever it is in its loop, after a lost race too, a pusher left alone puts its node in front of the list within five steps |
| LockFree.RestingPusherPushes | gc.c:126-137 | a thread at rest can make a node at any free address and push it |
| LockFree.LoneStealerTakes | gc.c:139-151 | a stealer left alone takes the first node of the list within five steps |
| LockFree.StaleSwap | heap.c:259-272 | with two stealers there is a run in which a reused address lets a freed node back in and it is stolen twice |
| LockFree.SafeIffOneStealer | heap.c:531-550 | all interleavings are safe if and only if there is no more than one stealer |
| Safepoint.ScanIsSafe | heap.c:346-363 | in every interleaving, when the heap scan is entered each listed thread has queued its roots since this period's flip and allocates with the live mark |
| Safepoint.MutatorsNeverMeet | heap.c:188-201 | only the thread being converged comes to the barrier, so it always meets the collector |
| Safepoint.CollectorKeeps | heap.c:346-363 | every step of the collector keeps the protocol's invariant |
| Safepoint.ThreadKeeps | heap.c:421-433 | every step of a thread keeps it, with the handler interrupting anywhere |
| Safepoint.MeetsUnlessLost | heap.c:196-219 | a waiting collector can still be met if and only if the thread's flag is not about to be cleared with no signal on its way |
| Safepoint.SignalCanBeLost | heap.c:196-201 | one thread whose flag is cleared after the next period's handler has run: the collector waits for ever |
| Safepoint.PeriodCanComplete | heap.c:346-363 | between two periods, whatever the threads still have to do and however many they are, there is a run through the convergence of each and the heap scan to the end of the next period |
| Words.OrAdds | raise.c:92 | or-ing in a group behind the bits already read adds it |
| Leb.ReadULEB128 | raise.c:82-100 | the loop reads up to the first byte with a clear top bit and or-s the shifted groups as the hardware shifts ints |
| Leb.ReadSLEB128 | raise.c:109-137 | the same, and sign bits are filled in behind the last group when fewer than 64 bits were read |
| Leb.GatheredRange | raise.c:92 | whatever the bytes, the value is a 32-bit signed int, widened |
| Leb.EndOf | raise.c:89-97 | the cursor ends just past the first byte with a clear top bit |
| LebProof.UnsignedRoundTrip | raise.c:82-100 | at any buffer position, a 64-bit number is read back if and only if it is below 2^31 or among the last eight |
| LebProof.SignedRoundTrip | raise.c:109-137 | at any buffer position, a signed 64-bit number is read back if and only if it is at least -2^27 and below 2^31 |
| LebProof.PrintedExamples | raise.c:74-143 | the encodings are those printed in figures 22 and 23 of DWARF 3 |
| Pointers.ReadEncodedPointer | raise.c:147-227 | each format is read at its width and sign, counted from its place when relative, followed when indirect; unsupported forms abort, an omitted pointer is empty |
| Pointers.FormatCodes | dwarf.h:423-432 | the codes of the formats in numbers, each with its width, sign and byte order |
| Pointers.LowHalf | raise.c:155-196 | only the low half of an encoding says the format, and its remaining seven values abort |
| Pointers.ApplicationCodes | dwarf.h:433-439 | 0x10 adds the pointer's own place, 0x80 reads the word at the result, the other applications abort |
| Pointers.PointerRoundTrip | raise.c:147-227 | in each supported direct encoding, a word is read back if and only if the encoding can hold it, and the cursor is right |
| Pointers.RelativeRoundTrip | raise.c:199-206 | a word stored as its distance from its own place is read back if and only if the distance is in range |
| Lsda.UnwindCallsiteRead | raise.c:292-300 | three pointers and an action, in order, stopping at the first that fails |
| Lsda.ReadLink | raise.c:255-257 | a filter, and a displacement that counts from its own place |
| Lsda.LongIsEndless | raise.c:246-282 | a chain never ends if and only if it can be followed for more links than there are bytes |
| Lsda.HandleActionValue | raise.c:234-283 | the outcome of following any chain to its end, or that it has none; nothing for a foreign exception |
| Lsda.HandleLsda | raise.c:309-395 | the loop over the call-site table, in either phase, for any bytes |
| LsdaRanges.CleanupByAddress | raise.c:302-394 | for a written data area, in numbers: with the function at f, cleanup for a call that returns to ip installs f + pad of the first entry with a pad and f + start < ip <= f + start + length, with the number of the first positive filter of its chain or zero; without such an entry unwinding goes on |
| LsdaRanges.SearchByAddress | raise.c:302-394 | search finds a handler if and only if the exception is not foreign and some such entry has a positive filter in its chain |
| LsdaRanges.EntryAtTwenty | raise.c:302-307 | the literal bytes of an area with one entry for the bytes 20 to 29, and every address asked of it |
| Lsda.Personality | raise.c:397-417 | other versions and frames without data are passed by |
| LsdaProof.ChainIsSearched | raise.c:246-282 | over any finite chain of encoded links the walk returns the 1-based index of the first positive filter, and fails if and only if every filter is zero |
| LsdaProof.SiteRoundTrip | raise.c:292-300 | an entry is read back if and only if its numbers are in range |
| LsdaProof.TableRoundTrip | raise.c:333-346 | any written table is read to its exact end, and as the same list if and only if all its numbers are in range |
| LsdaProof.HeaderReads | raise.c:320-339 | the header of a written data area, with or without a type table, leads to its call-site table |
| LsdaProof.ScanIsListScan | raise.c:340-391 | scanning the bytes is scanning the list of entries they hold |
| LsdaProof.LsdaMeansList | raise.c:309-395 | a written data area gives, in each phase, the outcome that its list of entries gives |
| LsdaProof.CleanupTakesFirst | raise.c:365-386 | cleanup installs the first entry with a landing pad whose range holds the pc, with its action value or zero |
| LsdaProof.SearchFindsMatch | raise.c:353-390 | search finds a handler if and only if such an entry matches and those before it have no match |
| LsdaProof.PhasesAgree | raise.c:353-390 | of a list of entries: when search stops with a handler at an entry, every earlier one with a landing pad that holds the pc has no match, and cleanup installs the same entry, with the same positive value, if and only if there is no such earlier one |
| LsdaProof.LsdaPhasesAgree | raise.c:309-395 | the same of the bytes of any data area for which search finds a handler; its table may go bad behind that entry |
| LsdaProof.DisjointPhasesAgree | raise.c:339-394 | so with disjoint ranges the phases agree |
| LsdaProof.OverlapDisagrees | raise.c:365-390 | the bytes of a data area with two overlapping entries for which they do not |
| LsdaProof.ForeignNeverCaught | raise.c:348-352 | whatever the bytes, search finds no handler for a foreign exception |
| StackMap.Streamer.EmitAlignment | gclib/lib/pupgcplugin/pupgcprinter.cpp:81-82 | zeros up to the next multiple of eight |
| StackMap.Streamer.EmitPoint | gclib/lib/pupgcplugin/pupgcprinter.cpp:79-104 | alignment, address, frame size, live count and every offset in order |
| StackMap.Streamer.EmitMap | gclib/lib/pupgcplugin/pupgcprinter.cpp:47-104 | the symbol is at an aligned place, followed by the count and every point |
| StackMap.Streamer.FinishAssembly | gclib/lib/pupgcplugin/pupgcprinter.cpp:24-106 | the maps of all functions follow each other, each under its own symbol |
| StackMap.FindSafepoint | gc.c:63-95 | the loop over points by the reader's own stride |
| StackMap.ReadOffsets | gc.c:175-193 | the offsets of a found point, in order |
| StackMapProof.StrideAgrees | gc.c:88-92 | reader and printer step alike over a point if and only if its live count is odd; otherwise the reader is four bytes ahead |
| StackMapProof.OnTrackIffOdd | gc.c:81-93 | the reader comes to each point's own place, up to any point, if and only if all points before have odd live counts |
| StackMapProof.StackMapRoundTrip | gc.c:81-93 | with odd counts before it, the first point with the sought address is found, with its frame size and full list of offsets |
| StackMapProof.AssemblyRoundTrip | gclib/lib/pupgcplugin/pupgcprinter.cpp:32-105 | so for every function of an assembly, whatever the others are |
| StackMapProof.AbsentIsNotFound | gc.c:94 | an address of no point is not found, when all points but perhaps the last have odd counts |
| StackMapProof.SecondPoint | gc.c:88-92 | the second of two points is found if and only if the first has an odd live count |
| StackMapCounts.CountsDecide | gc.c:81-93 | for any list of live counts: in every map with these counts, wherever it is printed and whatever its addresses and offsets are, all points up to the k-th are found in their places if and only if the counts before the k-th are odd |
| Classes.PupClass.DefineMethod | class.c:135-151 | the method goes to the end of the class's own list |
| Classes.PupClass.FindMethodInList | class.c:164-174 | the first entry with the name |
| Classes.FindMethodInClasses | class.c:176-188 | the first hit along the superclass chain |
| Classes.IsDescendantOrSame | class.c:190-202 | true if and only if the ancestor is the class or on its superclass chain |
| Classes.NearestOldestWins | class.c:164-188 | the nearest class with the name decides, and in it the oldest definition |
| Classes.LookupIsDecided | class.c:176-188 | what is found was decided so, and nothing is found if and only if no class of the chain has the name |
| Classes.GetAfterDefine | class.c:135-174 | defining a name again changes no lookup in that class |
| Classes.DescentIsOrder | class.c:190-202 | descent is reflexive, transitive and antisymmetric |
| Symbols.StableBijection | symtable.c:53-96 | over any run two insertions answer equal positive symbols if and only if the strings are equal, symbols give their strings back, and no later insertion changes any of this |
| SymTable.SymTable.FindEntry | symtable.c:53-62 | the entry of the string, or the place behind the last |
| SymTable.SymTable.StrToSym | symtable.c:64-73 | the string's symbol, which is the next free one when the string is new and then appended |
| SymTable.SymTable.GetSym | symtable.c:75-84 | the symbol if the string is there; nothing is added |
| SymTable.SymTable.SymToStr | symtable.c:86-96 | the string of a symbol that was given out, and none otherwise |

## Left out

- Evacuation: `copy_live_object` is a stub, so the sweep is proved to count, not to preserve. `pup_gc_alloc_for_copy` is allocation without the mark and would add nothing.
- Attaching threads: the list of threads and their first marks are given, since the code neither links the old head nor sets the mark.
- Progress of the safepoint protocol beyond what can happen (`Safepoint.PeriodCanComplete`, `Safepoint.MeetsUnlessLost`); no fairness is assumed.
- Writes of mutators during the heap scan: there is no write barrier, and the scan is modelled with the world stopped.
- References that tracing does not visit (a class's superclass and scope), and null references, which it would follow.
- The abort of a push that fails a thousand times in a row: pushes in `LockFree` retry without bound.
- Compiling methods, class bodies, blocks, compound assignments, an if without else, a begin with else or ensure, a begin within a begin, a begin without rescue clauses, an empty list of statements, and branches inside rescue bodies.
- Parsing, printing, string formatting, fixnum boxing, `libunwind`, `dlsym`, `mmap` and `mprotect`, and LLVM itself beyond blocks, slots, calls and invokes.
- `LsdaProof.TableRoundTrip`: tables are written in the direct encodings; of the relative ones only single pointers are, in `Pointers.RelativeRoundTrip`.
- The test of exception types inside the personality routine, which the code disables; the type table is skipped over.
- Raw pointers stored in objects: the byte-level heap knows headers, kinds and marks, and the tracing model knows references.
- `MarkRoots.AnyInterleavingHoldsRoots`: the roots of a frame are given as a list; unwinding the frames and reading their memory is not modelled.
- `LockFree.StepIsStackStep`: the atomic operations are sequentially consistent steps; weaker memory orders are not modelled.
- `SymTable.SymTable.StrToSym`: symbols are unbounded, and the table owns its strings; the 32-bit counter and a caller that changes its string are not modelled.
- `StackMapProof.SecondPoint`: with more than two points, a reader that is off by four bytes may by chance come back on track in one map; the exact statements are `StackMapProof.OnTrackIffOdd` about places and `StackMapCounts.CountsDecide` about all maps with given counts.
- `Lsda.HandleActionValue`: on a chain that comes back to itself the original never returns; the method's loop has a bound, the number of bytes, and answers `Endless` there.
- `Heap.PupHeap.ThreadLocalAlloc`: for a record too small to hold its mark at the very end of a region, the result says that the mark lies outside; what the original overwrites there is not modelled.
