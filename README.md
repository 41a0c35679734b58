# Kotlin/Native code generation core, modelled in Dafny

This project models five parts of the Kotlin/Native compiler and runtime and
proves properties of each model.

- **Function generation context** (`function_generation.dfy`, with shared
  IR vocabulary and dispatch rules in `codegen_ir.dfy`). This is the
  per-function state of the LLVM code generator. The model is a class with:
  - the function's basic blocks, as instruction lists;
  - the insertion position and its "after terminator" flag;
  - the GC frame bookkeeping: slot count, local allocations, the slots phi,
    the arena slot and the return slot;
  - the values returned from each block;
  - a log of the calls emitted.

  Its methods build instructions the way the code generator does, including
  the prologue, the epilogue and the cleanup landing pad. The model covers
  frame enter/leave, return through a phi, and the filtering of foreign
  exceptions. Frame enter/leave is tracked as a sequence of frame events, so
  the lemmas can state the frame protocol every function obeys.
- **Static objects** (`static_objects.dfy`). These are the constant Kotlin
  objects placed in the binary's data: arrays, objects, classes laid out in
  field order, `ArrayList`, `HashMap` and `HashSet` literals, boxed `Int`
  constants and string literals. The map layout includes the power-of-two
  hash table size and shift in 32-bit arithmetic, the "presence" array and
  the cyclic hash array.
- **Compile-time evaluation** (`compile_time_eval.dfy`, over
  `sequences.dfy`). This covers:
  - recognising `setOf` calls whose arguments are distinct string constants;
  - deduplicating those arguments by runtime equality;
  - the rewrite of `listOf(vararg)` into the internal constant list builder.
- **Porting layer** of the runtime (`porting_bytes.dfy`,
  `porting_runtime.dfy`). This covers:
  - the freestanding `mem*`/`str*` routines over byte arrays;
  - `memmem`;
  - trimming the line read from the console;
  - `next_prime`;
  - page arithmetic for the wasm heap;
  - the per-thread destructor list run at thread exit.
- **LLVM module specification** (`module_spec.dfy`). This decides which
  libraries, modules and declarations belong to the module being produced.

Two things are parameters of the model rather than computed by it:
- which callees are `nounwind` declarations, and which return object
  references (given to the context's constructor as sets);
- the class field layout and the string hash (given to the static data as
  functions).

## Model

| member | source | states |
|---|---|---|
| ModuleSpecification.ImportsIffSomeLibraryNotContained | backend.native/compiler/ir/backend.native/src/org/jetbrains/kotlin/backend/konan/LlvmModuleSpecificationImpl.kt:17-21 | declarations are imported from other object files exactly when some library is not contained in the module |
| ModuleSpecification.MembershipAgrees | backend.native/compiler/ir/backend.native/src/org/jetbrains/kotlin/backend/konan/LlvmModuleSpecificationImpl.kt:20-30 | module and declaration membership both reduce to membership of the owning library, so a declaration is contained iff its module is |
| ModuleSpecification.EmptyExclusionContainsEverything | backend.native/compiler/ir/backend.native/src/org/jetbrains/kotlin/backend/konan/LlvmModuleSpecificationImpl.kt:15-30 | with no excluded library nothing is imported and every library, module and declaration is contained |
| ModuleSpecification.ExcludingMoreContainsLess | backend.native/compiler/ir/backend.native/src/org/jetbrains/kotlin/backend/konan/LlvmModuleSpecificationImpl.kt:15-30 | containment is antitone and the need for imports monotone in the set of excluded libraries |
| Sequences.DistinctBySpec | backend.native/compiler/ir/backend.native/src/org/jetbrains/kotlin/backend/konan/lower/CompileTimeEvaluateLowering.kt:92-94 | deduplicating by a key keeps the first occurrence of each key, in input order: the result has unique keys, covers every input key, is a subsequence of the input and is a fixed point |
| Sequences.DistinctByFixedIffUnique | backend.native/compiler/ir/backend.native/src/org/jetbrains/kotlin/backend/konan/lower/CompileTimeEvaluateLowering.kt:47 | deduplication leaves a sequence unchanged iff its keys are already unique (the invariant of a static set) |
| Sequences.LastBySpec | backend.native/tests/datagen/literals/mapof.kt:67-69 | keeping the last entry per key gives unique keys, covers every key, each kept entry is the last with its key, and the kept entries stand in input order (a subsequence), which fixes the result |
| CompileTimeEvaluation.ValidStaticIffUnique | backend.native/compiler/ir/backend.native/src/org/jetbrains/kotlin/backend/konan/lower/CompileTimeEvaluateLowering.kt:34-59 | a static set or map is valid iff all constants are strings, keys are unique by runtime equality, the size is within the small-collection threshold and a map has one string value per key |
| CompileTimeEvaluation.TryCreateStaticSet | backend.native/compiler/ir/backend.native/src/org/jetbrains/kotlin/backend/konan/lower/CompileTimeEvaluateLowering.kt:77-100 | a created static set is valid and smaller than the threshold |
| CompileTimeEvaluation.TryCreateStaticExpr | backend.native/compiler/ir/backend.native/src/org/jetbrains/kotlin/backend/konan/lower/CompileTimeEvaluateLowering.kt:63-71 | only a `setOf` call yields a static expression, and it is a valid static set |
| CompileTimeEvaluation.StaticSetSpec | backend.native/compiler/ir/backend.native/src/org/jetbrains/kotlin/backend/konan/lower/CompileTimeEvaluateLowering.kt:74-99 | a call can be evaluated statically iff it is `setOf` over a vararg of string constants with fewer distinct values than the threshold; the keys are then the first occurrences of the arguments in order and cover every argument |
| CompileTimeEvaluation.SetOfExamples | backend.native/tests/datagen/literals/setof.kt:26-34 | `setOf("a","a","b","c")` becomes the static set a, b, c and `setOf("b","c","a")` keeps its order |
| CompileTimeEvaluation.MapLiteralEntriesSpec | backend.native/tests/datagen/literals/mapof.kt:54-57 | a map literal keeps one entry per key, covers every key, each entry is the last pair given for its key, and the entries keep the literal's order |
| CompileTimeEvaluation.MapLiteralExample | backend.native/tests/datagen/literals/mapof.kt:57 | `mapOf("b" to "c", "a" to "b", "b" to "e")` has the entries a→b, b→e in that order |
| CompileTimeEvaluation.RewriteListOf | backend.native/compiler/ir/backend.native/src/org/jetbrains/kotlin/backend/konan/lower/CompileTimeEvaluateLowering.kt:106-130 | a non-rewritable call is unchanged; a rewritable `listOf` fails iff it has no type argument, otherwise it becomes a call of the internal builder with the same type argument and vararg |
| CompileTimeEvaluation.LowerUnchanged | backend.native/compiler/ir/backend.native/src/org/jetbrains/kotlin/backend/konan/lower/CompileTimeEvaluateLowering.kt:104-131 | a tree with nothing to rewrite is left as it is |
| CompileTimeEvaluation.LowerLeavesNothingToRewrite | backend.native/compiler/ir/backend.native/src/org/jetbrains/kotlin/backend/konan/lower/CompileTimeEvaluateLowering.kt:104-131 | after a successful lowering no rewritable `listOf` call remains anywhere in the tree |
| CompileTimeEvaluation.LowerIdempotent | backend.native/compiler/ir/backend.native/src/org/jetbrains/kotlin/backend/konan/lower/CompileTimeEvaluateLowering.kt:104-131 | lowering twice gives the same tree as lowering once |
| StaticObjects.ToInt32 | backend.native/compiler/ir/backend.native/src/org/jetbrains/kotlin/backend/konan/llvm/StaticObjects.kt:154 | the 32-bit wrap is in range, congruent to its input modulo 2^32 and the identity on 32-bit values |
| StaticObjects.HashSizeSpec | backend.native/compiler/ir/backend.native/src/org/jetbrains/kotlin/backend/konan/llvm/StaticObjects.kt:153-154 | the hash size is 0 for an empty map, the least power of two above the size (at most twice it) below 2^30, and wraps to -2^31 from 2^30 on |
| StaticObjects.HashShiftSpec | backend.native/compiler/ir/backend.native/src/org/jetbrains/kotlin/backend/konan/llvm/StaticObjects.kt:155 | the hash shift is 33 for an empty map, 1 from 2^30 on, and otherwise 2..31 with 2^(32-shift) equal to the hash size |
| StaticObjects.ShiftedHashInRange | backend.native/compiler/ir/backend.native/src/org/jetbrains/kotlin/backend/konan/llvm/StaticObjects.kt:154-155 | an unsigned 32-bit hash shifted right by the hash shift indexes the hash array |
| StaticObjects.HashArray | backend.native/compiler/ir/backend.native/src/org/jetbrains/kotlin/backend/konan/llvm/StaticObjects.kt:169-172 | the hash array has the hash size as length (none when that is not positive) |
| StaticObjects.Cycle | backend.native/compiler/ir/backend.native/src/org/jetbrains/kotlin/backend/konan/llvm/StaticObjects.kt:169-172 | the cyclic fill has the requested length |
| StaticObjects.CycleCovers | backend.native/compiler/ir/backend.native/src/org/jetbrains/kotlin/backend/konan/llvm/StaticObjects.kt:169-172 | every entry of the cyclic fill is a key index 1..m and the first m entries are 1..m in order |
| StaticObjects.BucketsNamePresentEntries | backend.native/compiler/ir/backend.native/src/org/jetbrains/kotlin/backend/konan/llvm/StaticObjects.kt:165-172 | every hash bucket names an entry (1-based) that the presence array marks present |
| StaticObjects.HashArrayCoversKeys | backend.native/compiler/ir/backend.native/src/org/jetbrains/kotlin/backend/konan/llvm/StaticObjects.kt:169-172 | every hash slot points to a key and key k sits at slot k |
| StaticObjects.HashSizeBounds | backend.native/compiler/ir/backend.native/src/org/jetbrains/kotlin/backend/konan/llvm/StaticObjects.kt:154 | for a non-empty map below 2^30 the hash size lies strictly above the size and at most at twice it |
| StaticObjects.EveryKeyWithinProbeDistance | backend.native/compiler/ir/backend.native/src/org/jetbrains/kotlin/backend/konan/llvm/StaticObjects.kt:145-173 | from any start slot, every key is found within the maximum probe distance of twice the map size |
| StaticObjects.ArrayRoundTrip | backend.native/compiler/ir/backend.native/src/org/jetbrains/kotlin/backend/konan/llvm/StaticObjects.kt:20-32 | a constant array global is constant and reads back as its class and elements through the permanent header and length |
| StaticObjects.ObjectRoundTrip | backend.native/compiler/ir/backend.native/src/org/jetbrains/kotlin/backend/konan/llvm/StaticObjects.kt:81-91 | a constant object global is constant and reads back as its class and fields |
| StaticObjects.InLayoutOrderSpec | backend.native/compiler/ir/backend.native/src/org/jetbrains/kotlin/backend/konan/llvm/StaticObjects.kt:102-106 | field values in layout order have one value per class field, the k-th being the value of the k-th field |
| StaticObjects.SortByLayout | backend.native/compiler/ir/backend.native/src/org/jetbrains/kotlin/backend/konan/llvm/StaticObjects.kt:102-106 | the sorting loop produces exactly the field values in layout order |
| StaticObjects.NatToDecimal | backend.native/compiler/ir/backend.native/src/org/jetbrains/kotlin/backend/konan/llvm/StaticObjects.kt:47 | the decimal rendering is non-empty and made of digits |
| StaticObjects.ParseIntToDecimal | backend.native/compiler/ir/backend.native/src/org/jetbrains/kotlin/backend/konan/llvm/StaticObjects.kt:47 | parsing the decimal rendering of an integer gives it back |
| StaticObjects.KIntNamesDistinct | backend.native/compiler/ir/backend.native/src/org/jetbrains/kotlin/backend/konan/llvm/StaticObjects.kt:46-47 | two boxed `Int` constants get the same global name iff they have the same value |
| StaticObjects.Char16sRoundTrip | backend.native/compiler/ir/backend.native/src/org/jetbrains/kotlin/backend/konan/llvm/StaticObjects.kt:36 | a string literal's body reads back as exactly its code units, in order |
| StaticObjects.Int32sRoundTrip | backend.native/compiler/ir/backend.native/src/org/jetbrains/kotlin/backend/konan/llvm/StaticObjects.kt:165-172 | the presence and hash arrays' 32-bit elements read back as exactly the integers they were built from |
| StaticObjects.ArrayListFields | backend.native/compiler/ir/backend.native/src/org/jetbrains/kotlin/backend/konan/llvm/StaticObjects.kt:124-128 | a constant `ArrayList` initialises exactly its fields |
| StaticObjects.HashMapFields | backend.native/compiler/ir/backend.native/src/org/jetbrains/kotlin/backend/konan/llvm/StaticObjects.kt:173-189 | a constant `HashMap` initialises exactly its fields |
| StaticObjects.HashSetFields | backend.native/compiler/ir/backend.native/src/org/jetbrains/kotlin/backend/konan/llvm/StaticObjects.kt:207 | a constant `HashSet` initialises exactly its backing field |
| StaticObjects.StaticData.PlaceGlobal | backend.native/compiler/ir/backend.native/src/org/jetbrains/kotlin/backend/konan/llvm/StaticObjects.kt:49-50 | a constant global is appended and referenced, nothing else changes |
| StaticObjects.StaticData.CreateConstKotlinArray | backend.native/compiler/ir/backend.native/src/org/jetbrains/kotlin/backend/konan/llvm/StaticObjects.kt:61-79 | exactly one constant array global with the class and elements is appended and referenced |
| StaticObjects.StaticData.CreateConstKotlinObject | backend.native/compiler/ir/backend.native/src/org/jetbrains/kotlin/backend/konan/llvm/StaticObjects.kt:81-91 | exactly one constant object global with the class and fields is appended and referenced |
| StaticObjects.StaticData.CreateConstKotlinClass | backend.native/compiler/ir/backend.native/src/org/jetbrains/kotlin/backend/konan/llvm/StaticObjects.kt:93-109 | fails iff the given fields are not exactly the class's fields, with nothing placed; otherwise places the object with its values in layout order |
| StaticObjects.StaticData.CreateConstArrayList | backend.native/compiler/ir/backend.native/src/org/jetbrains/kotlin/backend/konan/llvm/StaticObjects.kt:120-131 | places an `ArrayList` over the element array with its fields in layout order, failing iff the class fields differ |
| StaticObjects.StaticData.CreateConstMap | backend.native/compiler/ir/backend.native/src/org/jetbrains/kotlin/backend/konan/llvm/StaticObjects.kt:142-192 | fails iff values and keys differ in number (placing nothing) or the class fields differ (having placed exactly the key, value, presence and hash arrays); otherwise lays out those arrays and the map object |
| StaticObjects.StaticData.CreateConstSet | backend.native/compiler/ir/backend.native/src/org/jetbrains/kotlin/backend/konan/llvm/StaticObjects.kt:200-210 | lays out a value-less map of the elements and a `HashSet` backed by it, five globals in all; when the map's fields differ only the map's arrays are placed |
| StaticObjects.StaticData.CreateKotlinConstInt | backend.native/compiler/ir/backend.native/src/org/jetbrains/kotlin/backend/konan/llvm/StaticObjects.kt:46-54 | places one boxed `Int` named after its value |
| StaticObjects.StaticData.CreateKotlinStringLiteral | backend.native/compiler/ir/backend.native/src/org/jetbrains/kotlin/backend/konan/llvm/StaticObjects.kt:34-44 | places the string's character array and an alias named after its hash, and returns the alias |
| StaticObjects.StaticData.MapIterationOrder | backend.native/compiler/ir/backend.native/src/org/jetbrains/kotlin/backend/konan/llvm/StaticObjects.kt:133-163 | a laid-out map reads back its keys and values in the literal's order and ends with a `HashMap` object |
| PortingBytes.PlainChar | runtime/src/main/cpp/Porting.cpp:431-432 | reading a byte as plain `char` gives a value in -128..127 equal to the byte or the byte minus 256 |
| PortingBytes.ToByte | runtime/src/main/cpp/Porting.cpp:440 | converting to a byte keeps the value modulo 256 |
| PortingBytes.MemCpy | runtime/src/main/cpp/Porting.cpp:412-416 | copies the source range onto a non-overlapping destination and leaves the rest of memory unchanged |
| PortingBytes.MemMove | runtime/src/main/cpp/Porting.cpp:418-427 | copies the old source range onto the destination even when they overlap, leaving the rest unchanged |
| PortingBytes.MemSet | runtime/src/main/cpp/Porting.cpp:438-443 | fills the range with the byte value of c and leaves the rest unchanged |
| PortingBytes.MemCmpAsWritten | runtime/src/main/cpp/Porting.cpp:429-436 | returns 0 iff the ranges are equal, otherwise the plain-char difference at the first difference |
| PortingBytes.PlainCharOrderDisagrees | runtime/src/main/cpp/Porting.cpp:431-432 | byte 0x80 compares below byte 0x01 when bytes are read as plain char |
| PortingBytes.MemCmp | runtime/src/main/cpp/Porting.cpp:429-436 | returns 0 iff the ranges are equal, otherwise the unsigned difference at the first difference; negative iff the first range is lexicographically smaller |
| PortingBytes.StrLen | runtime/src/main/cpp/Porting.cpp:445-449 | returns the index of the first zero byte |
| PortingBytes.StrNLenAsWritten | runtime/src/main/cpp/Porting.cpp:451-456 | returns the first zero index capped at maxlen, but may read the byte at maxlen |
| PortingBytes.StrNLenReadsPastBound | runtime/src/main/cpp/Porting.cpp:452 | a one-byte buffer with maxlen 1 is in bounds for POSIX strnlen but read past its end as written |
| PortingBytes.StrNLen | runtime/src/main/cpp/Porting.cpp:451-456 | returns the first zero index capped at maxlen and reads only below maxlen |
| PortingBytes.MemMem | runtime/src/main/cpp/Porting.cpp:192-198 | returns the first position where the needle occurs in the haystack, or none iff it occurs nowhere |
| PortingBytes.EmptyNeedleAtZero | runtime/src/main/cpp/Porting.cpp:194-196 | the empty needle occurs at position 0 |
| PortingBytes.TrimmedLength | runtime/src/main/cpp/Porting.cpp:89-103 | the trimmed length never exceeds the line length |
| PortingBytes.TrimmedLengthSpec | runtime/src/main/cpp/Porting.cpp:89-103 | trimming removes exactly the trailing line-end bytes |
| PortingBytes.ConsoleReadUtf8 | runtime/src/main/cpp/Porting.cpp:86-104 | returns -1 with the buffer unchanged when no line is read; otherwise returns the trimmed length, zeroes the trailing line ends and keeps the rest |
| PortingRuntime.NextPrime | runtime/src/main/cpp/Porting.cpp:362-384 | aborts iff n exceeds the largest tabled prime; otherwise returns the least tabled prime at least n |
| PortingRuntime.NextPrimeOfInt | runtime/src/main/cpp/Porting.cpp:362-388 | a negative argument aborts; otherwise, like the unsigned version, it aborts iff the argument is above 1000000007 and else gives the least table prime at or above it (0..11 give 11) |
| PortingRuntime.PageAlign | runtime/src/main/cpp/Porting.cpp:291-293 | the aligned value is a 32-bit multiple of the page size, the least one not below a non-negative input |
| PortingRuntime.InBytes | runtime/src/main/cpp/Porting.cpp:295-297 | page count to bytes is a 32-bit multiple of the page size and exact for small counts |
| PortingRuntime.InPages | runtime/src/main/cpp/Porting.cpp:299-301 | bytes to pages is the floor of the division by the page size |
| PortingRuntime.PagesRoundTrip | runtime/src/main/cpp/Porting.cpp:291-301 | pages to bytes to pages is the identity, and so is bytes to pages to bytes on aligned values |
| PortingRuntime.PushAllReverses | runtime/src/main/cpp/Porting.cpp:164-170 | pushing records onto the list's head stores them in reverse registration order |
| PortingRuntime.ThreadTermination.OnThreadExit | runtime/src/main/cpp/Porting.cpp:155-172 | a new destructor record is put at the head of the list |
| PortingRuntime.ThreadTermination.OnThreadExitCallback | runtime/src/main/cpp/Porting.cpp:138-147 | runs and frees every record from the head onwards and empties the list |
| PortingRuntime.DestructorsRunLifo | runtime/src/main/cpp/Porting.cpp:138-170 | the k-th destructor run is the k-th from last registered |
| PortingRuntime.RegisterThenExit | runtime/src/main/cpp/Porting.cpp:138-172 | registering destructors and then exiting the thread runs them in reverse order |
| CodeGenIr.EnteredFramesHaveSlots | backend.native/compiler/ir/backend.native/src/org/jetbrains/kotlin/backend/konan/llvm/CodeGenerator.kt:1163-1171 | a function that enters a frame also needs the slots phi; the phi is not needed iff there are no slots beyond the overlay and no local allocations |
| CodeGenIr.UnwindTarget | backend.native/compiler/ir/backend.native/src/org/jetbrains/kotlin/backend/konan/llvm/CodeGenerator.kt:379-392 | no handler is an error, the caller's handler unwinds to the cleanup landing pad and a local one to its block |
| CodeGenIr.ResultSlotFor | backend.native/compiler/ir/backend.native/src/org/jetbrains/kotlin/backend/konan/llvm/CodeGenerator.kt:355-366 | arena, return and anonymous slot types select their slot; stack and unknown types are an error |
| CodeGenIr.RefStorePolicy | backend.native/compiler/ir/backend.native/src/org/jetbrains/kotlin/backend/konan/llvm/CodeGenerator.kt:325-341 | a reference store is plain iff the memory model is strict and the location is not the heap; otherwise it calls the barrier for its location |
| CodeGenIr.StoreAnyPolicy | backend.native/compiler/ir/backend.native/src/org/jetbrains/kotlin/backend/konan/llvm/CodeGenerator.kt:307-313 | non-references are stored plainly, heap references through the heap barrier, and stack references plainly iff the model is strict |
| CodeGenIr.DispatchSpec | backend.native/compiler/ir/backend.native/src/org/jetbrains/kotlin/backend/konan/llvm/CodeGenerator.kt:757-807 | a call dispatches through the vtable iff the target's owner is not an interface, otherwise by open lookup or the interface table as the hierarchy analysis is off or on; a concrete method of `Any` goes through the vtable |
| CodeGenIr.InterfaceTableAccessSpec | backend.native/compiler/ir/backend.native/src/org/jetbrains/kotlin/backend/konan/llvm/CodeGenerator.kt:718-755 | a non-negative table size gives a masked index within the table; a negative size is searched at run time with its negation, which wraps at -2^31 |
| CodeGenIr.And32 | backend.native/compiler/ir/backend.native/src/org/jetbrains/kotlin/backend/konan/llvm/CodeGenerator.kt:724 | a 32-bit `and` stays in 32 bits |
| CodeGenIr.Sub32 | backend.native/compiler/ir/backend.native/src/org/jetbrains/kotlin/backend/konan/llvm/CodeGenerator.kt:747 | a 32-bit subtraction wraps: the result is in the signed 32-bit range and congruent to a − b modulo 2^32 |
| FunctionGeneration.Appended | backend.native/compiler/ir/backend.native/src/org/jetbrains/kotlin/backend/konan/llvm/CodeGenerator.kt:1158-1161 | appending to a block (or to a new block) adds the instruction at its end and changes no other block |
| FunctionGeneration.FrameProtocolOfExits | backend.native/compiler/ir/backend.native/src/org/jetbrains/kotlin/backend/konan/llvm/CodeGenerator.kt:964-1056 | the frame protocol is: enter once when slots are needed, then leave on the return path (when the function returns) and on the cleanup path |
| FunctionGeneration.FrameEventsComposed | backend.native/compiler/ir/backend.native/src/org/jetbrains/kotlin/backend/konan/llvm/CodeGenerator.kt:964-1056 | opening the frame and then closing both exits composes to the frame protocol |
| FunctionGeneration.EpilogueCodeShape | backend.native/compiler/ir/backend.native/src/org/jetbrains/kotlin/backend/konan/llvm/CodeGenerator.kt:1001-1020 | the epilogue code returns void, returns through the phi over the returning blocks, or is unreachable, with the return slot stored first |
| FunctionGeneration.AddIncomingKeeps | backend.native/compiler/ir/backend.native/src/org/jetbrains/kotlin/backend/konan/llvm/CodeGenerator.kt:410-417 | adding phi incoming edges never removes an existing one |
| FunctionGeneration.CatchLeavesFrameEvents | backend.native/compiler/ir/backend.native/src/org/jetbrains/kotlin/backend/konan/llvm/CodeGenerator.kt:620-639 | the begin/end catch calls of an exception extraction neither enter nor leave a frame |
| FunctionGeneration.FrameShapeComposed | backend.native/compiler/ir/backend.native/src/org/jetbrains/kotlin/backend/konan/llvm/CodeGenerator.kt:964-1056 | opening the frame blocks and then closing the epilogue and cleanup blocks gives the complete frame shape |
| FunctionGeneration.FunctionGenerationContext.PositionAtEnd | backend.native/compiler/ir/backend.native/src/org/jetbrains/kotlin/backend/konan/llvm/CodeGenerator.kt:1103-1108 | positions at the end of the block, flagged after-terminator iff the block ends with a terminator, changing no code |
| FunctionGeneration.FunctionGenerationContext.BasicBlock | backend.native/compiler/ir/backend.native/src/org/jetbrains/kotlin/backend/konan/llvm/CodeGenerator.kt:227-232 | adds one empty block and keeps the position |
| FunctionGeneration.FunctionGenerationContext.BasicBlockInFunction | backend.native/compiler/ir/backend.native/src/org/jetbrains/kotlin/backend/konan/llvm/CodeGenerator.kt:221-225 | adds one empty block without needing a position |
| FunctionGeneration.FunctionGenerationContext.MoveOffTerminator | backend.native/compiler/ir/backend.native/src/org/jetbrains/kotlin/backend/konan/llvm/CodeGenerator.kt:1082-1088 | after a terminator, code continues in a fresh block; otherwise nothing changes |
| FunctionGeneration.FunctionGenerationContext.Br | backend.native/compiler/ir/backend.native/src/org/jetbrains/kotlin/backend/konan/llvm/CodeGenerator.kt:446-450 | appends the branch at the insertion point and marks the position after a terminator |
| FunctionGeneration.FunctionGenerationContext.CondBr | backend.native/compiler/ir/backend.native/src/org/jetbrains/kotlin/backend/konan/llvm/CodeGenerator.kt:452-456 | appends the conditional branch and marks the position after a terminator |
| FunctionGeneration.FunctionGenerationContext.Ret | backend.native/compiler/ir/backend.native/src/org/jetbrains/kotlin/backend/konan/llvm/CodeGenerator.kt:263-275 | branches to the epilogue, records the returned value for the block, and fails iff the block already returned, which never happens under the body discipline |
| FunctionGeneration.FunctionGenerationContext.CallRaw | backend.native/compiler/ir/backend.native/src/org/jetbrains/kotlin/backend/konan/llvm/CodeGenerator.kt:372-402 | a nounwind callee gets a plain call; otherwise an invoke unwinding to the handler's target and continuing in a new block; it fails with nothing built iff the callee may unwind and there is no handler |
| FunctionGeneration.FunctionGenerationContext.PlainCallHere | backend.native/compiler/ir/backend.native/src/org/jetbrains/kotlin/backend/konan/llvm/CodeGenerator.kt:375-377 | appends one call instruction with a fresh value number at the insertion point, which the position then names, and logs it without an unwind edge; nothing else changes |
| FunctionGeneration.FunctionGenerationContext.InvokeHere | backend.native/compiler/ir/backend.native/src/org/jetbrains/kotlin/backend/konan/llvm/CodeGenerator.kt:394-400 | appends an invoke with a fresh value number that unwinds to the given block and continues in a new empty block, where code then continues; nothing else changes |
| FunctionGeneration.FunctionGenerationContext.Alloca | backend.native/compiler/ir/backend.native/src/org/jetbrains/kotlin/backend/konan/llvm/CodeGenerator.kt:234-260 | an object variable gets the address of the next frame slot in locals_init and one more slot; any other variable gets an alloca in the prologue; the position is kept |
| FunctionGeneration.FunctionGenerationContext.EmitInFrameBlock | backend.native/compiler/ir/backend.native/src/org/jetbrains/kotlin/backend/konan/llvm/CodeGenerator.kt:1158-1161 | building in the prologue or locals_init appends there and restores the position |
| FunctionGeneration.FunctionGenerationContext.Call | backend.native/compiler/ir/backend.native/src/org/jetbrains/kotlin/backend/konan/llvm/CodeGenerator.kt:345-370 | a call returning an object gets the arena, return or a fresh anonymous slot (its address first added to locals_init) as an extra argument, with the slot counters updated, and then builds exactly the raw call's blocks and position for the extended arguments, its result numbered after the slot's address; a missing slot or another slot type is an error that builds nothing; no error path logs a call or numbers a result; otherwise a raw call |
| FunctionGeneration.FunctionGenerationContext.CallRuntime | backend.native/compiler/ir/backend.native/src/org/jetbrains/kotlin/backend/konan/llvm/CodeGenerator.kt:372-377 | a runtime helper is called plainly at the insertion point |
| FunctionGeneration.FunctionGenerationContext.Unreachable | backend.native/compiler/ir/backend.native/src/org/jetbrains/kotlin/backend/konan/llvm/CodeGenerator.kt:437-444 | appends `unreachable`, preceded by a trap in debug builds, and marks the position after a terminator |
| FunctionGeneration.FunctionGenerationContext.UpdateRef | backend.native/compiler/ir/backend.native/src/org/jetbrains/kotlin/backend/konan/llvm/CodeGenerator.kt:332-341 | stores a reference on stack or heap by the store policy of the memory model |
| FunctionGeneration.FunctionGenerationContext.StoreHeapRef | backend.native/compiler/ir/backend.native/src/org/jetbrains/kotlin/backend/konan/llvm/CodeGenerator.kt:299-301 | a heap reference store always calls the heap barrier |
| FunctionGeneration.FunctionGenerationContext.StoreStackRef | backend.native/compiler/ir/backend.native/src/org/jetbrains/kotlin/backend/konan/llvm/CodeGenerator.kt:303-305 | a stack reference store is plain in the strict model and a barrier call in the relaxed one |
| FunctionGeneration.FunctionGenerationContext.StoreAny | backend.native/compiler/ir/backend.native/src/org/jetbrains/kotlin/backend/konan/llvm/CodeGenerator.kt:307-313 | stores by the store-any policy |
| FunctionGeneration.FunctionGenerationContext.UpdateReturnRef | backend.native/compiler/ir/backend.native/src/org/jetbrains/kotlin/backend/konan/llvm/CodeGenerator.kt:325-330 | stores into the return slot by the store policy, without touching the frame |
| FunctionGeneration.FunctionGenerationContext.Freeze | backend.native/compiler/ir/backend.native/src/org/jetbrains/kotlin/backend/konan/llvm/CodeGenerator.kt:315-318 | only object references are frozen, by one call or invoke of the freeze helper (its blocks, position and value number as a raw call builds them), failing with nothing built iff it may unwind with no handler; the slots, phi incomings and forwarding state are untouched |
| FunctionGeneration.FunctionGenerationContext.CheckMainThread | backend.native/compiler/ir/backend.native/src/org/jetbrains/kotlin/backend/konan/llvm/CodeGenerator.kt:320-323 | only in the strict model, one call or invoke of the main-thread check (its blocks, position and value number as a raw call builds them), failing with nothing built iff it may unwind with no handler; the relaxed model builds nothing; the slots, phi incomings and forwarding state are untouched |
| FunctionGeneration.FunctionGenerationContext.LoadSlot | backend.native/compiler/ir/backend.native/src/org/jetbrains/kotlin/backend/konan/llvm/CodeGenerator.kt:286-293 | loads the value; a variable holding an object is also rooted in a fresh frame slot, whose address is appended to locals_init |
| FunctionGeneration.FunctionGenerationContext.LandingPadHere | backend.native/compiler/ir/backend.native/src/org/jetbrains/kotlin/backend/konan/llvm/CodeGenerator.kt:538-545 | appends a landing pad with the given clauses in the current block |
| FunctionGeneration.FunctionGenerationContext.Terminate | backend.native/compiler/ir/backend.native/src/org/jetbrains/kotlin/backend/konan/llvm/CodeGenerator.kt:583-592 | calls `std::terminate` and then branches into a block that loops forever |
| FunctionGeneration.FunctionGenerationContext.LoopForever | backend.native/compiler/ir/backend.native/src/org/jetbrains/kotlin/backend/konan/llvm/CodeGenerator.kt:587-591 | branches into a new block that branches to itself |
| FunctionGeneration.FunctionGenerationContext.ExtractKotlinException | backend.native/compiler/ir/backend.native/src/org/jetbrains/kotlin/backend/konan/llvm/CodeGenerator.kt:620-639 | begins the catch, loads the exception, roots it in a new slot whose address is appended to locals_init, ends the catch and yields the exception |
| FunctionGeneration.FunctionGenerationContext.BeginCatch | backend.native/compiler/ir/backend.native/src/org/jetbrains/kotlin/backend/konan/llvm/CodeGenerator.kt:621-628 | extracts the exception pointer, calls begin catch and casts the result |
| FunctionGeneration.FunctionGenerationContext.CatchKotlinException | backend.native/compiler/ir/backend.native/src/org/jetbrains/kotlin/backend/konan/llvm/CodeGenerator.kt:609-618 | a landing pad catching Kotlin exceptions followed by the extraction, with no frame event; locals_init gains exactly the exception slot's address |
| FunctionGeneration.FunctionGenerationContext.KotlinExceptionHandler | backend.native/compiler/ir/backend.native/src/org/jetbrains/kotlin/backend/konan/llvm/CodeGenerator.kt:594-607 | builds the catch code in one new block, appends the exception slot's address to locals_init, returns the block as the local handler and keeps the position |
| FunctionGeneration.FunctionGenerationContext.SelectKotlinExceptions | backend.native/compiler/ir/backend.native/src/org/jetbrains/kotlin/backend/konan/llvm/CodeGenerator.kt:550-563 | the landing pad compares the exception's type id with the Kotlin one and branches to forward or fatal |
| FunctionGeneration.FunctionGenerationContext.ForwardKotlinException | backend.native/compiler/ir/backend.native/src/org/jetbrains/kotlin/backend/konan/llvm/CodeGenerator.kt:565-568 | the forward block extracts the Kotlin exception and throws it again; locals_init gains exactly the exception slot's address |
| FunctionGeneration.FunctionGenerationContext.FatalForeignException | backend.native/compiler/ir/backend.native/src/org/jetbrains/kotlin/backend/konan/llvm/CodeGenerator.kt:570-574 | the fatal block begins the catch, calls `std::terminate` and loops forever |
| FunctionGeneration.FunctionGenerationContext.FilteringExceptionHandler | backend.native/compiler/ir/backend.native/src/org/jetbrains/kotlin/backend/konan/llvm/CodeGenerator.kt:547-581 | builds the filtering landing pad, the forward block ending in a rethrow and the fatal block ending in terminate and a self-loop; locals_init gains exactly the exception slot's address; it returns the landing pad as a local handler and keeps the position |
| FunctionGeneration.FunctionGenerationContext.ForwardForeignExceptionsTo | backend.native/compiler/ir/backend.native/src/org/jetbrains/kotlin/backend/konan/llvm/CodeGenerator.kt:210 | records the terminating function for foreign exceptions and changes nothing else |
| FunctionGeneration.FunctionGenerationContext.Prologue | backend.native/compiler/ir/backend.native/src/org/jetbrains/kotlin/backend/konan/llvm/CodeGenerator.kt:951-962 | fails iff a return was already recorded; otherwise creates the slots phi and the tagged arena pointer in locals_init, takes the last parameter as return slot when returning an object, and positions at the entry block |
| FunctionGeneration.FunctionGenerationContext.OpenSlots | backend.native/compiler/ir/backend.native/src/org/jetbrains/kotlin/backend/konan/llvm/CodeGenerator.kt:956-960 | the slots phi and the arena pointer (phi as integer, or 1, back to pointer) are appended to locals_init |
| FunctionGeneration.FunctionGenerationContext.ReleaseVars | backend.native/compiler/ir/backend.native/src/org/jetbrains/kotlin/backend/konan/llvm/CodeGenerator.kt:1174-1179 | leaves the frame, if one is needed, at the current position |
| FunctionGeneration.FunctionGenerationContext.Epilogue | backend.native/compiler/ir/backend.native/src/org/jetbrains/kotlin/backend/konan/llvm/CodeGenerator.kt:964-1062 | fails iff a void function has a return slot or the foreign-exception terminator cannot be called; on success the prologue edge feeds the slots phi, the frame is entered once and left once per exit, and the return bookkeeping is cleared |
| FunctionGeneration.FunctionGenerationContext.FinishBody | backend.native/compiler/ir/backend.native/src/org/jetbrains/kotlin/backend/konan/llvm/CodeGenerator.kt:152-161 | a body that falls off its end is closed by `unreachable`, and then the epilogue is built |
| FunctionGeneration.FunctionGenerationContext.ForgetReturns | backend.native/compiler/ir/backend.native/src/org/jetbrains/kotlin/backend/konan/llvm/CodeGenerator.kt:1058-1061 | clears the returns, the return slot and the slots phi and nothing else |
| FunctionGeneration.FunctionGenerationContext.BuildFrame | backend.native/compiler/ir/backend.native/src/org/jetbrains/kotlin/backend/konan/llvm/CodeGenerator.kt:964-1056 | the frame protocol and failure conditions of the epilogue, and the full frame shape: slot array setup, branches prologue to locals_init to entry, the epilogue code and the cleanup blocks |
| FunctionGeneration.FunctionGenerationContext.CloseFrame | backend.native/compiler/ir/backend.native/src/org/jetbrains/kotlin/backend/konan/llvm/CodeGenerator.kt:1001-1056 | the epilogue block and the cleanup landing pad are built, the returning blocks feed the return phi, and the frame is left on each exit |
| FunctionGeneration.FunctionGenerationContext.OpenFrame | backend.native/compiler/ir/backend.native/src/org/jetbrains/kotlin/backend/konan/llvm/CodeGenerator.kt:965-999 | the slot array is set up and entered in the prologue, which branches to locals_init, which branches to entry |
| FunctionGeneration.FunctionGenerationContext.CloseLocalsInit | backend.native/compiler/ir/backend.native/src/org/jetbrains/kotlin/backend/konan/llvm/CodeGenerator.kt:997-999 | locals_init ends with the branch to the entry block |
| FunctionGeneration.FunctionGenerationContext.SetUpFrame | backend.native/compiler/ir/backend.native/src/org/jetbrains/kotlin/backend/konan/llvm/CodeGenerator.kt:965-994 | the prologue allocates and zeroes the slot array when needed, enters the frame when needed, feeds the slots phi and branches to locals_init |
| FunctionGeneration.FunctionGenerationContext.BuildEpilogueBlock | backend.native/compiler/ir/backend.native/src/org/jetbrains/kotlin/backend/konan/llvm/CodeGenerator.kt:1001-1020 | fails iff a void function has a return slot; otherwise the epilogue returns void, returns the phi of the returned values or is unreachable, leaving the frame first when it returns |
| FunctionGeneration.FunctionGenerationContext.BuildCleanup | backend.native/compiler/ir/backend.native/src/org/jetbrains/kotlin/backend/konan/llvm/CodeGenerator.kt:1022-1056 | the cleanup landing pad diverts foreign exceptions to the terminator when asked, leaves the frame and resumes unwinding |
| FunctionGeneration.FunctionGenerationContext.TerminateForeignException | backend.native/compiler/ir/backend.native/src/org/jetbrains/kotlin/backend/konan/llvm/CodeGenerator.kt:1041-1049 | the unexpected-exception block calls the terminator and is then unreachable, failing iff that call cannot be built |

## Left out

- LLVM itself: the C API, LLVM types, debug locations and DWARF variable
  declarations (`slotToVariableLocation`, `debugLocation`). Instructions
  are a small algebraic type.
- Basic block layout order (moving blocks after one another) is not modelled.
  It does not change the control-flow graph.
- Floating-point comparisons and arithmetic builders, `switch`,
  `indirectBr`, `ifThen`/`ifThenElse` and the other plain one-instruction
  builders are left out. They only wrap one LLVM call each.
- Objective-C interop in virtual dispatch and object values is left out. It
  is not available on the targets modelled here.
- The variable manager is not modelled. An anonymous slot is a fresh slot
  index, and clearing the variables is not modelled.
- The user code closures passed to `generateFunctionBody` and to the Kotlin
  exception handler are not modelled. The model covers what the context
  builds around them.
- The code context's `genThrow` is modelled as a single throw instruction.
- `loadTypeInfo` and the type-info layout are not part of this model.
- Callee properties are inputs. Whether a callee is a `nounwind` declaration
  and whether it returns an object are sets given to the constructor.
- The `StaticData` members other than the constant-object builders are not
  part of this model, and neither are `createUniqueInstance`/`unique`.
- The class field layout and the string hash are parameters of
  `StaticData`. They are not computed.
- CompileTimeEvaluation.Lower rewrites a value tree and returns it. The
  compiler transforms its IR in place, so aliasing of IR nodes is not
  captured.
- CompileTimeEvaluation.TryCreateStaticExpr: a `setOf` call with no value
  argument is treated as having no vararg. The compiler would throw there.
- CompileTimeEvaluation.MapLiteralEntriesSpec: for duplicate keys in a map
  literal, the value and the position both follow the runtime's tests: the
  last value, at the last occurrence. A prose description of the library
  says the first position is kept; the tests are followed.
- Porting layer left out: console output, clocks, pthread keys and
  `pthread_once`, `calloc`/`free`, growing the wasm heap (`moreCore`),
  `__assert_fail`, `pow` and `snprintf`. These are I/O, system calls or
  floating point. The line read from the console is a parameter of
  `ConsoleReadUtf8`.
- FunctionGeneration.FunctionGenerationContext.Epilogue states the frame
  protocol and the return bookkeeping but not the instruction shape of the
  frame blocks. That shape is stated and proved by
  `FunctionGeneration.FunctionGenerationContext.BuildFrame`, which the
  epilogue calls.
- Kotlin `assert` is modelled as enabled: a failed assertion is an error
  result.

## Findings

| source | as written | input that shows it | evidently intended | confidence | as-written member | corrected member |
|---|---|---|---|---|---|---|
| runtime/src/main/cpp/Porting.cpp:429-436 | `memcmp` subtracts the bytes read through plain `char`, which is signed on the wasm32 target | bytes 0x80 and 0x01: the difference is negative, so 0x80 orders below 0x01 | compare as `unsigned char`, as the C standard requires, so 0x80 orders above 0x01 | not executed | PortingBytes.MemCmpAsWritten, PortingBytes.PlainCharOrderDisagrees | PortingBytes.MemCmp |
| runtime/src/main/cpp/Porting.cpp:451-456 | `strnlen` reads `s[len]` before checking `len < maxlen` | a one-byte buffer `"A"` with `maxlen` 1: the byte at index 1 is read | stop at `maxlen` without reading further, as POSIX specifies | not executed | PortingBytes.StrNLenAsWritten, PortingBytes.StrNLenReadsPastBound | PortingBytes.StrNLen |
