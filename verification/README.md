# HIVM in Dafny

HIVM is a small bytecode virtual machine in C. This project models its five connected parts and
proves what they promise.

* **Assembler, linker, interpreter.** `Words`, `Isa` and `Symbolic` give machine words, the
  instruction layouts of the dispatcher, and programs whose addresses are still symbolic. `Assembly`
  states what the one-pass generator does and, independently, what its items mean (a two-pass
  reference); `AssemblyProofs` and `AssemblyTheorems` relate the two. `Generator` is the generator
  itself, over a growing byte buffer. `Linking` and `Loader` are the loaders as a function and in
  place. `Machine` and `Interpreter` are the dispatch loop as a function and over a mutable machine.
  `Simulation` runs instructions by number and proves that the bytes do the same; `Units` puts
  programs loaded one behind the other into one such text; `Correctness` and `Pipeline` put
  everything together. `ItemLaws` says what each item of assembly comes to in bytes and when decoded,
  `InstructionLaws` what each instruction does, by its operands. `CallReturn`, `MachineLaws`,
  `Readback`, `Tags`, `Closures` and `Debugging` hold properties of runs and of linked images. `Subroutines`, `Resolution`, `LinkOrders` and
  `Redefinition`, with `LinkOrderExample` and `RedefinitionExample`, are about calls by name.
* **Collector.** `Reachability` is about finite graphs; `Collector` is the mark-sweep-compact
  collector over objects and entries.
* **Struct table and symbol store.** `Tables`, `KeyViews`, `SmallerKeys` and `Symbols`.
* **Traces and basic blocks.** `Tracing`, `TracedRuns`, `TraceOrder`, `Blocks` and `ControlFlow`.
* **Zone pool.** `ZonePool`; the source keeps its cursor but allocates elsewhere for now, so this
  part is secondary.

Run `dafny verify dfyconfig.toml` to check everything.

## What the code does that one might not expect

The model follows the code; each of these is a theorem.

* A forward call's label use is recorded at offset 7 while its field is at offset 4. The generator is
  right exactly for blocks that never call forward (`AssemblyTheorems.OnePassIsTwoPass`).
* Struct tables are filled by a heap sift-up and read by binary search. Every stored pair is found
  exactly on tables in strict key order (`Tables.CompleteIffSorted`); with a key set twice, every key
  can be found on others too (`Readback.RepeatedButFound`). Setting a key again need not replace its
  value, and a key just set for the first time may be impossible to find: `Readback.SetOnAny` and
  `Readback.SetThenGet` say exactly when, `Readback.LocalReadBack` and `Readback.GlobalReadBack` what
  programs see of it. `Readback.InsertKeepsSortedIff` says exactly which settings leave a table in key
  order, `SmallerKeys.StaysIff` which leave another key's value in place.
* A call by name to a subroutine that is loaded can fail, depending on the link order
  (`LinkOrderExample.CalledBeforeDefined`, and `LinkOrders.OrderWorksIff` for the exact condition).
  From a table in key order, a second definition of a name has no effect until a name interned earlier
  than it is defined
  (`Redefinition.KeptWhileNoneOlder`); then it can win (`RedefinitionExample.SecondDefinitionWins`), and
  `Redefinition.KeptIff` and `Redefinition.ResolvesByOrder` say exactly when.
* Only argument 0 is passed to a callee (`MachineLaws.ArgumentsOnce`), and catching an exception does
  not unwind the stack (`MachineLaws.CatchConsumes`).
* The heat of a call wraps at 256; the cap of 1024 is never reached (`Tags.HeatAfter`).
* The number of completed traces is never counted up, so each takes the place of the one before, and
  all their callers' tags name the last (`TracedRuns.OwnTraceIff`).
* An empty debug range at address 0 hides all others, those of later chunks included
  (`Debugging.ShiftedCovers`, `Debugging.LinkedLookup`).
* Trace items are sorted by their addresses cast to `int`, with a subtraction that can overflow
  (`TraceOrder.TraceSortsIff`, `TraceOrder.FarTrace`), and a block head below the first is appended at
  the end (`Blocks.InsertKeepsOrderIff`).

## Model

| member | source | states |
|---|---|---|
| AssemblyTheorems.OnePassIsTwoPass | src/generator.c:205-479 | for every block (nested, with duplicate, undefined and forward labels) the one-pass generator with back-patching writes the bytes of a two-pass reference assembler if and only if no block, at any depth, calls a label it defines only later |
| AssemblyTheorems.ChunkOfBlock | src/generator.c:205-479 | without forward calls the code is the reference program's, the relocation section lists every address field and no other, the constant section every constant in use order, and every address names an instruction of the block or its end; the symbol section is SymbolSection's |
| Subroutines.SymbolSection | src/generator.c:250-256 | the symbol section of any block's chunk lists every subroutine label, at any depth, in order, each with the byte offset of the instruction it stands before |
| Subroutines.BlockSymbols | src/generator.c:205-479 | processing a block after any earlier output appends its subroutines at the offsets of their instructions, with or without forward calls |
| AssemblyTheorems.MisplacedBytes | src/generator.c:432-444 | a forward call's field differs from the intended one whatever else is patched around it |
| AssemblyTheorems.DisplacedDiffers | src/generator.c:434-439 | writing an address three bytes too far along changes every non-zero address |
| AssemblyTheorems.ForwardCallExample | src/generator.c:432-468 | a concrete call to the label after it: its field reads 13 * 2^24 where 13 was meant |
| AssemblyTheorems.ResolvedWellFormed | src/generator.c:105-180 | items in the dispatcher's layouts resolve to a program of known, fitting instructions |
| AssemblyProofs.BlockHolds | src/generator.c:229-468 | processing a block after any earlier output appends exactly the block's program, with sections in step; label definitions of a block are invisible outside it |
| AssemblyProofs.PatchAgrees | src/generator.c:454-469 | writing one recorded use turns one unresolved address into the label's and leaves every other instruction alone |
| Generator.Chunk.ExpandIfNecessary | src/chunk.c:18-27 | afterwards at least 16 bytes are free behind the code, whose bytes are unchanged |
| Generator.Chunk.PutRegisters | src/generator.c:105-125 | appends an opcode and up to three registers, inside the buffer |
| Generator.Chunk.PutField | src/generator.c:140-180 | appends an opcode, a register, a field and a register, inside the buffer |
| Generator.Chunk.PutTagged | src/generator.c:97-101 | appends an opcode, a cleared 3-byte tag and the rest, at most 13 bytes, inside the buffer |
| Generator.Chunk.Overwrite | src/generator.c:461-461 | overwrites bytes already generated; what falls behind the code does not count as code |
| Generator.WriteRegisters | src/generator.c:105-125 | emits a registers-only layout: the output grows by that instruction and no section changes |
| Generator.WriteRaw | src/generator.c:163-180 | emits a plain number: no relocation is recorded |
| Generator.WriteAddress | src/generator.c:140-162 | emits an address and records the offset of its field for relocation |
| Generator.WriteCall | src/generator.c:422-430 | emits a tagged call and records the offset of its address field |
| Generator.WriteConstant | src/generator.c:382-420 | emits a constant's number and records where it is |
| Generator.WriteCallSymbolic | src/generator.c:329-345 | emits a call by name, the name becoming the next constant |
| Generator.WriteInvoke | src/generator.c:347-353 | emits an invocation by address |
| Generator.GetLabel | src/generator.c:190-203 | a known label's address, or 0 and a note of the place to patch, put before the others |
| Generator.WriteReference | src/generator.c:300-327 | emits a label's address, or leaves a use at its field |
| Generator.WriteCallReference | src/generator.c:432-444 | emits a call to a label; an unknown label's use is noted at offset 7 |
| Generator.PatchUses | src/generator.c:454-468 | patches the noted uses latest first; unknown labels stay 0 |
| Generator.AddDebugEntry | src/generator.c:235-243 | closes a debug range one byte before the next item, wrapping at 0 |
| Generator.ProcessItem | src/generator.c:230-451 | one item does to the output, labels, uses and open marker what the specification says |
| Generator.ProcessBlock | src/generator.c:205-479 | the loop over a block, nested blocks included, computes the specified output; no write leaves the buffer |
| Generator.GenChunk | src/generator.c:481-537 | a fresh chunk holds the specified output for its block |
| ItemLaws.ItemWritten | src/generator.c:97-180 | item by item, the bytes, relocations, constants and label uses the generator adds: opcode, cleared tag, registers in the item's order, little-endian field |
| ItemLaws.ItemDecoded | src/generator.c:205-479 | assemble, link anywhere, link anything later, decode: for every item that makes an instruction, at any depth of nesting, the dispatcher finds at its address that opcode with its registers in order, its signed difference or literal, its address moved by the base, the address of the label meant (the last before it, else the block's last, else the chunk's base), or the number of its string, symbol or null |
| ItemLaws.JumpItem | src/vm-dispatch.include.c:279-287 | a relative jump goes as far as its item's signed difference says, from its own address |
| Isa.DecodeHeld | src/vm-dispatch.include.c:26-51 | bytes that hold an instruction, whatever its tag has counted, decode to it |
| Words.FromLittleOfLittle | src/vm.c:430-434 | reading a little-endian field gives what was written, modulo its width |
| Symbolic.AgreesPoke | src/generator.c:461-461 | overwriting bytes inside one instruction changes that instruction only |
| Linking.LoadProgram | src/vm.c:138-193 | loading a generated chunk anywhere leaves the program there with every address shifted by the base exactly once and every constant numbered in the pool |
| Linking.LoadFrame | src/vm.c:179-193 | a load changes nothing loaded before: bytes, constants, interned names, debug entries |
| Linking.LoadAllFrame | src/vm.c:179-193 | nor does any sequence of later loads |
| Linking.SignedRelocation | src/vm.c:162-172 | the signed and the unsigned relocation branch store the same value for every field and base |
| Loader.Store.AppendCode | src/vm.c:181-187 | the program array grows by doubling until the code and 16 bytes fit; code loaded before is kept |
| Loader.Store.ExpandPool | src/vm.c:543-548 | the pool grows until the number fits; constants are kept |
| Loader.Store.AddConst | src/vm.c:536-541 | a constant gets the next number and is stored under it |
| Loader.Store.AddSymbols | src/vm.c:124-137 | interns every subroutine name and enters base plus offset in the table, in order |
| Loader.Store.ConstantObject | src/chunk.c:29-49 | strings and symbols become objects, other literals null |
| Loader.Store.AddConstants | src/vm.c:138-148 | every constant goes to the pool and its number into the code |
| Loader.Store.Relocate | src/vm.c:152-172 | one address field is shifted by the base, through either branch |
| Loader.Store.AddRelocations | src/vm.c:149-177 | every listed field is shifted once, in order |
| Loader.Store.AddDebugEntry | src/vm.c:107-119 | the array doubles before its last slot is used; the range is appended, both ends shifted by the base with wrap-around |
| Loader.Store.AddDebugEntries | src/vm.c:104-122 | all ranges are appended in order, earlier ones kept through growth |
| Loader.Store.AddSections | src/vm.c:189-191 | symbols, constants and addresses together compute the specified image |
| Loader.Store.LoadChunk | src/vm.c:179-193 | the in-place loader computes the specified image from the old one |
| Correctness.RoundTrip | src/generator.c:205-479 | assemble, load anywhere, load anything later, decode: every instruction comes back with its registers; forward and backward label uses are base + offset of the label, constants are found in the pool under their numbers |
| Correctness.ConstantKept | src/vm.c:138-148 | constant j of a chunk stays at its place in the pool, with its name's number unchanged, through any later loads |
| Correctness.HistoryMemory | src/vm.c:179-193 | after any blocks are linked in a row the memory is what was there and then their programs, assembled with absolute addresses, without gaps |
| Correctness.HistorySound | src/vm.c:179-193 | the linked programs together are a text every address operand of which names an instruction or an end |
| Correctness.CompiledRun | src/vm-dispatch.include.c:26-696 | for any sequence of blocks of supported items, linked behind anything and before anything, every run of the interpreter on the bytes follows the run of a machine on instruction numbers, step by step and across calls from chunk to chunk |
| Correctness.FreshRun | src/vm.c:455-484 | the same from an empty stack at any instruction of any of the chunks |
| Correctness.GeneratedInBounds | src/vm.c:138-177 | no section of a generated chunk, forward calls or not, makes the loader write outside the chunk's code |
| Pipeline.CompileAndRun | src/vm.c:455-484 | generating, loading and running blocks ends where the machine on instruction numbers ends, started at the first instruction with NULL in every register and with the pool and the subroutine table that linking left |
| Pipeline.Link | src/vm.c:179-193 | generating and loading blocks one after another leaves the linked image |
| Units.TextSound | src/vm.c:149-177 | sound programs one behind the other are one sound text: their address operands reach the instructions they name there |
| Simulation.RunAgrees | src/vm-dispatch.include.c:26-696 | whole runs: instructions in memory at any base behave like their symbolic form for any number of steps, tags counting along the way, and stay in memory |
| Simulation.HeatInRun | src/vm.c:437-446 | in any run the heat of a call ends as it began plus the number of times the run executed that call, modulo 256; its trace index does not change |
| Simulation.StepAgrees | src/vm-dispatch.include.c:26-669 | one turn of the loop is one symbolic step, and leaves every instruction in memory |
| Simulation.CallAgrees | src/vm-dispatch.include.c:58-182 | calls, tail calls and invocations |
| Simulation.ReturnAgrees | src/vm-dispatch.include.c:263-278 | returns, and the exception at the stack root |
| Simulation.ClimbAgrees | src/vm-dispatch.include.c:671-696 | exception handling reaches the same handler |
| Simulation.BumpKeepsCode | src/vm.c:437-446 | counting a call in its tag leaves every instruction of the program intact |
| Interpreter.Vm.Run | src/vm.c:455-484 | the loop, for any bound on its turns, computes the specified run |
| Interpreter.Vm.Step | src/vm-dispatch.include.c:26-51 | one turn of the loop; top stays the frame at stack_depth |
| Interpreter.Vm.Fetch | src/vm-dispatch.include.c:26-51 | the opcode and operands at ip in the dispatcher's layout |
| Interpreter.Vm.ProcessTag | src/vm.c:437-446 | read, count, write back a tag in place |
| Interpreter.Vm.DoCall | src/vm-dispatch.include.c:58-88 | calls by address, by name, by register, and tail calls |
| Interpreter.Vm.DoReturn | src/vm-dispatch.include.c:263-278 | pops the frame and hands its value to the caller's register |
| Interpreter.Vm.DoJump | src/vm-dispatch.include.c:279-324 | relative, absolute, computed and conditional jumps |
| Interpreter.Vm.SetCatch | src/vm-dispatch.include.c:204-216 | arms or disarms the top frame's handler |
| Interpreter.Vm.HandleException | src/vm-dispatch.include.c:671-696 | climbs to the innermost armed handler and consumes it, leaving the stack as deep as it was |
| Interpreter.Vm.DoArithmetic | src/vm-dispatch.include.c:429-481 | arithmetic and comparison on integers, an exception for other operands |
| Interpreter.Vm.DoAnd | src/vm-dispatch.include.c:483-493 | conjunction by truthiness |
| Interpreter.Vm.DoSet | src/vm-dispatch.include.c:326-359 | constants, literals, moves and null |
| Interpreter.Vm.DoLocal | src/vm-dispatch.include.c:366-401 | locals of the top frame, an exception for an unknown one |
| Interpreter.Vm.DoGlobal | src/vm-dispatch.include.c:403-416 | globals |
| Interpreter.Vm.DoException | src/vm-dispatch.include.c:217-250 | clear, read and throw exceptions; reading without one raises |
| Interpreter.Vm.DoThrow | src/vm-dispatch.include.c:234-250 | only a structure is thrown; anything else raises a new exception |
| Interpreter.Vm.DoStructNew | src/vm-dispatch.include.c:625-635 | a new structure gets a new identity |
| Interpreter.Vm.ReadRegister | src/vm.c:305-319 | register classes on reads, failing for argument and unknown registers |
| Interpreter.Vm.WriteRegister | src/vm.c:295-303 | register classes on writes, failing for parameter registers, ignoring the others |
| Interpreter.Vm.CopyArguments | src/vm.c:330-347 | the copying loop stops after argument 0 and reports one parameter |
| InstructionLaws.SumStep | src/vm-dispatch.include.c:430-456 | ADD a b c, SUB a b c and MUL a b c put b + c, b - c and b * c into a, modulo 2^64 and exactly when it fits, and change nothing else |
| InstructionLaws.DivisionStep | src/vm-dispatch.include.c:433-456 | DIV a b c and MOD a b c put the truncated quotient and the remainder of b by c into a; they fail for c = 0 and the overflowing quotient |
| InstructionLaws.ComparisonStep | src/vm-dispatch.include.c:458-481 | LT, GT, LTE, GTE and EQ a b c put 1 into a if they hold of b and c in this order, else 0 |
| InstructionLaws.OtherOperands | src/vm-dispatch.include.c:430-481 | with an operand that is no integer, NULL fails and any other value raises a new exception |
| InstructionLaws.AndStep | src/vm-dispatch.include.c:484-493 | AND a b c puts 1 into a if neither b nor c is null or the integer 0, else 0, and does not look at c if b decides |
| InstructionLaws.BranchStep | src/vm-dispatch.include.c:301-324 | IF goes on behind itself exactly if its register is null or the integer 0, else to its field |
| InstructionLaws.GotoStep | src/vm-dispatch.include.c:288-291 | GOTO goes to its field |
| InstructionLaws.GotoAddressStep | src/vm-dispatch.include.c:292-300 | GOTOADDRESS goes to the integer in its register, read without sign |
| InstructionLaws.RelativeStep | src/vm-dispatch.include.c:279-287 | JUMP goes as far as its signed 4-byte difference says, from its own address |
| InstructionLaws.MoveStep | src/vm-dispatch.include.c:336-341 | MOVE a b copies b to a |
| InstructionLaws.LiteralStep | src/vm-dispatch.include.c:326-335 | LITINTEGER stores the signed number of its 8 bytes |
| InstructionLaws.LoadStep | src/vm-dispatch.include.c:342-359 | constants and null go into the register |
| InstructionLaws.StructStep | src/vm-dispatch.include.c:625-635 | a new structure is none there was |
| InstructionLaws.ExceptionStep | src/vm-dispatch.include.c:217-250 | what clearing, reading and throwing do to the exception, the registers and control |
| InstructionLaws.NothingStep | src/vm-dispatch.include.c:52-57 | NOOP does nothing, DIE ends the run |
| InstructionLaws.CatchStep | src/vm-dispatch.include.c:204-216 | CATCH arms the top frame's handler with its address and register, CLEARCATCH disarms it |
| InstructionLaws.SetStep | src/vm-dispatch.include.c:366-409 | SETLOCAL and SETGLOBAL k v: the symbol in the first register gets the value in the second, in the top frame's locals or the globals |
| InstructionLaws.GetStep | src/vm-dispatch.include.c:378-416 | GETLOCAL and GETGLOBAL a k: the first register gets what is found for the symbol in the second; a miss raises, or leaves NULL |
| InstructionLaws.RegisterNumbers | src/vm.c:295-319 | which register numbers are general, zero, null, arguments and parameters, and which can be read or written |
| InstructionLaws.StartsNull | src/vm.c:54-63 | a new machine has null in every register |
| InstructionLaws.Layouts | src/vm.h:221-295 | the operand layouts of the opcodes with registers only, by number |
| InstructionLaws.FieldLayouts | src/vm.h:221-295 | those of the other opcodes, and the numbers without a case |
| InstructionLaws.UnknownStep | src/vm-dispatch.include.c:251-260 | numbers without a case end the run; opcode 55 fails |
| MachineLaws.RingOperations | src/object.c:205-240 | sums, differences and products are right modulo 2^64 and exact when they fit |
| MachineLaws.DivisionLaw | src/object.c:241-264 | quotient and remainder: a = q*b + r, |r| < |b|, r has the dividend's sign; undefined exactly for a zero divisor and the overflowing quotient |
| MachineLaws.ComparisonLaw | src/object.c:265-305 | exactly one of less, greater and equal holds, the other two comparisons are their unions, and less is a strict order |
| MachineLaws.JumpBack | src/vm-dispatch.include.c:279-287 | a relative jump backwards undoes one forwards and the other way round, through wrap-around |
| MachineLaws.ReadAfterWrite | src/vm.c:295-319 | a write is seen by reads of that general register only |
| MachineLaws.ArgumentsOnce | src/vm.c:330-347 | a call passes its first argument only, counts one, and uses it up |
| MachineLaws.InnermostHandler | src/vm-dispatch.include.c:677-693 | the handler found is the innermost armed one; none is found only if none is armed |
| MachineLaws.CatchConsumes | src/vm-dispatch.include.c:679-690 | catching disarms that handler and no other and does not unwind the stack |
| Readback.SetThenGet | src/object.c:321-370 | setting a key and looking it up, on any table in key order, exactly: a key that has a value keeps it; a new key is found, with its value, if and only if its rank is the table's length halved any number of times, 0 included; else it is not found at all |
| Readback.SetButNotFound | src/object.c:321-370 | keys 1, 2, 4 and then 3: the key just set is not found |
| Readback.FoundStays | src/object.c:321-370 | a key found at its place keeps its first value through any insertions of keys not smaller, itself included |
| Readback.SetOnAny | src/object.c:321-370 | setting a key and looking it up, on any table, in key order or not, exactly: the value just set is found if and only if the search ends in the slot where the pair has stopped, else the slot where it ends is as it was |
| SmallerKeys.SetSmaller | src/object.c:321-370 | what inserting a smaller key does to a key that was found, exactly: it stays found, or the lookup ends behind the slot where the smaller key lands |
| SmallerKeys.StaysIff | src/object.c:321-370 | one insertion of any key: the value found for another key stays if and only if the inserted key is not smaller, or its way up avoids the search, or the next pair of the key has the same value |
| KeyViews.HistoryLookup | src/object.c:321-370 | any history of settings on any table there is: what a key's lookup finds depends only on which of the other keys are smaller and which are larger |
| KeyViews.InsertAllView | src/object.c:321-338 | replacing every other key by 0 or 2 commutes with insertion |
| Readback.RunKeepsHeaps | src/vm-dispatch.include.c:366-416 | in every run the locals of all frames and the globals stay in heap order, so these laws apply to them |
| Readback.LocalReadBack | src/vm-dispatch.include.c:366-401 | SETLOCAL and then GETLOCAL of one symbol, as two turns of the loop, whatever the other locals: the value set, an older value, or an exception, in exactly these cases |
| Readback.GlobalReadBack | src/vm-dispatch.include.c:403-416 | SETGLOBAL and then GETGLOBAL, whatever the other globals: the value set, an older value, or NULL, in exactly these cases |
| Readback.InsertKeepsSortedIff | src/object.c:321-338 | setting any key, new or present, keeps key order if and only if it is not smaller than the last, or moves up from a bottom half of equal keys into a top half with room for it |
| Readback.RepeatedButFound | src/object.c:321-370 | keys 1, 2, 3, 2: not in key order, and every key is found |
| CallReturn.MatchedReturn | src/vm-dispatch.include.c:58-182 | the first time the stack is back at the caller's depth, control is at the call address plus the call's length, the frames below are untouched, and the returned value is in the register the call is written with last; through any nesting of calls, tail calls and exceptions caught inside |
| CallReturn.ImmediateReturn | src/vm-dispatch.include.c:74-88 | a concrete use: a call to a subroutine that returns a register at once comes back in two steps with that register's value |
| CallReturn.EnterCall | src/vm-dispatch.include.c:74-182 | a call notes the address behind itself and its last register in a new frame without locals or handler, passes the arguments, and is counted in one byte of the program |
| CallReturn.CallTarget | src/vm-dispatch.include.c:74-182 | CALL goes to its field, CALLSYMBOLIC to the table's entry for the symbol its constant is, INVOKESYMBOLIC to that of the symbol in its first register, INVOKEADDRESS to the integer there; anything else, or a full stack, fails |
| CallReturn.TailCallStep | src/vm-dispatch.include.c:58-73 | a tail call takes over its caller's frame with the same return address and register |
| CallReturn.ReturnLaw | src/vm-dispatch.include.c:263-278 | a return hands its register to the one the frame names and goes back; from the stack root it raises a new exception |
| CallReturn.StepKeeps | src/vm-dispatch.include.c:58-182 | no step inside a call touches the frames below it or forgets its return address |
| Tags.TagRoundTrip | src/vm.c:490-528 | reading a written tag gives the heat modulo 256 and the trace index; the byte behind the tag is kept |
| Tags.TagLayout | src/vm.c:490-528 | the trace index is in the first two bytes behind the opcode, the heat in the third |
| Tags.BumpBytes | src/vm.c:437-446 | counting adds one to that third byte, modulo 256, and changes no other |
| Tags.BumpFrame | src/vm.c:437-446 | counting changes at most the tag's three bytes |
| Tags.HeatAfter | src/vm.c:437-446 | after n executions the heat is the initial one plus n modulo 256, the trace index and all other bytes unchanged |
| Tables.ObjStruct.Set | src/object.c:321-338 | sift-up in place computes the specified insertion, growing by doubling |
| Tables.ObjStruct.Get | src/object.c:339-370 | the binary search ends, its mid < max assertion holds, and it computes the specified lookup on every table |
| Tables.InsertKeepsHeap | src/object.c:321-338 | insertion keeps heap order |
| Tables.InsertContents | src/object.c:321-338 | insertion adds exactly its pair to the multiset of pairs |
| Tables.InsertAllContents | src/object.c:321-338 | the same for any sequence of insertions |
| Tables.FindSound | src/object.c:339-370 | a value found was stored under that key, on any table |
| Tables.FindMinimum | src/object.c:339-370 | on a heap-ordered table the least key is always found |
| Tables.FindOnSorted | src/object.c:339-370 | on a table in key order lookup is exact and yields the oldest value of a key |
| Tables.AscendingInsertions | src/object.c:321-370 | for keys that never decrease the table is the insertion history and lookup is the first-insertion-wins map |
| Tables.CompleteIffSorted | src/object.c:321-370 | on any table, every stored pair is the one its key's lookup finds if and only if the table is in strict key order; when no key was set twice, it is the same that every key is found |
| Tables.InsertKeepsOrderIff | src/object.c:321-338 | inserting a pair keeps strict key order if and only if its key is new and larger than all others, or new and the table has at most two pairs |
| Tables.StoredButNotFound | src/object.c:321-370 | keys 1, 2, 3, 0 in this order: key 2 is stored and not found |
| Closures.BuildClosure | src/vm.c:237-257 | the closure's pairs are the multiset union of all frames' locals, in heap order |
| Closures.ClosureOf | src/vm.c:237-257 | a pair is in the closure if and only if it is a local of some frame |
| Closures.AddLocals | src/vm.c:247-251 | one frame's locals are inserted in their order |
| Symbols.InternProperties | src/symbol.c:45-69 | interning is injective, stable, inverted by lookup, and gives new strings the next number |
| Symbols.IndexStable | src/symbol.c:45-57 | a number once given stays, whatever is added |
| Symbols.SymbolStore.Add | src/symbol.c:31-43 | a new string gets the next number, through growth |
| Symbols.SymbolStore.Expand | src/symbol.c:26-29 | growth keeps every entry |
| Symbols.SymbolStore.Symbolicate | src/symbol.c:45-57 | the linear search interns as specified |
| Symbols.SymbolStore.Desymbolicate | src/symbol.c:59-69 | the name of a number, if given out |
| Resolution.SubroutineFound | src/vm.c:124-137 | when every chunk's subroutine names are new at its load, every subroutine is found at base + offset after any later such loads |
| Resolution.KnownAfter | src/vm.c:124-148 | a chunk makes known its subroutine names and the symbols among its constants, and no other name |
| Resolution.LoadKeepsOrder | src/vm.c:124-137 | a load with new names only appends to the table and keeps it in key order |
| Resolution.HistoryResolves | src/vm.c:124-137 | when every chunk defines new names, each subroutine label of a linked history is found, after any such later loads, at the loaded address of the instruction it stands before |
| Resolution.NamedCall | src/vm-dispatch.include.c:110-136 | the exact outcome of CALLSYMBOLIC in any linked history, whatever tags have counted: a new frame at the address the final table has for the name, or a failure when the lookup finds none or the stack is full |
| Resolution.CallReachesSubroutine | src/vm-dispatch.include.c:110-136 | with new names in every chunk, CALLSYMBOLIC in any chunk on the name of a subroutine of the same or another chunk enters the instruction that subroutine's label stands before |
| LinkOrders.OrderWorksIff | src/vm.c:124-148 | for every link order from nothing in which no name is defined twice, all subroutines can be looked up if and only if inserting the chunks' entries, numbered by first mention of their names, gives a table in key order |
| LinkOrders.LoadKeepsLookup | src/vm.c:124-148 | the same for one load after any image: the names defined before and the chunk's own can be looked up if and only if inserting the chunk's entries into the table there is gives one in key order |
| LinkOrders.OneMoreDefinition | src/vm.c:124-137 | for a chunk with one subroutine, read off the image before the load: at most two entries, or the name not interned before the last defined one |
| LinkOrders.OrderInserted | src/vm.c:124-148 | the table after any loads is the insertion history of entries computed from the chunks' names, constants and code sizes alone |
| Redefinition.KeptIff | src/vm.c:124-137 | one more definition, of any name, exactly: a name found at its place keeps its address if and only if the name defined is not older, or the older entry's way up avoids the search for the name, or the name's next entry has the same address |
| Redefinition.ResolvesByOrder | src/vm.c:124-148 | any loads, exactly: the address a name resolves to is determined by the entries there were and, of each later definition, its address and whether its name was interned before, is this name, or was interned after |
| Redefinition.KeptWhileNoneOlder | src/vm.c:124-137 | a corollary over whole sequences of loads: redefinitions have no effect while no name interned earlier is defined |
| RedefinitionExample.SecondDefinitionWins | src/vm.c:124-137 | three generated blocks: a name resolves to its first definition after two, and to its second after the third |
| LinkOrderExample.CalledBeforeDefined | src/vm-dispatch.include.c:110-136 | two generated blocks, linked in a row: the first instruction executed, a call of a name the second block defines, fails although the name is in the table |
| LinkOrderExample.CalledAfterDefined | src/vm-dispatch.include.c:110-136 | the same blocks linked the other way round: the call enters its target |
| Debugging.DebugOfBlock | src/generator.c:235-246 | a flat block's ranges run from each marker to just before the next, the last to the end of the code |
| Debugging.EntryOfMark | src/generator.c:235-246 | each range has its marker's line, entry and flags, and starts where the marker stands |
| Debugging.ShiftedCovers | src/vm.c:104-122 | a loaded range covers exactly the bytes from its marker to the next; the one exception is an empty range at offset 0 loaded at address 0, which covers everything |
| Debugging.LinkedLookup | src/exception.c:52-62 | for any sequence of flat blocks linked from nothing, and any later loads: the lookup for an instruction byte of the last block finds the last marker at or before it (when there is one) if and only if no block so far has a range that is empty at address 0 |
| Debugging.LoadKeepsInside | src/vm.c:104-122 | loads keep all ranges inside loaded code |
| Debugging.FoundCovers | src/exception.c:52-62 | what is found covers the address from its start to its end and no earlier range does; nothing is found only if none does |
| Debugging.FindDebugEntry | src/exception.c:52-62 | the loop finds the first covering range |
| Debugging.BuildBacktrace | src/exception.c:66-106 | the loop over frames computes the specified backtrace |
| Debugging.BacktraceFrames | src/exception.c:80-105 | every frame whose range is not hidden is listed once, topmost first, and no other |
| Debugging.BacktraceOf | src/exception.c:80-105 | frame by frame: the range found for its address, none if there is none, and no location if the top bit of its flags is set |
| Collector.Space.MarkRef | src/gc1.c:50-71 | recursive marking ends on cyclic graphs and marks exactly what is reachable from the object through followed objects, besides what was marked: the object, and the values of a structure, elements of an array or data of an exception that it marks |
| Collector.Space.MarkAll | src/gc1.c:73-88 | the same for a structure's values or an array's elements |
| Collector.Space.MarkRegisters | src/gc1.c:90-104 | the same for a register bank |
| Collector.Space.MarkStack | src/gc1.c:106-113 | the same for every frame's locals |
| Collector.Space.MarkReachable | src/gc1.c:193-198 | registers and locals are the roots |
| Collector.Space.ResetMarks | src/gc1.c:36-44 | clears every mark and nothing else |
| Collector.Space.Sweep | src/gc1.c:124-132 | frees exactly the unmarked entries, in order |
| Collector.Space.FindNextFree | src/gc1.c:139-145 | the next null entry, or the end |
| Collector.Space.HasUsedAfter | src/gc1.c:146-162 | the next used entry after a position |
| Collector.Space.RelocateEntry | src/gc1.c:164-175 | moves an entry down and repairs its object's back reference |
| Collector.Space.Compact | src/gc1.c:177-191 | slides the used entries down in their order; each object names its new entry |
| Collector.Space.Run | src/gc1.c:200-212 | a whole collection filters the space: the reachable objects remain in their old order with right back references, exactly the others are freed, no root is freed; what is live is what registers and locals name and, field by field, what a live structure, array or exception names |
| Collector.LiveIsLeast | src/gc1.c:50-113 | nothing else is live: any set with the roots that has what its objects' fields name has all live objects |
| Collector.Space.AddObjRef | src/gc1.c:221-243 | tracks an object once; constants and tracked objects are left alone |
| Collector.Space.Grow | src/gc1.c:214-219 | eight times the entries, all numbers kept |
| Collector.Space.TrackedOnce | src/gc1.c:221-243 | the space lists exactly the tracked objects, each once, no constants |
| Collector.Space.NewObject | src/gc1.c:221-229 | an untracked object does not disturb the space |
| Collector.SweptIsKept | src/gc1.c:124-191 | sweeping and compacting is filtering |
| Collector.UsedMove | src/gc1.c:164-191 | moving a used entry over null ones keeps the used entries and their order |
| Reachability.ExploredExactly | src/gc1.c:50-71 | a depth-first exploration from nothing marks exactly the reachable nodes of any finite graph |
| Tracing.CallTrace.PushInstruction | src/jit-tracer.c:43-212 | records an instruction unless its address is recorded or it is not recordable; the first RETURN completes the trace, enters it in the list and writes its index into the caller's tag in the program; nothing else changes |
| Tracing.CallTrace.Complete | src/jit-tracer.c:94-110 | the trace goes to the slot after the number of traces, and the slot's number plus one into the caller's tag |
| Tracing.CallTrace.FindIp | src/jit-tracer.c:33-41 | finds the item of an address if there is one |
| Tracing.CallTrace.CheckExpandCapacity | src/jit-tracer.c:25-31 | doubles a full trace and keeps its items |
| Tracing.RecordsOpcodes | src/jit-tracer.c:62-205 | which opcodes are recorded, and that recording adds at most that instruction |
| Tracing.RecordedRun | src/jit-tracer.c:43-212 | the trace of a run has every executed address once, with its instruction, and no other; the entry comes first |
| Tracing.StepFollows | src/vm-dispatch.include.c:26-669 | a turn of the loop that raises nothing is a step of such a run |
| Tracing.RunRecorded | src/vm-dispatch.include.c:26-51 | the addresses at which the interpreter executes recordable instructions, turn by turn, are such a run |
| Tracing.CallTrace.RecordTurns | src/vm-dispatch.include.c:26-51 | any number of turns of the loop with the recorder on: the trace is the recorded run, and the machine runs as without it but for the index that a RETURN finds written into the caller's tag |
| TracedRuns.RecorderInvisible | src/jit-tracer.c:94-110 | with the recorder and without it, the machine does what the machine on instruction numbers does, and keeps every instruction in memory |
| TracedRuns.IndexKeepsCode | src/jit-tracer.c:104-110 | writing a trace index into a call's tag leaves every instruction where it was |
| TracedRuns.IndexOfCalls | src/jit-tracer.c:104-110 | it changes no call's heat and no other call's index |
| TracedRuns.OwnTraceIff | src/jit-tracer.c:98-110 | after any completions the tag of every completed call names the trace completed last, so its own if and only if that is the last |
| Tags.IndexFrame | src/vm.c:490-528 | writing an index changes at most the tag's three bytes, and not the heat |
| TraceOrder.CastIs | src/jit-compiler.c:1489-1495 | the cast keeps the low 32 bits, read with a sign |
| TraceOrder.TraceSortsIff | src/jit-compiler.c:1489-1499 | every sort of a run's trace by the comparator is the trace in address order if and only if the addresses, cast to int, keep their order and are less than 2^31 apart |
| TraceOrder.SortsIff | src/jit-compiler.c:1489-1499 | the same for any items with distinct addresses |
| TraceOrder.SmallAddresses | src/jit-compiler.c:1489-1495 | addresses below 2^31 meet the condition |
| TraceOrder.FarTrace | src/jit-compiler.c:1489-1499 | a run from address 5 to address 2^32, the trace of which every sort leaves in falling order |
| ControlFlow.FarBlocks | src/jit-compiler.c:730-807 | its blocks: the RETURN it ends with is taken for the entry, and the GOTO before it lies in the RETURN's block |
| Blocks.BlockList.FindOrInsert | src/jit-compiler.c:649-712 | the linked list with its count and tail changes as the specified list of heads |
| Blocks.BlockList.CurrentBlock | src/jit-compiler.c:280-300 | the walk returns the specified block |
| Blocks.InsertAscending | src/jit-compiler.c:666-695 | find-or-insert keeps the list ascending without duplicates and adds that address only, for addresses not below the first |
| Blocks.InsertKeepsOrderIff | src/jit-compiler.c:666-695 | order is kept if and only if the address is not below the first head |
| Blocks.CurrentIs | src/jit-compiler.c:280-300 | the current block is the last one that does not begin after the address |
| Blocks.ContainsIp | src/jit-compiler.c:714-722 | tells whether an address was traced |
| Blocks.IdentifyBlocks | src/jit-compiler.c:730-807 | the pass builds the specified heads; an arm is a bailout exactly when its target was never traced; it stops exactly where the GOTO assertion fails |
| ControlFlow.HeadsExactly | src/jit-compiler.c:730-807 | heads are strictly ascending and exactly the entry and the traced addresses that a traced GOTO or IF names, or that are right behind an IF |
| ControlFlow.ContinuationHitsHead | src/jit-compiler.c:1418-1428 | neighbours in the trace are in different blocks if and only if the second begins its block, which is then the next block |
| ControlFlow.TerminatorsEndBlocks | src/jit-compiler.c:730-807 | an IF, GOTO or RETURN ends its block, unless the next item is the run's entry: then if and only if a traced branch goes there |
| ControlFlow.GotosTracedIff | src/jit-compiler.c:789-794 | the assertion on GOTO targets holds if and only if the run does not end with a GOTO to an address it never executes |
| ControlFlow.ArmTaken | src/jit-compiler.c:765-795 | where the dispatcher goes from an IF or GOTO is where the arm picked by the register's value leads: to the block beginning there, or to none if that was never traced |
| ControlFlow.RecordedBlocks | src/jit-compiler.c:730-807 | all of it from the recorded run to the blocks, for every run the sort orders and the GOTO assertion admits; a terminator before the entry ends its block if and only if a traced branch goes to the entry |
| ZonePool.Pool.Take | src/object.c:433-454 | hands out the first free slot, which was free, and changes no other; may add a zone of free slots |
| ZonePool.Pool.FindNextEarliestFree | src/object.c:456-490 | moves the cursor to the next free slot, appending a zone when all are full |
| ZonePool.Pool.Free | src/object.c:492-542 | frees that slot only and moves the cursor back if needed; fails exactly for a slot of no zone |
| ZonePool.Pool.NoneBeforeCursor | src/object.c:456-542 | no free slot precedes the cursor, in any state |

## Left out

- Simulation.RunAgrees: says nothing about a run once control has left the text, or computed an address that is none of its instructions; the bytes there belong to something else. Linked blocks are one text, so calls and jumps from chunk to chunk are inside it.
- Interpreter.Vm.HandleException: exceptions carry no message and no backtrace; storing a backtrace in a thrown structure, with the assertion that a value under its "backtrace" key is an array, is not modelled. `Debugging.BuildBacktrace` is the list alone.
- Interpreter.Vm.DoThrow: a thrown structure is known by its identity only, as its contents are not modelled.
- Machine.Step: instructions on arrays, struct contents, closures, primitives and SYMBOLICATE end the modelled run as a failure does; their effects on objects and the outside world are not modelled. An address at or past the loaded code fails; the C array goes on behind it, cleared up to its first capacity, and NOOPs would run there.
- Interpreter.Vm.DoLocal: the locals of a frame and the globals are values here, changed by the specified insertion; `Tables.ObjStruct` has the same insertion in place.
- Interpreter.Vm.Step: the JIT is off, so calls by name never switch to tracing or to compiled code.
- Generator.WritePlain: the layouts for a constant given by number, the unsupported items (invoke-symbolic and the other numeric constant item), the mis-tagged numeric IF and an unknown constant type are not items of the model; the generator exits, mis-encodes or does not use them.
- Loader.Store.AddConst: constant numbers are unbounded in the pool and truncated to 4 bytes in the code; the 32-bit counter itself does not wrap.
- Collector.Space.MarkRef: locals and array elements are never NULL here, by type; the C code dereferences them without a test, registers alone are tested.
- Collector.Space.Sweep: freeing is recorded, not performed; the C destructor stops at strings and arrays.
- Collector.Space.AddObjRef: an entry is named by number, because growing moves the entries and leaves raw pointers stale; a null entry is a null reference, while the C code tests one byte of it.
- TraceOrder.SortsIff: the sort is any that yields a permutation ordered by the comparator; where the comparator's subtraction overflows, nothing is promised about the order, as C leaves the result undefined.
- ControlFlow.RecordedBlocks: runs are of recordable instructions without exceptions in one frame, with encodings that do not overlap.
- ZonePool.Pool.Take: a zone's slots are a sequence of used flags; the references themselves are not modelled, and a new zone's flags are taken to be clear, while the C code allocates its references without clearing them.
- Tracing.CallTrace.PushInstruction: an item keeps the decoded instruction; the types and branches annotated on items, and the registers read for them, are not modelled. A caller's tag is an address in the program, not a pointer.
- TracedRuns.OwnTraceIff: traces are named by number; compiling and running them is not modelled.
- Debugging.DebugOfBlock: nested blocks keep markers of their own, and their ranges may overlap the outer ones; only flat blocks are treated.
- LLVM code construction, register and local slots and bailout emission in src/jit-compiler.c: foreign calls without a usable semantics here.
- The disassembler, primitives, the Lua debugger, file input and output, and failing allocation.
