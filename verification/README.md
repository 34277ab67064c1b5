# Mini-GPU in Dafny

A Dafny model of the Mini-GPU tool chain and proofs about it: the compiler back end (IR to assembly
with register allocation and spilling), the structurizer that turns branches into mask regions, the
assembler, the core that fetches and decodes the words, the runtime's device memory and program cache,
the host protocol over a lossy serial link, and the shape arithmetic of tensor views.
`dafny verify dfyconfig.toml` checks all of it.

## How the model is laid out

Code that updates state step by step is a class or a method with loops: `RegisterAllocator.Allocator`,
`KernelLowering.LowerState`, `Reachability.Search` with its shared `Seen` set, `DeviceContext.Context`,
`ProgramCache.ProgramContext`, `HostLink.Link`, `Assembler.AssemblerState` and the transfer, packet,
breadth-first and view methods. Each is proved equal to a function of its inputs or of the old state,
or directly against what it promises; the theorems are about those functions.

* **Back end** (`MaskStack`, `Isa`, `MiniIr`, `Allocation`, `RegisterFile`, `PredicateScopes`,
  `RegisterSupply`, `LaneSimulation`, `Literals`, `EmittedCode`, `BackEnd`, `SelfUses`, `Compiler`,
  `SectionLowering`, `QuietSections`, `RegisterAllocator`, `BackEndLimits`, `SpillLanes`). The register-file
  invariant (`Compiler.SectionOrderly`) holds for every call-free section. `RegisterSupply.LowerRaisesExactly` says
  when one statement cannot be lowered, and `SectionLowering` which whole sections can.
  `Compiler.MeaningPreserved` is the simulation theorem for sections without branches.
  It asks two things of the lowering, each exact for one statement: an assignment that reads its own
  destination finds it in a register for good (`SelfUses` says what happens otherwise), and no value a lane
  has defined and still needs is moved while the lane is idle (`BackEnd.MovedHomeBreaks` is the converse).
  A lane active under every predicate meets the second trivially (`Compiler.ActiveLanePreserved`), and
  `Compiler.EveryLanePreserved` gives a condition on the section alone that covers every lane of a warp;
  `QuietSections` shows that sections which never spill a temporary meet it.
* **Control flow** (`Cfg`, `Reachability`, `MergePoint`, `CommonMerge`, `MaskMachine`, `Structurizer`,
  `StructuredRegions`, `KernelReturns`, `KernelLowering`, `KernelCompilation`, `KernelOutcomes`, `DiamondKernel`).
  Blocks are opaque transformers of a lane's state, and a branch condition is a temporary only its own block writes.
  `KernelLowering.RegionPreserved` covers every region whose blocks before the stop block satisfy
  `StructuredRegions.Tame`: they exist, do not return, form no cycle, and at each branch the arms reach the
  blocks they share only through one join block. The rest of the function is free to loop.
  `KernelOutcomes.KernelCompiled` puts structurizer and back end together for kernels whose blocks are IR
  statements: what a lane's own blocks do along its own branches decides, and the nesting of the regions.
* **Assembler, constants table and core** (`Encoding`, `Assembler`, `AcceptedText`, `CompiledText`, `ConstantsAbi`,
  `CoreExecution`, `KernelExecution`). Text is already split into fields; the decoder side follows the hardware's
  own tables. `AcceptedText` says exactly which texts assemble, and `CompiledText` which of them the back end emits.
  `CoreExecution` fetches, decodes and issues words for one lane of a warp, with its own reading of every
  field, and `KernelExecution.KernelExecuted` closes the chain from control-flow graph to running words;
  `KernelExecution.SmallKernelAssembles` gives kernels that meet all its premises on compiling and assembling.
* **Device memory** (`BlockList`, `Rounding`, `DeviceMemory`, `DeviceRuns`, `DeviceContext`). The list of a tiled,
  settled range is determined by its live blocks (`BlockList.Canonical`), so stating what is live states
  the whole list. Addresses wrap at 32 bits and sizes at 64 as in C++.
* **Program cache** (`ProgramMemory`, `ProgramLoads`, `ProgramCache`). In `ProgramLoads` an upload may break off
  leaving anything in the slot, or be written and then pass or fail validation; in `ProgramCache` it is the
  transfer over the link that decides, and only the result of validation is a parameter.
* **Host protocol** (`Packets`, `HostLink`, `Transfers`, `ChunkedCommands`, `CopyIsolation`). A link is
  an arbitrary plan of attempts: the host cannot send, the request is lost, it is carried out and its
  reply is clean, lost or has one byte changed, or it is refused after leaving bytes in the range it
  addresses. A reply always belongs to the request just sent.
* **Views** (`View`). Shapes, strides and the inferred dimension, whose running product has 64 bits.

## Where the code does less than its documentation or callers may expect

* A spill or reload inside a predicate runs in active lanes only; a lane that drops out can read a stale
  register afterwards (`BackEnd.MovedHomeBreaks`; `BackEndLimits.DroppedLaneGetsWrongValue` is a whole section).
* An assignment that reads the memory-backed value it defines, a stack slot or a parameter, leaves the old
  value in place (`SelfUses.SelfUseInMemory`, with `BackEndLimits.SelfUseIsLost` as a section), and one that
  reads a spilled temporary it defines reads a register that was never loaded (`SelfUses.SelfUseUnloaded`).
* The compiler's documentation calls TIDX the thread index within the block, but the hardware returns the
  global thread number (hardware/rtl/lane/execute.v:292, hardware/rtl/core/warp.v:86). Spill addresses add
  it to four times the slot, so lanes four apart share spill words from two slots on
  (`SpillLanes.ShareWordExactly`).
* The mask stack holds four entries (hardware/rtl/core/mini_gpu_core.v:75); deeper nesting stops the core,
  and the region theorems say exactly when.
* EXIT ends the whole warp (hardware/rtl/core/mini_gpu_core.v:385-394), and kernels with more than one
  reachable return are rejected when they are acyclic (`KernelReturns.LoweredReturnsOnce`).
* A request whose rounding wraps at 64 bits is granted fewer bytes than asked for, possibly none
  (`DeviceRuns.WrappedRequestOverlaps`).
* A failed upload or validation keeps its instruction-memory block for good (`ProgramLoads.FailedUploadLeaks`),
  and registering new bytes under a cached name does not reach the device (`ProgramLoads.StaleAfterReregistration`).
* With allocation alignments that are not multiples of four, the zero padding of a write can reach the
  neighbouring allocation and clears it (`CopyIsolation.PaddingClears`, `CopyIsolation.ByteAlignmentOverlaps`).
* A length byte changed to a smaller value can turn a packet into another valid one; `Packets.OneByteAccepted`
  says exactly when.
* A data write in range whose padding alone runs past the last address stores every chunk but the last and then
  fails with a bad-argument error (`Transfers.ComWriteData` says exactly when); for the one byte at the last
  address nothing is sent at all (`Transfers.LastByteRefused`).
* The runtime always puts the spill base in entry 32 of the constants table, but a kernel without parameters that
  loads another SHARED_ symbol first reads its spill base from another entry (`ConstantsAbi.KernelNumbers` says
  exactly when, `ConstantsAbi.SpillBaseSecond` is such a kernel).
* The product of a requested view size is taken in 64 bits and can come out as another one
  (`View.PassesUnlessMisjudged` says exactly when; `View.EmptyAsHuge`).

## Model

| member | source | states |
|---|---|---|
| Compiler.MeaningPreserved | compiler/ir_to_isa.py:310-361 | for every branch-free section, split anywhere into a done and a remaining part, whose self-uses are of destinations in a register for good: if the code assembles and lowering moves nothing the lane has defined and still needs while the lane is idle, the emitted code leaves status, masks and memory outside the spill window as the IR does, and every value the rest names is where the allocator will look for it |
| Compiler.ActiveLanePreserved | compiler/ir_to_isa.py:310-361 | the same for a whole section in a lane that stays active under every predicate, with no condition on what lowering does to idle lanes |
| Compiler.EveryLanePreserved | compiler/ir_to_isa.py:310-361 | the same for every lane of a warp, whatever its predicates, under a condition on the section alone: inside a predicate lowering moves no needed value that was assigned before the predicate was opened |
| Compiler.QuietForEveryLane | compiler/ir_to_isa.py:124-136 | that condition, which mentions no lane, covers whatever any lane of any mask can hold while it is idle |
| Compiler.NoSelfUsesSafe | compiler/ir_to_isa.py:372-529 | sections without self-use meet the condition on self-uses, however they are lowered |
| Compiler.SectionOrderly | compiler/ir_to_isa.py:84-204 | at every point of any call-free section, self-uses and branches included, registers are injective and with the free list partition r0..r12, spill slots are distinct and below the next one and memory-backed values keep theirs, and a value that is not memory-backed is forgotten only when no statement ahead names it |
| Compiler.SectionFromStart | compiler/ir_to_isa.py:249-270 | from the start of a section the counters are exact at every point: each value that is not memory-backed is counted as often as the rest of the text names it, and has a place if it is |
| Compiler.CountUsesCounts | compiler/ir_to_isa.py:249-270 | the use counter starts at exactly the number of times the section's text names each value |
| BackEnd.LowerMatches | compiler/ir_to_isa.py:622-720 | one IR statement lowered and run keeps the simulation relation, whatever the lane's masks are |
| BackEnd.BranchReads | compiler/ir_to_isa.py:682-698 | up to its branch line the code of a conditional branch leaves the lane as the IR has it, and the branch tests a register that holds the IR's condition |
| BackEnd.AssignReads | compiler/ir_to_isa.py:84-101 | an assignment that reads its own destination reads what the destination's register held before it, and computes the IR result of that value; only a memory-backed destination keeps its old slot instead |
| BackEnd.AssignMatches | compiler/ir_to_isa.py:372-529 | the code of one assignment computes the IR value and leaves it where the allocator records it, memory-backed destinations included, and self-uses of a resident temporary included |
| SelfUses.SelfUseInMemory | compiler/ir_to_isa.py:84-101 | an assignment that reads its memory-backed destination keeps the relation if and only if the lane stops or goes on as in the IR and the new value equals the old one |
| SelfUses.SelfUseUnloaded | compiler/ir_to_isa.py:96-101 | an assignment that reads a temporary it has to find a new register for keeps the relation if and only if the IR result is the same with what that register held |
| BackEnd.StoreMatches | compiler/ir_to_isa.py:628-656 | a store through two operand registers writes the IR value at the IR address and disturbs no spill slot |
| BackEnd.PredBeginMatches | compiler/ir_to_isa.py:659-667 | pred_begin narrows the lane's mask as the IR does and deepens the predicate depth |
| BackEnd.OpcodeMeaning | compiler/ir_to_isa.py:291-307 | the chosen opcode computes the IR operation in the IR operation's format, and there is none exactly for the six operations float formats lack |
| BackEnd.IdleMatches | compiler/ir_to_isa.py:622-720 | code an idle lane skips keeps the relation when lowering moves no value the lane has defined and still needs |
| BackEnd.MovedHomeBreaks | compiler/ir_to_isa.py:124-136 | and only then, stated for allocator states with no code emitted yet: for every statement and every value whose home lowering moves there is an idle lane that matched before it and does not afterwards |
| BackEnd.StoreAgrees | hardware/rtl/lane/thread.v:112-187 | a store outside the spill window keeps IR and machine memory in agreement and every spill slot's word |
| RegisterFile.LowerOrderly | compiler/ir_to_isa.py:372-720 | lowering any statement, one that reads its own destination included, keeps the register-file invariant, leaves no pins behind, counts down exactly the statement's mentions, and forgets no value that is still counted nor any memory-backed value's slot |
| RegisterFile.DefineKeeps | compiler/ir_to_isa.py:84-101 | a defined value holds the register returned, the register file stays partitioned, and pinned values keep their registers |
| RegisterFile.UseKeeps | compiler/ir_to_isa.py:103-113 | a used value holds the register returned, reloaded if it was spilled; pinned values keep their registers, spilled ones their slots, and no value is lost |
| RegisterFile.SpareKeeps | compiler/ir_to_isa.py:115-136 | making room takes registers from unpinned values only and loses no value |
| RegisterFile.ReleaseForgets | compiler/ir_to_isa.py:183-204 | release takes the register of a memory-backed or counted-out value, forgets the slot only of a counted-out one that is not memory-backed, counts one use down and changes nothing else |
| RegisterFile.SpillStoreKeeps | compiler/ir_to_isa.py:149-175 | storing a value, with a new slot if it has none, keeps registers partitioned and slots distinct |
| RegisterFile.LoadPairKeeps | compiler/ir_to_isa.py:511-518 | finding the second operand's register never moves the pinned first operand |
| LaneSimulation.SpillAddrRun | compiler/ir_to_isa.py:159-169 | the emitted address code leaves the address of the slot's word in r14 and changes no lower register, no mask and no memory |
| LaneSimulation.SpillAddrInjective | compiler/ir_to_isa.py:149-169 | different slots of one lane, below 2048, are different memory words for every base address and thread number |
| LaneSimulation.UseLive | compiler/ir_to_isa.py:103-113 | after a reload the register holds the value the IR has, and every other needed value is still held |
| LaneSimulation.EvictLive | compiler/ir_to_isa.py:124-136 | after a spill the slot's word holds the value the register held, and every other needed value is still held |
| Literals.LiteralRun | compiler/ir_to_isa.py:588-606 | the MOVI, SHLI and ORI code of a literal of any size leaves exactly its value modulo 2^32 in the register and changes nothing else |
| EmittedCode.LowerAppends | compiler/ir_to_isa.py:372-656 | assignments, stores and labels only append code, and all of it only computes: it moves no mask, ends no warp, starts no kernel and transfers no control, and it addresses every slot it takes |
| EmittedCode.EncodableSlots | compiler/ir_to_isa.py:163-169 | a section whose immediates all fit the 14 bits the assembler has for them uses at most 2048 spill slots |
| SpillLanes.FourLanesApart | compiler/ir_to_isa.py:163-169 | for lanes 0 to 3 the pair of slot and lane determines the spill word, across all lanes |
| SpillLanes.ShareWordExactly | compiler/ir_to_isa.py:163-169 | two lanes share a spill word if and only if their thread numbers agree modulo four and one is less than four times the slot count ahead of the other, counted around the 16-bit address space |
| SpillLanes.FifthLaneCollides | hardware/rtl/lane/execute.v:291-292 | a lane four thread numbers up shares a spill word exactly from two slots on |
| BackEndLimits.DroppedLaneGetsWrongValue | compiler/ir_to_isa.py:124-136 | a concrete branch-free section whose lane drops out of a predicate around a reload stores a value the IR does not, so the condition on idle lanes is needed |
| BackEndLimits.SelfUseIsLost | compiler/ir_to_isa.py:84-101 | a concrete section that increments a stack slot in place stores a value the IR does not, so the condition on self-use is needed |
| RegisterAllocator.Allocator.SpillOneValue | compiler/ir_to_isa.py:124-136 | the in-place search for a victim, store and freeing leave the allocator in the specified state |
| RegisterAllocator.Allocator.AcquireValueReg | compiler/ir_to_isa.py:115-122 | a register from the front of the free list after at most one spill, or an error |
| RegisterAllocator.Allocator.DefineValue | compiler/ir_to_isa.py:84-101 | the whole new state and register of a definition |
| RegisterAllocator.Allocator.UseValue | compiler/ir_to_isa.py:103-113 | the whole new state and register of a use, or an error for an undefined value |
| RegisterAllocator.Allocator.ReleaseAfterUse | compiler/ir_to_isa.py:183-204 | the whole new state after a use of each kind of value |
| PredicateScopes.SpillableAfter | compiler/ir_to_isa.py:228-234 | after a predicate the unpinned values in registers recorded at least as deep as the code around it may be spilled again, and no others; recorded depths stay within the current one |
| PredicateScopes.ExitUndoesEnter | compiler/ir_to_isa.py:224-234 | leaving a predicate undoes entering it |
| PredicateScopes.LowerWithin | compiler/ir_to_isa.py:622-720 | lowering any statement keeps every recorded depth within the current predicate depth, on which the rule for spilling rests |
| PredicateScopes.SectionScopes | compiler/ir_to_isa.py:224-234 | at every point of every section nothing placed so far may be spilled right inside a predicate opened there, closing that predicate again changes nothing, and closing the current one makes exactly the values recorded at its depth or just outside it spillable |
| RegisterAllocator.Allocator.LowerStatement | compiler/ir_to_isa.py:622-720 | the in-place lowering of any statement leaves the specified state and code, and between statements it fails exactly when the operation does not exist, both operands are literals, an operand is nowhere, or the values it names and those placed around the current predicate are more than thirteen |
| RegisterAllocator.ValueOperands | compiler/ir_to_isa.py:249-270 | the counting loop returns the use counts the allocator starts from |
| RegisterAllocator.LowerSection | compiler/ir_to_isa.py:328-361 | the section loop with a fresh allocator returns the specified code or an error, and never an error for a section whose operations exist, whose operands were assigned before and whose values fit the thirteen registers at every statement |
| RegisterSupply.LowerRaisesExactly | compiler/ir_to_isa.py:84-136 | in any state between statements, lowering a statement raises if and only if the operation has no code, both operands are literals, an operand other than the destination is in no register and no slot, or more registers are claimed than are free or held by values placed under the current predicate; registers of values placed around it are neither claimed nor available |
| RegisterSupply.LowerNeedsThirteen | compiler/ir_to_isa.py:69-82 | the same in numbers: the registers run out exactly when the values the statement names and the values placed around the current predicate are more than thirteen together |
| RegisterSupply.RegistersShared | compiler/ir_to_isa.py:69-82 | free registers and resident values are always thirteen together |
| RegisterSupply.VictimIsFirst | compiler/ir_to_isa.py:124-136 | the value spilled is the first spillable one in dictionary order |
| SectionLowering.SectionLowers | compiler/ir_to_isa.py:310-361 | a whole section is lowered when its operations exist, no statement has two literals, operands were assigned before, and at each statement the values it names and those that may keep registers from around the open predicate are at most thirteen; the latter are read off the text: assigned before the predicate, not memory-backed and not yet mentioned for the last time |
| SectionLowering.FlatSectionLowers | compiler/ir_to_isa.py:310-361 | outside predicates registers never run out, however many values are alive |
| SectionLowering.FewValuesLower | compiler/ir_to_isa.py:310-361 | with predicates of any depth they never run out while the section names at most thirteen values |
| QuietSections.FewValuesQuiet | compiler/ir_to_isa.py:124-136 | a section that names at most thirteen values and loads each parameter into a new one meets the condition under which every lane of a warp is safe: nothing an idle lane needs is moved |
| QuietSections.HomesKept | compiler/ir_to_isa.py:84-204 | while values fit the registers, a statement moves no needed value, except a value that it loads a parameter into |
| Isa.WholeWordAccess | hardware/rtl/lane/thread.v:178-187 | a 32-bit access reads and writes exactly the addressed word |
| Reachability.ReachesAvoiding | compiler/llvm_to_ir.py:574-595 | with an empty seen set the search terminates on every graph, cyclic ones included, and succeeds if and only if some path from start to target never visits the avoided block |
| Reachability.Search | compiler/llvm_to_ir.py:574-595 | one recursive call on the shared seen set: it only adds blocks, a success is a real path, and a failure leaves everything it entered closed |
| MergePoint.ReachableLabelDistances | compiler/llvm_to_ir.py:667-686 | the breadth-first queue settles exactly the existing blocks reachable from the start, each with its shortest edge distance |
| CommonMerge.Merge | compiler/llvm_to_ir.py:630-646 | equal arms meet at once; otherwise the result is the shared block that is nearest by the larger of its shortest distances, then their sum, then the order of the blocks, and there is none exactly when no existing block is shared |
| CommonMerge.MergeIsNearest | compiler/llvm_to_ir.py:639-646 | a block is chosen if and only if both arms reach it and against every other shared block the larger of its two shortest distances is smaller, or the same with a smaller sum, or both are the same and it comes first in the order |
| CommonMerge.ChosenNoFarther | compiler/llvm_to_ir.py:639-646 | the same against one other shared block, in its distances: the larger is no larger, on a tie the sum is no larger, on a second tie the index is smaller |
| CommonMerge.NoMergeIffDisjoint | compiler/llvm_to_ir.py:630-637 | there is no merge point if and only if the arms differ and share no reachable existing block |
| CommonMerge.JoinIsChosen | compiler/llvm_to_ir.py:639-646 | if every block reachable from both arms is reached from each arm only through one block, that block is chosen |
| Structurizer.RegionLands | compiler/llvm_to_ir.py:481-533 | one lane running a region's code ends where its own branches lead if active and is untouched otherwise; mask and stack come back, and the core stops exactly when nesting exceeds the free stack entries |
| Structurizer.EmitsCode | compiler/llvm_to_ir.py:481-533 | in such a region the emitter neither meets a loop header nor stops early at a seen block, and emits the region's code |
| Structurizer.ArmLeads | compiler/llvm_to_ir.py:481-533 | from the region's entry every lane's own branches lead to its stop block, and the path the proofs follow is the one they take |
| StructuredRegions.NoLoop | compiler/llvm_to_ir.py:508-513 | a branch of an acyclic structured region is not taken for a loop header, whatever loops the rest of the function has |
| Structurizer.WalkThrough | compiler/llvm_to_ir.py:515-533 | a lane's path to a later stop goes through the merge point of each branch on the way |
| StructuredRegions.StructuredArm | compiler/llvm_to_ir.py:481-533 | a region whose blocks before the stop block meet the condition on paths has, at every branch, arms that both end at the merge point the code chooses |
| StructuredRegions.EachBlockOnce | compiler/llvm_to_ir.py:481-533 | the region's code holds each block between entry and stop exactly once and no other block |
| KernelLowering.RegionPreserved | compiler/llvm_to_ir.py:481-533 | for every acyclic structured region, in functions with loops elsewhere too, the emitted pred_begin, not and pred_end code takes every active lane of a warp where its own branches lead, leaves inactive lanes alone, restores mask and stack, and stops the core exactly when the nesting does not fit |
| KernelLowering.OwnPathsOnce | compiler/llvm_to_ir.py:481-533 | a warp has one outcome in which every active lane is where its own branches lead, so the region theorem determines every lane |
| KernelLowering.RegionEmitsOnce | compiler/llvm_to_ir.py:481-533 | the emitted code of such a region holds each of its blocks exactly once |
| KernelLowering.KernelPreserved | compiler/llvm_to_ir.py:416-460 | a structured acyclic kernel has exactly one reachable return block, and its code takes every active lane along its own path there, runs that block and ends the warp, exactly when the nesting fits |
| DiamondKernel.DiamondQualifies | compiler/llvm_to_ir.py:416-460 | a kernel with one two-armed branch meets everything the theorems about whole kernels ask of control flow and blocks |
| DiamondKernel.DiamondCode | compiler/llvm_to_ir.py:446-460 | its code, line by line: the condition's region around the true arm, the negated condition, its region around the false arm, then the join block |
| KernelReturns.OneReturn | compiler/llvm_to_ir.py:630-637 | when the arms of every branch share a block, all paths of an acyclic kernel end in the same return block |
| KernelReturns.LoweredReturnsOnce | compiler/llvm_to_ir.py:416-460 | an acyclic kernel with two reachable return blocks is never lowered: some branch has no merge point |
| KernelCompilation.CodeMirrors | hardware/rtl/core/mini_gpu_core.v:441-474 | a lane running predicated IR blocks and the same lane of the mask machine keep the same masks, memory, values and conditions for as long as the IR goes on |
| KernelOutcomes.CodePrefixable | compiler/llvm_to_ir.py:481-533 | a region's code opens mask regions only on conditions of blocks it has run before, or on negations it has computed from them, whatever follows it |
| KernelOutcomes.CodeFollows | hardware/rtl/core/mini_gpu_core.v:441-474 | the other way round: as long as a lane's blocks do not get stuck and the mask stack does not overflow, the predicated IR neither raises nor faults in that lane |
| KernelOutcomes.KernelExits | compiler/llvm_to_ir.py:416-460 | the predicated IR of an acyclic structured kernel ends for a lane if and only if its mask regions fit the mask stack and the lane's own blocks, followed along its own branches, never get stuck; it ends with the memory those blocks leave, and a lane idle from the start changes nothing |
| KernelOutcomes.KernelCompiled | compiler/llvm_to_ir.py:416-460 | structurizer and back end together: if the mask regions fit the stack, then for every lane whose own blocks, followed along its own branches, never get stuck the assembly ends and leaves, outside the spill window, the memory those blocks leave |
| KernelLowering.LowerState.EmitRegionUntil | compiler/llvm_to_ir.py:481-533 | the recursive emitter appends exactly the specified lines, or fails where lowering raises |
| KernelLowering.LowerState.EmitBlockFrom | compiler/llvm_to_ir.py:416-460 | the kernel's spine, with its visited set, appends exactly the specified lines, or fails where lowering raises |
| KernelLowering.LoopHeader | compiler/llvm_to_ir.py:436-441 | true exactly when another block ends in a plain branch to the header and some path leads from the true arm back to it without the false arm |
| Structurizer.LoopRefused | compiler/llvm_to_ir.py:436-441 | a header with such a back edge and such a path is taken for a loop wherever it is lowered |
| MaskMachine.ExecAllProjects | hardware/rtl/core/mini_gpu_core.v:441-474 | a warp running predicated code under one shared mask and stack is its lanes running it one by one |
| MaskMachine.LandsRegion | hardware/rtl/core/mini_gpu_core.v:441-474 | a region around balanced code is balanced, narrows the mask inside and needs one more stack entry |
| Encoding.DecodePack | hardware/rtl/common/instruction_decode.v:13-19 | extracting the fields of a packed word gives them back, the immediate sign-extended, and packing succeeds exactly when every field is in range |
| Encoding.PackIsSum | compiler/isa_to_bin.py:332-337 | oring the shifted fields never overlaps |
| Encoding.OpcodeReadBack | hardware/rtl/include/minigpu_isa.vh:5-60 | the hardware's opcode table reads back every opcode the assembler's table writes |
| Encoding.FormatReadBack | hardware/rtl/include/minigpu_isa.vh:63-68 | the hardware's format tags read back every format the assembler writes |
| Encoding.EncodeCarries | compiler/isa_to_bin.py:230-300 | a word the assembler produces decodes to its line's opcode, registers, immediate, signed memory offset and format, and a branch word plus its position plus one is its label |
| Assembler.Assembled | compiler/isa_to_bin.py:148-220 | for every text that assembles, with colon-free distinct kernel names, the word of each instruction decodes to that instruction, a branch leads to the instruction after its own kernel's last definition of the label, a kernel call to the kernel's start, and a kernel-local constant to its number |
| Assembler.LabelTable | compiler/isa_to_bin.py:157-172 | the label table holds exactly the defined labels, each at the index of the instruction after its last definition |
| Assembler.ScopedInjective | compiler/isa_to_bin.py:177-179 | scoped labels of colon-free kernel names never collide |
| Assembler.ParseProgram | compiler/isa_to_bin.py:148-174 | the first pass over the lines returns the specified instructions and label table and leaves the identifier counters as they were |
| Assembler.IsaToWords | compiler/isa_to_bin.py:214-217 | the two passes return the specified words, or raise; `AcceptedText.AssemblesExactly` says when |
| AcceptedText.AssemblesExactly | compiler/isa_to_bin.py:214-380 | a text is accepted if and only if every instruction has an opcode that takes its operands, registers below 16, immediates of 14 bits and memory offsets from -1024 to 1023, every jump, branch and call leads to a defined label whose last definition is within 14 bits of distance, and each family of symbols loaded so far has numbers left: 8192 parameters and 8160 shared symbols to a kernel, the others over the whole text |
| AcceptedText.EncodeExactly | compiler/isa_to_bin.py:230-300 | one instruction is encoded if and only if its opcode takes its operands, its registers, immediates and offset are in range, and its label is known and near enough |
| AcceptedText.ConstantNumberIs | compiler/isa_to_bin.py:123-142 | a symbol met for the first time gets the next number of its family and scope, an old one a smaller number |
| CompiledText.ProgramAssembles | compiler/ir_to_isa.py:310-361 | a program of lowered kernels is accepted if and only if each kernel spills to at most 2048 slots, its branches lead to defined labels near enough, and its symbols can be numbered: nothing else the back end emits is ever refused |
| CompiledText.SimpleProgramAssembles | compiler/minigpucc.py:179-181 | from IR to words without a premise on an intermediate result: branchless kernels whose statements fit the registers are lowered, and accepted exactly when no kernel spills to more than 2048 slots or loads too many symbols |
| Assembler.ConstIdNumbers | compiler/isa_to_bin.py:123-140 | numbering a symbol never renumbers another, and symbols of one kind have distinct numbers from 0, 32 or 64 on |
| Assembler.OtherConstants | compiler/isa_to_bin.py:123-140 | in an assembled text two loads of symbols that are neither parameters' nor shared ones carry the same number, 64 or more, if and only if they name the same symbol |
| Assembler.KernelMap | compiler/minigpucc.py:125-144 | the loop returns the named kernels in order with their start indices, and the instruction count |
| Assembler.KernelMapAgrees | compiler/minigpucc.py:125-144 | each kernel's published start index is the one the assembler's label table gives it |
| ConstantsAbi.LoadsEncodeIds | compiler/isa_to_bin.py:182-211 | in an assembled text holding a compiled kernel whose parameter names are distinct ignoring case, every load of the k-th parameter encodes identifier k, and every load of the spill base encodes identifier 32 if and only if the spill base is the first SHARED_ symbol the kernel loads, as it is when there is a parameter |
| ConstantsAbi.KernelNumbers | compiler/ir_to_isa.py:389-399 | compiling the parameters in order numbers them 0, 1, 2, ..., the spill base has number 32 if and only if it is the first SHARED_ symbol the kernel loads, and any parameter makes it the first |
| ConstantsAbi.FirstSharedNumber | compiler/isa_to_bin.py:201-210 | within one kernel a symbol gets number 32 if and only if it is the first SHARED_ symbol loaded |
| ConstantsAbi.SpillBaseSecond | compiler/isa_to_bin.py:207-210 | a concrete kernel without parameters that takes the address of a shared array before it spills: its spill base gets number 33, past the runtime's table of 33 entries |
| ConstantsAbi.KernelSeesArguments | runtime/src/minigpu_runtime.cpp:762-770 | a kernel of up to 32 parameters reads its k-th argument as its k-th parameter, and the spill base word address as the spill base when that is the first SHARED_ symbol it loads |
| ConstantsAbi.ArgumentsKept | runtime/src/minigpu_runtime.cpp:762-770 | every argument keeps its own table entry if and only if there are at most 32 of them or the 33rd equals the spill base |
| ConstantsAbi.BuildConstants | runtime/src/minigpu_runtime.cpp:762-770 | the loops that copy the arguments and pad to 33 entries build the specified table |
| CoreExecution.IssueIsStep | hardware/rtl/lane/execute.v:212-305 | a word that decodes to a line of straight-line assembly does to a lane what the line does: registers, memory, mask, mask stack and status |
| CoreExecution.WordsRun | hardware/rtl/core/mini_gpu_core.v:359-515 | the core fetching and decoding a kernel's words from its start index leaves a lane, after any number of the kernel's lines, where the assembly text leaves it, with every symbol read from constant memory at the number the assembler gave it |
| CoreExecution.SectionStraight | compiler/ir_to_isa.py:310-361 | the back end compiles a section without branches to such lines only |
| CoreExecution.ArgumentsReachKernel | runtime/src/minigpu_runtime.cpp:762-770 | with the runtime's table in constant memory the core reads the k-th argument as the k-th parameter |
| KernelExecution.KernelExecuted | compiler/minigpucc.py:179-181 | from control-flow graph to words: an acyclic structured kernel, structurized, lowered, assembled into any text and fetched by the core from its start index, ends the warp and leaves every lane whose own blocks never get stuck the memory that its own branches, followed block by block, leave outside the spill window |
| KernelExecution.SmallKernelAssembles | compiler/minigpucc.py:179-181 | every premise of that theorem on lowering and assembling holds for a kernel alone in its text that names at most thirteen values, reads only values assigned before, has no self-use and loads parameters into new values, when it fits instruction memory, 2048 slots and the symbol numbers |
| DeviceMemory.MallocComplete | runtime/src/minigpu_runtime.cpp:347-399 | with alignment below 2^32 and a rounding that fits, allocation fails if and only if no aligned run of that many free bytes exists, and otherwise takes the lowest one |
| DeviceMemory.PlacesLowestRun | runtime/src/minigpu_runtime.cpp:356-394 | first fit over the block list finds the lowest aligned run of free bytes exactly when there is one |
| DeviceMemory.RunInOneBlock | runtime/src/minigpu_runtime.cpp:831-842 | with no two free neighbours a run of free bytes lies in one block |
| Rounding.PaddingExact | runtime/src/minigpu_runtime.cpp:30-38 | the padding is the distance to the next multiple of the alignment even when the rounded address wraps at 2^32 |
| DeviceMemory.AdmitsExact | runtime/src/minigpu_runtime.cpp:362-366 | the placement test accepts a block exactly when an aligned run of that size lies inside it |
| Rounding.RoundingHonours | runtime/src/minigpu_runtime.cpp:19-27 | a request is rounded to at least its size, the next multiple of the alignment, exactly when the sum does not wrap at 64 bits |
| DeviceMemory.PlaceKeeps | runtime/src/minigpu_runtime.cpp:347-399 | a successful allocation keeps the range tiled and settled and inserts exactly one live block, in address order |
| DeviceMemory.ReleaseKeeps | runtime/src/minigpu_runtime.cpp:402-415 | freeing keeps the range tiled and settled and removes exactly one live block |
| DeviceMemory.MallocThenFree | runtime/src/minigpu_runtime.cpp:347-415 | freeing what was just allocated restores the block list exactly |
| BlockList.Canonical | runtime/src/minigpu_runtime.cpp:831-842 | two settled tilings of one range with the same live blocks are the same list |
| BlockList.MergeSettles | runtime/src/minigpu_runtime.cpp:831-842 | merging free neighbours leaves no two of them, keeps the range covered and the live blocks as they were |
| BlockList.Conservation | runtime/src/minigpu_runtime.cpp:797-810 | free and live bytes add up to the managed range |
| DeviceRuns.RunSafety | runtime/src/minigpu_runtime.cpp:347-415 | over every run of allocations and frees live allocations are aligned, disjoint and inside the managed range below the spill area, free plus live bytes equal its size, and an allocation holds what was asked for exactly when its rounding did not wrap |
| DeviceRuns.TilesUnlessZero | runtime/src/minigpu_runtime.cpp:347-399 | a granted request keeps the range tiled if and only if its size was not rounded to zero |
| DeviceRuns.HistoryIndependent | runtime/src/minigpu_runtime.cpp:347-415 | two runs that leave the same allocations live leave the same block list |
| DeviceRuns.AllGivenBack | runtime/src/minigpu_runtime.cpp:831-842 | after any run in which everything has been freed, in any order, the list is one free block |
| DeviceRuns.WrappedRequestOverlaps | runtime/src/minigpu_runtime.cpp:353 | asking for 2^64 - 1 bytes at alignment 4 is granted a block of no bytes, and the next allocation gets the same address |
| DeviceContext.SpillSizeIs | runtime/src/minigpu_runtime.cpp:286-291 | the spill area is the least multiple of the alignment that reaches an eighth of memory, counted as 4 at least and 8192 at most |
| DeviceContext.SpillLayout | runtime/src/minigpu_runtime.cpp:286-298 | where the spill area leaves memory over it is a whole number of alignment units of at least four bytes |
| DeviceContext.Context.Open | runtime/src/minigpu_runtime.cpp:259-298 | construction succeeds exactly when memory is not empty, program memory is a positive number of whole words, base plus size does not pass 2^32 - 1 and the spill area is smaller than memory; each error has its own condition on the configuration; the new context has one free block below the spill area |
| DeviceContext.Context.DeviceMallocAligned | runtime/src/minigpu_runtime.cpp:347-399 | the in-place first-fit loop returns and leaves exactly what the specification says, error cases included, and keeps the list tiled and settled unless the rounding wrapped to nothing |
| DeviceContext.Context.DeviceFree | runtime/src/minigpu_runtime.cpp:402-415 | frees the live block at the address and merges, or reports that there is none and changes nothing |
| DeviceContext.Context.CoalesceFreeBlocks | runtime/src/minigpu_runtime.cpp:831-842 | the in-place merging loop returns the merged list |
| DeviceContext.Context.MemoryFree | runtime/src/minigpu_runtime.cpp:802-810 | the sum of the free blocks, which with the live bytes makes the managed size |
| DeviceContext.Context.RangeIsAllocated | runtime/src/minigpu_runtime.cpp:813-828 | true exactly for an empty range or one inside a single live block, with no address overflow |
| ProgramMemory.EvictsShortestPrefix | runtime/src/minigpu_runtime.cpp:549-592 | a slot request evicts the fewest entries after which a large enough free block exists, takes that block's front, and fails only with everything evicted |
| ProgramMemory.EvictsFromFront | runtime/src/minigpu_runtime.cpp:519-546 | evictions remove entries in least-recently-used order |
| ProgramLoads.UsedInLoadOrder | runtime/src/minigpu_runtime.cpp:595-628 | in every run of loads, whatever fails, the entries' order of use is the order in which their names were last loaded, so evictions take the name whose last load lies furthest back |
| ProgramMemory.EvictNKeeps | runtime/src/minigpu_runtime.cpp:519-546 | any number of evictions keeps the cache invariant and frees exactly the evicted entries' blocks |
| ProgramMemory.SlotKeeps | runtime/src/minigpu_runtime.cpp:549-592 | a found slot is a new busy block apart from every entry that survived |
| ProgramMemory.SlotIffClear | runtime/src/minigpu_runtime.cpp:549-592 | a slot is found if and only if some range of that size keeps clear of the blocks failed uploads left behind |
| ProgramMemory.NeverFullWithoutLeaks | runtime/src/minigpu_runtime.cpp:549-592 | with every busy block owned by an entry, any size up to the memory gets a slot |
| ProgramLoads.EveryRunFaithful | runtime/src/minigpu_runtime.cpp:595-628 | in every run of loads, failures included, each entry owns a busy block of its address and size, entries are disjoint, and instruction memory at an entry holds the bytes uploaded when it was created |
| ProgramLoads.AgreesWithReupload | runtime/src/minigpu_runtime.cpp:595-628 | a successful load makes its entry the most recently used and leaves the given program at the returned address if and only if the name was not cached or was cached with the same bytes |
| ProgramLoads.NoFailureNeverFull | runtime/src/minigpu_runtime.cpp:595-628 | while nothing has failed busy blocks and entries are in bijection and every load of a word multiple that fits gets a slot |
| ProgramLoads.FailedUploadLeaks | runtime/src/minigpu_runtime.cpp:614-619 | after one failed load of the whole memory no later load succeeds |
| ProgramLoads.StaleAfterReregistration | runtime/src/minigpu_runtime.cpp:683-693 | re-registering a cached name with other bytes leaves the first program on the device |
| ProgramCache.ProgramContext.CoalesceProgramBlocks | runtime/src/minigpu_runtime.cpp:504-516 | the in-place merging loop returns the merged list |
| ProgramCache.ProgramContext.EvictLruProgram | runtime/src/minigpu_runtime.cpp:519-546 | evicts the least recently used entry and frees its block, or reports an empty cache |
| ProgramCache.ProgramContext.AllocateProgramSlot | runtime/src/minigpu_runtime.cpp:549-592 | the search-and-evict loop terminates and leaves exactly the specified slot and cache, error cases included |
| ProgramCache.ProgramContext.WriteProgram | runtime/src/transports/gpu_comm_transport.cpp:416-427 | an upload completes exactly when every chunk is accepted, the slot then holds the program and otherwise some bytes the transfer left there, and nothing outside the slot changes |
| ProgramCache.ProgramContext.EnsureProgramLoaded | runtime/src/minigpu_runtime.cpp:595-628 | the whole new cache, result and device memory of a load over any link: a program is uploaded on a miss, the upload completes exactly when every chunk is accepted within three attempts, data memory is untouched, and at every cached entry the device holds the bytes uploaded when the entry was created |
| Packets.RoundTrip | gpu_comm/src/com.c:51-76 | parsing a built packet of up to 255 payload bytes gives back command, address, length and payload |
| Packets.OneByteDetected | gpu_comm/src/com.c:293-313 | a packet with exactly one changed byte outside the two length bytes is rejected |
| Packets.BareByteDetected | gpu_comm/src/com.c:293-313 | a packet without payload, such as an acknowledgement, with any one changed byte, length bytes included, is rejected |
| Packets.OneByteAccepted | gpu_comm/src/com.c:293-313 | exactly which single changed bytes go unnoticed: a length byte that got smaller, when the byte at the new end is the checksum of what comes before it |
| Packets.LengthByteMissed | gpu_comm/src/com.c:298-302 | a packet whose length byte is changed from 1 to 0 is accepted as an empty one |
| Packets.CrcChanges | gpu_comm/src/com.c:38-44 | changing one byte changes the checksum |
| Packets.CrcXor | gpu_comm/src/com.c:38-44 | the loop returns the exclusive or of the range |
| Packets.BuildPacketFields | gpu_comm/src/com.c:51-76 | the buffer is filled with the packet and its length returned, or a payload that is too long is refused |
| Packets.ParsePacket | gpu_comm/src/com.c:293-313 | the checks in order return the message or the first error |
| HostLink.AckIffAccepted | gpu_comm/src/com.c:385-410 | the host takes a write for done exactly when the device carried it out and its acknowledgement came back undamaged |
| HostLink.AttemptEffect | gpu_comm/src/com.c:366-412 | whatever happens to a write attempt only the addressed bytes can change, and an accepted one leaves the payload there |
| HostLink.Link.SendWithRetries | gpu_comm/src/com.c:366-414 | succeeds exactly when one of three attempts is accepted, with the payload then in place and nothing else changed; otherwise the third attempt's error is returned |
| HostLink.ThreeAttempts | gpu_comm/src/com.c:364-414 | attempts stop after the first accepted one, or after three |
| Transfers.ComWriteData | gpu_comm/src/com.c:315-425 | success means exactly the data padded with zeros to whole words was stored, and happens exactly when each chunk of 252 bytes is accepted at one of three attempts, the next chunk going on where it stopped; the bad-argument error comes exactly when the data does not fit below 2^16, or when only its padding does not and every chunk but the last has been accepted, and then those chunks and nothing else have been stored; otherwise only bytes of the padded range can differ |
| Transfers.AcceptedExactly | gpu_comm/src/com.c:315-425 | all chunks of a transfer are accepted if and only if there are clock readings, one per chunk and one at the end, at most three attempts apart, such that between two of them only the last attempt is accepted |
| Transfers.LastByteRefused | gpu_comm/src/com.c:341-347 | writing the one byte at the last address, which is in range, is refused before anything is sent |
| ChunkedCommands.WriteChunkedCommand | runtime/src/transports/gpu_comm_transport.cpp:183-236 | the same for program uploads; the range error comes exactly for an address past 16 bits, or when the data goes on past the last address and every chunk before that has been accepted |
| ChunkedCommands.ReadChunkedCommand | runtime/src/transports/gpu_comm_transport.cpp:247-305 | memory is unchanged, a read succeeds exactly when each chunk is answered at one of three attempts after attempts that were not heard, and then returns exactly the addressed bytes; otherwise the status comes from the first chunk that fails |
| ChunkedCommands.ReadsExactly | runtime/src/transports/gpu_comm_transport.cpp:247-305 | a read succeeds if and only if there are clock readings, at most three attempts apart, between which only the last attempt is heard and it answers the chunk's request |
| ChunkedCommands.RefusalHeard | runtime/src/transports/gpu_comm_transport.cpp:308-371 | a refusal is heard exactly when it comes back undamaged, and ends the read instead of being tried again |
| ChunkedCommands.HeardIffAnswered | runtime/src/transports/gpu_comm_transport.cpp:290-301 | a reply is taken for the answer to a read if and only if the device carried the request out and its reply came back undamaged |
| ChunkedCommands.ReadPacket | runtime/src/transports/gpu_comm_transport.cpp:308-371 | at most three attempts: the result is what the last one made heard, those before it were not heard, and it is an error only after the third |
| ChunkedCommands.DamagedReply | runtime/src/transports/gpu_comm_transport.cpp:333-366 | a reply with at most one changed byte that parses is the one sent, or announces another length |
| ChunkedCommands.HeardExact | runtime/src/transports/gpu_comm_transport.cpp:290-301 | a reply that passes the command, address and length tests carries the addressed bytes |
| ChunkedCommands.WriteThenRead | runtime/src/transports/gpu_comm_transport.cpp:397-413 | a successful write followed by a successful read returns the data |
| CopyIsolation.CopyToDevice | runtime/src/minigpu_runtime.cpp:418-438 | a copy accepted by the range check whose zero padding holds no byte of another live allocation, of the spill area or outside the managed range changes no such byte, whatever the link does; it succeeds exactly when every chunk is accepted, and then the padded data is in place |
| CopyIsolation.PaddingClears | gpu_comm/src/com.c:341-351 | and only then: over a faultless link the copy succeeds and clears every byte of its padding, whosever it is |
| CopyIsolation.WordsArePaddingFree | gpu_comm/src/com.c:341-351 | a word-aligned copy into live blocks of whole words has no foreign byte in its padding |
| CopyIsolation.RunsGiveWordBlocks | runtime/src/minigpu_runtime.cpp:347-415 | after any run whose alignments are multiples of four, live blocks start and end on word boundaries |
| CopyIsolation.ByteAlignmentOverlaps | gpu_comm/src/com.c:341-351 | with alignment 1 two one-byte allocations share a word and writing the first clears the second |
| View.ContiguousStrides | torch_ext/src/ops/tensor.cpp:225-236 | the loop gives each dimension the number of elements behind it |
| View.UnravelOfOffset | torch_ext/src/ops/tensor.cpp:225-236 | with contiguous strides a multi-index in range has an offset below the element count and is determined by it |
| View.OffsetOfUnravel | torch_ext/src/ops/tensor.cpp:225-236 | every offset below the element count belongs to a multi-index in range |
| View.InferViewSize | torch_ext/src/ops/tensor.cpp:239-272 | accepts exactly the requests with at most one -1 that have a unique size of the same element count, and returns that size, if and only if the 64-bit product does not mislead it: it is zero for an empty tensor without being so, or has left the range and happens to fit the element count |
| View.PassesUnlessMisjudged | torch_ext/src/ops/tensor.cpp:258-269 | the division or comparison with the 64-bit product decides rightly if and only if the product does not mislead it |
| View.EmptyAsHuge | torch_ext/src/ops/tensor.cpp:258-269 | a tensor without elements is accepted as one of 2^32 by 2^32 elements |
| View.ViewAs | torch_ext/src/ops/tensor.cpp:478-486 | refuses a tensor that is not contiguous and sizes that make no sense, and otherwise shares the storage under contiguous strides, with the same exact exception |
| View.ViewRenames | torch_ext/src/ops/tensor.cpp:478-486 | each multi-index of a view names the same storage element as exactly one multi-index of the original, and the other way round |

## Left out

* `CALL` and helper functions (`spill_all`, `call`, `call_arg`, `call_return`, helper spill bases): the
  register partition holds there only under extra conditions on the arguments.
* Loop lowering (`emit_loop_tail`): the emitter model reports a loop header and stops. A region inside a loop
  body is outside the region theorems, as its arms reach each other around the loop, and the code can take its
  branches for loop headers.
- KernelLowering.LowerState.EmitRegionUntil: ends in failure at a loop header; `label` lines carry no instruction
  and are not part of the emitted code.
- KernelLowering.LowerState.EmitBlockFrom: ends in failure at a loop header; `label` lines carry no instruction
  and are not part of the emitted code.
- BackEnd.LowerMatches: covers statements without a branch; of `GotoZero` and `GotoNonzero` the model says what
  they test (`BackEnd.BranchReads`) but not where the lane goes on, because lanes run straight-line code.
- SectionLowering.SectionLowers: one direction; a section it does not cover can still be lowered, because values that
  may keep registers from around a predicate are counted even where they were spilled before it.
- QuietSections.FewValuesQuiet: one direction; sections with more values can be quiet too.
- BackEnd.MovedHomeBreaks: is about allocator states with no code emitted, so it does not show that its idle lane
  is reached from the start of a section; `BackEndLimits.DroppedLaneGetsWrongValue` reaches one.
- KernelOutcomes.KernelExits: assumes that a block computes its own branch condition, that comparing with zero for
  equality gives one or zero, and that the mask stack starts empty.
- KernelOutcomes.KernelCompiled: the same, and one lane at a time: lanes of a warp do not see each other's stores.
- KernelExecution.KernelExecuted: the same; barriers do not wait for other warps, and instruction memory is the
  assembled program.
- CoreExecution.WordsRun: one lane, without `BRA`, `BZ`, `BNZ`, `CALL` and `RET`, and without the opcodes the back end
  never emits (`SUBI`, `MULI`, `ANDI`, `XORI`, `SHRI`, `LID`, `WID`).
* Shared-memory stores and loads use the same data memory as global ones; bank conflicts and timing are not
  modelled.
* Arithmetic other than 32-bit integer addition, and the immediate forms the literals need, is a parameter
  of the machine: the same result in IR and in assembly, possibly a fault.
* Text: regular expressions, splitting, literal spelling, comments, numeric branch targets, LLVM and Clang
  parsing, YAML.
- View.InferViewSize: takes signed 64-bit overflow as wrap-around, which the C++ standard leaves undefined.
- View.ContiguousStrides: strides are not reduced to 64 bits; that makes a difference only for tensors without
  elements and for sizes the product has misjudged.
- DeviceContext.Context.DeviceMallocAligned: asks that a non-zero alignment not be a multiple of 2^32, because
  the code divides by its low 32 bits.
- ProgramLoads.EveryRunFaithful: assumes instruction memory smaller than 2^32 bytes and a recency clock that never
  wraps.
- ProgramCache.ProgramContext.EnsureProgramLoaded: instruction memory managed by the context lies within the
  16-bit addresses of the transport; whether validation passes is a parameter; bytes go out in host order, which is
  taken to be little-endian.
- HostLink.Link.Exchange: does not model stale or duplicated replies, partial serial reads or timeouts as time;
  a packet for bytes outside the device's memory is ignored.
- ChunkedCommands.WriteChunkedCommand: when the padded range passes 2^16 a success says nothing about the bytes
  stored, because what the device does with a packet that runs past its memory is not known.
- View.ViewAs: whether a tensor is contiguous is reported by the tensor library, which is not part of this model.
- CopyIsolation.CopyToDevice: null arguments and missing transport callbacks are not modelled.
* `launch_kernel` beyond the program cache and the constants table: grid dimensions, waiting, the generated kernel
  identifier map and direct `write_program` calls.
* The RTL communication controller, SHA-256 kernel verification, UART and operating-system calls, logging,
  threads and environment variables.
* `com_read_data`: its 255-byte chunks do not keep word alignment, and the runtime reads through
  `read_chunked_command`.
* `math.cpp`, operator registration, autograd and Python bindings.
