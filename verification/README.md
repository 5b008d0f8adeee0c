# Verified core of ARET

ARET lifts x86 binaries to an IR and checks the lift against a CPU emulator. This
project models, in Dafny, the parts of the repository that decide whether such a
check can be trusted, and the memory store the project keeps its results in:

- the differential oracle's IR interpreter (`src/cpudiff.rs`): word arithmetic,
  byte regions with 32-bit address wrap, string instructions, the closure
  interpreter with its shared budget, depth cap and call/return stack discipline,
  the SSA interpreter, and the static gate that decides what is run;
- FLIRT-lite signatures (`src/flirt.rs`): masking, printing, parsing, matching;
- the memory store (`aret-memory/core/repository.py`): the tables, every
  transaction on them, and all runs from an empty store;
- the section planner (`aret-memory/migration/import_references_70_80_81.py`);
- the resume barrier (`aret-memory/hooks/resume_guard.py`).

Code that updates state in place is a class (`Interpreter.Interp`,
`StoreObject.MemoryStore`, `Barrier.Guard`) or a method with loops. Each such method is
proved to compute a specification function, and what the source promises is proved
about that function for all inputs and all runs. `None`, "skip" and a raised error are
explicit outcomes (`Res`, `Out`, `Option`, `Reply`).

| module | contents |
|---|---|
| `Basics`, `PythonText` | shared types; `str.strip` |
| `WordLaws`, `EvalLaws`, `ControlFlow` | what the operators, evaluation and control flow mean, as laws between operations and on whole runs |
| `Ir`, `Word`, `Memory`, `Machine` | IR, 64-bit words, regions, expressions and statements |
| `StringOps`, `RepMovs`, `RepStos` | byte loops of the string instructions and memory intrinsics, against the instructions |
| `Closure`, `Bounds`, `ReturnIndependence`, `Gate` | closure runs and what holds of all of them |
| `DriverDiff` | the driver's memory comparison: when it hides return addresses, and when not |
| `Ssa` | the interpreter over SSA form, φs in particular |
| `Interpreter` | the object that does all of the above in place |
| `Flirt`, `FlirtDb`, `FlirtScan` | signatures, the signature database, and what a signature keeps by literal opcodes |
| `Planner`, `PlannerLaws` | section planning; headings and bodies |
| `Barrier`, `BarrierLaws` | the resume barrier; its texts and records |
| `Ids`, `Store`, `StoreRuns` | the store's transactions and what every run keeps |
| `StoreHealth`, `RelationChains`, `Retirement` | three claims about the store that fail, and exactly when |
| `StoreLaws` | what each accepted transaction visibly does |
| `StoreObject` | the store as an object |

## How to read the closure results

`Closure.RunClosure` carries a meter: the remaining budget and a trace of the blocks run,
the functions entered and the indirect calls made. The trace influences nothing. The
context carries `ra`, the return address pushed by the k-th push (the source always pushes
one sentinel), and `monitor`: a monitored run stops with `Leak` when it reads a byte last
written by such a push. `Interpreter.Interp` is proved against the unmonitored semantics
with the source's sentinel.

## Where code and comments differ

- `check_expr_calls` is documented as refusing indirect calls (src/cpudiff.rs:2307-2310) and
  `eval_or_call` as skipping them (src/cpudiff.rs:518-521); the code of both lets them pass
  and follows the computed target. The model does what the code does, and
  `Gate.GateIsSound` therefore speaks of runs without an indirect call.
- `match_at` is documented as preferring the most matched leading bytes
  (src/flirt.rs:142-143); the code compares the number of kept bytes, and so does the model.
- `supersede_relation` is documented as replacing a relation without modifying it
  (aret-memory/core/repository.py:1596); the code writes its status and `superseded_by`.
- `health_report` promises "no orphan relation" on a sound store
  (aret-memory/core/repository.py:855-861), but does not know the proof table;
  `StoreHealth.DoctorOnRuns` says exactly what its check decides.

## Model

| member | source | states |
|---|---|---|
| `Word.UnsignedDivision` | src/cpudiff.rs:860-892 | `__ix_udiv32` and `__ix_umod32` are defined on exactly the same inputs, a non-zero divisor whose quotient fits 32 bits, and there n = q*d + r with 0 <= r < d |
| `Word.SignedDivision` | src/cpudiff.rs:860-892 | `__ix_idiv32` and `__ix_imod32` are defined on exactly the same inputs, and through the two's-complement encodings n = q*d + r with the remainder smaller than the divisor and zero or of the dividend's sign |
| `Word.TruncDivRem` | src/cpudiff.rs:779-835 | truncating quotient and remainder recombine to the dividend, the remainder is below the divisor in magnitude and never of the opposite sign |
| `Word.SextMeaning` | src/cpudiff.rs:1243-1254 | sign extension keeps the low w bits and lands in the signed w-bit range, for every width |
| `WordLaws.AddCarry` | src/cpudiff.rs:782 | addition with carry: the exact sum is the result plus 2^64 exactly when the result is below an operand |
| `WordLaws.SubUndoesAdd` | src/cpudiff.rs:782-783 | subtraction gives the one word that added back yields the minuend |
| `WordLaws.MulCounts` | src/cpudiff.rs:784 | multiplication adds one more summand for each step of the multiplier |
| `WordLaws.UnsignedQuotient` | src/cpudiff.rs:785-796 | quotient and remainder are defined exactly for a non-zero divisor and recombine |
| `WordLaws.SignedMeaning` | src/cpudiff.rs:789-800 | the signed reading is the one number of the signed range that wraps to the word |
| `WordLaws.SignedQuotient` | src/cpudiff.rs:789-800 | signed quotient and remainder truncate, are defined exactly for a non-zero divisor, and only the smallest number by -1 wraps |
| `WordLaws.UnsignedOrder` | src/cpudiff.rs:810-815 | every comparison is 0 or 1; trichotomy; all six follow from less and equal; less is the sign of the exact difference |
| `WordLaws.SignedOrder` | src/cpudiff.rs:816-819 | the same for the signed comparisons, on the signed readings |
| `WordLaws.BitwiseBits` | src/cpudiff.rs:801-803 | And, Or and Xor act on each of the 64 bits by itself |
| `WordLaws.ShlBits` | src/cpudiff.rs:804 | shifting left moves bit i - b to i, brings in zeros, and is 0 from 64 on |
| `WordLaws.ShrBits` | src/cpudiff.rs:805 | shifting right moves bit i + b to i and brings in zeros |
| `WordLaws.SarFloors` | src/cpudiff.rs:806-809 | the arithmetic shift is floor division of the signed reading, by 2^63 from 64 on |
| `EvalLaws.SelectArms` | src/cpudiff.rs:369-371 | a select is the arm its condition chooses, and only that arm is evaluated |
| `EvalLaws.CastBits` | src/cpudiff.rs:360-368 | a cast keeps the bits below its width and clears the others |
| `EvalLaws.UnaryMeanings` | src/cpudiff.rs:323-331 | negation is subtraction from zero, complement from all ones, and negation is complement plus one |
| `EvalLaws.SidesKept` | src/cpudiff.rs:355-359 | operands keep their sides: subtracting and adding back, unsigned and signed less |
| `EvalLaws.MaskedDivision` | src/cpudiff.rs:341-354 | division of operands masked to 8, 16 or 32 bits divides their signed readings at that width, defined exactly for a non-zero divisor there |
| `EvalLaws.MaskedShift` | src/cpudiff.rs:332-340 | the arithmetic shift of a masked operand floors its signed reading |
| `EvalLaws.ReadAfterSet` | src/cpudiff.rs:399-421 | a location holds what was last written to it, a flag its lowest bit, and every other location is as before |
| `EvalLaws.WritableLocations` | src/cpudiff.rs:309-413 | the locations that can be written are those that can be read: general registers, xmm lanes, flags, temporaries |
| `EvalLaws.UnsetReads` | src/cpudiff.rs:300-318 | flags and temporaries never written read as 0, a constant is itself modulo 2^64 |
| `EvalLaws.LoadAfterStore` | src/cpudiff.rs:319-322 | a load of the address and type of a store gives the stored value truncated to the type, registers and slots untouched |
| `EvalLaws.TypeBytes` | src/cpudiff.rs:131-137 | a boolean takes one byte, an integer its bits rounded up to bytes |
| `EvalLaws.DivisionArguments` | src/cpudiff.rs:860-879 | the unsigned helpers divide their first argument by the low half of their second, defined exactly when the quotient fits 32 bits |
| `EvalLaws.SignedDivisionArguments` | src/cpudiff.rs:880-892 | the signed helpers likewise, quotient and remainder each under its own name |
| `EvalLaws.ParityCounts` | src/cpudiff.rs:893-894 | the parity helper is 1 exactly when the low byte has an even number of set bits |
| `EvalLaws.StubValue` | src/cpudiff.rs:377-384 | a stubbed import evaluates to 0 |
| `Memory.LeRoundTrip` | src/cpudiff.rs:182-209 | the little-endian bytes of v read back as v modulo 256^n |
| `Memory.ReadAfterWrite` | src/cpudiff.rs:164-209 | a read right after a successful write of the same width gives the written value, truncated to that width, for overlapping mappings too |
| `Memory.WriteFrame` | src/cpudiff.rs:164-209 | a write leaves every read of an address range that does not meet the written one as it was, success and failure included |
| `Memory.LocateInjective` | src/cpudiff.rs:155-175 | two accessible addresses denote the same byte exactly when they are equal after the address wrap |
| `StringOps.CopyClosedForm` | src/cpudiff.rs:223-238 | the forward byte copy succeeds exactly when every source byte is readable and every destination byte writable; then destination byte j is old source byte j modulo the period (the distance when the copy runs into its own output, else its length) and nothing else changes |
| `StringOps.PhaseIsMod` | src/cpudiff.rs:223-238 | the period's phase used in the closed form is the remainder j mod d |
| `StringOps.PatchedUnique` | src/cpudiff.rs:223-238 | the closed form determines the resulting memory completely |
| `StringOps.ForwardIsBuffered` | src/cpudiff.rs:223-238 | byte loop and read-all-then-write agree, on success and on skip, whenever (dst - src) mod 2^32 is 0 or at least n |
| `StringOps.IntrinsicIsForwardCopy` | src/cpudiff.rs:630-662 | under the cap and without a refused overlap, a host-backed memmove or memcpy is the forward loop followed by its push and eax, success and skip alike, under the same distance condition |
| `StringOps.FillClosedForm` | src/cpudiff.rs:267-292 | `rep stos` succeeds exactly when the range is writable, and then stores its bytes there and nothing else |
| `RepMovs.RepMovsIsElementCopy` | src/cpudiff.rs:241-266 | for every count under the cap the byte loop of `__rep_movsW` is the instruction's element-by-element copy, success and skip alike, when (dst - src) mod 2^32 is 0 or at least W |
| `RepMovs.RepMovsDiffers` | src/cpudiff.rs:241-266 | when the destination is 1 to W-1 bytes above the source, the two differ on any memory whose source bytes 0 and dst-src differ |
| `RepMovs.ElementCopySucceeds` | src/cpudiff.rs:241-266 | the element copy succeeds exactly when every source byte is readable and every destination byte writable |
| `RepMovs.RepMovsExact` | src/cpudiff.rs:241-266 | for every mapping and every count under the cap, `__rep_movsW` is the element copy on all memory contents if and only if nothing is copied, the range is not accessible (both skip), or the distance is 0 or at least W |
| `RepStos.StosStoresElements` | src/cpudiff.rs:267-292 | as the instruction: under the cap it succeeds exactly on a writable range, and then each element reads as the value truncated to W bytes, least significant byte first, wherever it lies in one region |
| `RepStos.ApartIsOneRegion` | src/cpudiff.rs:155-159 | on regions that do not meet, every mapped element lies in one region |
| `RepStos.MemcpyMoves` | src/cpudiff.rs:223-238 | memcpy and memmove move from their second argument to their first, with the closed form of the copy |
| `RepStos.MemcallRefusals` | src/cpudiff.rs:219-295 | only the low 32 bits of a length count; more than a mebibyte or a set direction is refused; nothing to do is no change |
| `RepStos.OverlapRefused` | src/cpudiff.rs:641-647 | below 2^64 the overlap test holds exactly when source and destination share a byte |
| `RepStos.IntrinsicRefusals` | src/cpudiff.rs:630-647 | more than a mebibyte is refused, an overlap for memcpy only, and otherwise memcpy is memmove |
| `Bounds.WorkIsPaid` | src/cpudiff.rs:444-619 | every closure run terminates, executes at most `budget` blocks over the whole mutual recursion, exactly the spent budget when it returns, and never enters a function deeper than CLOSURE_DEPTH |
| `Bounds.BudgetClosure` | src/cpudiff.rs:444-619 | a run that does not exhaust its budget gives the same outcome, value and state with any larger budget and leaves exactly the surplus |
| `Bounds.DepthClosure` | src/cpudiff.rs:444-619 | success at recursion depth d is the same success at every smaller depth |
| `Bounds.SsaWorkIsPaid` | src/cpudiff.rs:690-754 | a run over SSA form terminates and executes at most `budget` blocks, exactly the spent budget when it returns |
| `Bounds.BudgetSsa` | src/cpudiff.rs:690-754 | an SSA run that does not exhaust its budget gives the same outcome and state with any larger budget and leaves exactly the surplus |
| `ControlFlow.BranchLeads` | src/cpudiff.rs:464-467 | a run from a block ending in a branch goes on as the run from the first target when the condition is non-zero there, and from the second otherwise |
| `ControlFlow.TwoWay` | src/cpudiff.rs:451-490 | whole runs: an entry block branching to two constant returns gives the first if and only if the condition is non-zero and the second if and only if it is zero |
| `ControlFlow.JumpLeads` | src/cpudiff.rs:468 | a block ending in a jump continues at its target |
| `ControlFlow.ReturnGives` | src/cpudiff.rs:489 | a block ending in a plain return gives the expression's value in the state before it |
| `ControlFlow.EntryBlock` | src/cpudiff.rs:451-457 | a run starts at the block with the entry address, without one at the first block |
| `ControlFlow.SetWrites` | src/cpudiff.rs:496-508 | a set writes its value, a set of an undefined value writes nothing |
| `ControlFlow.CallDiscipline` | src/cpudiff.rs:592-619 | a finished call: the callee starts 4 bytes lower with the return address at its esp, its value is the call's, and esp ends at the caller's plus the callee's `ret N` |
| `ControlFlow.CallStops` | src/cpudiff.rs:599-617 | when a direct call finishes, as an if and only if |
| `ControlFlow.CallValue` | src/cpudiff.rs:491-508 | a call statement drops the value, a set writes it |
| `ControlFlow.TailCallLeads` | src/cpudiff.rs:469-488 | a direct tail call at the top is the run of its target with nothing pushed; nested or indirect it stops the run |
| `ControlFlow.IndirectIsDirect` | src/cpudiff.rs:573-576 | an indirect call is the direct call of the computed address |
| `ControlFlow.StubReturns` | src/cpudiff.rs:544-560 | a stubbed import clears eax and edx, records its slot and changes nothing else |
| `ControlFlow.MemcallActs` | src/cpudiff.rs:532-538 | a modelled memory call acts on its arguments' values in order and gives 0 |
| `ControlFlow.SsaBranchLeads` | src/cpudiff.rs:730-733 | the branch law over SSA form, the successor seeing this block as its predecessor |
| `ControlFlow.SsaJumpLeads` | src/cpudiff.rs:734 | the jump law over SSA form |
| `ControlFlow.SsaReturnGives` | src/cpudiff.rs:735 | the return law over SSA form |
| `ControlFlow.AssignBinds` | src/cpudiff.rs:721-724 | an assigned value is what later uses read, and no other value changes |
| `ControlFlow.PhiTakesEdge` | src/cpudiff.rs:706-712 | a φ takes the argument at the position of the block arrived from |
| `ReturnIndependence.ReturnAddressIndependence` | src/cpudiff.rs:444-662 | two runs differing only in the return addresses they push, when no read covers a byte last written by a push, skip alike or agree on value, registers, flags, temporaries, slots and budget, and every byte they differ on lies in a recorded return slot |
| `ReturnIndependence.MonitorIsInert` | src/cpudiff.rs:444-662 | a run that reads no pushed byte is the same run with the monitor off, memory included |
| `ReturnIndependence.DifferencesExactly` | src/cpudiff.rs:444-662 | when the two runs push addresses that differ in every byte, the bytes they end up disagreeing on are exactly those last written by a push |
| `DriverDiff.CompareMemory` | src/cpudiff.rs:2862-2900 | the driver's two loops report the first differing image byte and the first differing compared stack byte, and nothing exactly when no compared byte differs |
| `DriverDiff.BlindExactly` | src/cpudiff.rs:2862-2900 | for a run that reads no pushed byte, no choice of return addresses is ever reported if and only if no byte last written by a push is one the driver compares |
| `DriverDiff.SlotByteExact` | src/cpudiff.rs:2874-2878 | a byte of a recorded slot is excluded by that slot if and only if it is a stack byte and the slot is a 32-bit address |
| `DriverDiff.RecordedIsRetSlot` | src/cpudiff.rs:2862-2900 | where every slot lies in the stack, the bytes of recorded slots are exactly the stack bytes the test excludes, and none is in the image |
| `DriverDiff.DriverSkipsDifferences` | src/cpudiff.rs:2862-2900 | for every run that reads no pushed byte and whose slots all lie in the stack, no byte is reported, for any return addresses and any floor |
| `DriverDiff.PushExcludedExactly` | src/cpudiff.rs:611-615 | on the driver's image-and-stack mapping, the bytes of a successful push are hidden by the slot it records if and only if esp is in the stack, from its base plus 4 to its top |
| `DriverDiff.CallerReportedExactly` | src/cpudiff.rs:2795-2900 | the same on whole runs: on every memory the driver builds and for every esp at which the push succeeds, two return addresses leave different bytes, and the driver reports them if and only if esp was not in the stack |
| `DriverDiff.WrappedSlotEscapes` | src/cpudiff.rs:2874-2900 | failing input on any driver memory: esp one turn above the stack stores into it and records a slot the test never meets |
| `DriverDiff.ImageSlotEscapes` | src/cpudiff.rs:2862-2871 | failing input on any driver memory: esp in the image, where every byte is compared without a slot test |
| `ReturnIndependence.ClosureTwin` | src/cpudiff.rs:444-516 | the simulation behind these results: from related states, at any depth and budget, a monitored run leaks, or its twin skips alike or returns the same in a related state |
| `Gate.FnLocalTargets` | src/cpudiff.rs:2364-2404 | the block walk collects exactly the followable direct-call targets of a function, in order, or refuses |
| `Gate.IsClosureModelable` | src/cpudiff.rs:2412-2446 | the worklist terminates and, for an entry that is not host-backed, accepts if and only if every function reachable through local targets is recovered and locally modelable; a host-backed entry is accepted unexamined |
| `Gate.GateIsSound` | src/cpudiff.rs:2311-2446 | a run of an accepted entry without indirect calls enters functions of the closure only, and never stops at a switch, an asm, a missing function or a missing `ret N` |
| `Gate.GateIsSoundStatically` | src/cpudiff.rs:2311-2446 | when no function of the closure has an indirect call statement, every run of the accepted entry makes no indirect call, stays in the closure and never stops for those reasons |
| `Gate.IndirectCallEscapes` | src/cpudiff.rs:2336-2340 | the premise is needed: an accepted entry whose indirect call leads to a switch stops there |
| `Gate.GateClosure` | src/cpudiff.rs:444-516 | the same for every function of the closure, at any depth and budget |
| `Gate.ExprTargetsFollowable` | src/cpudiff.rs:2311-2356 | every collected target is a recovered function with a known `ret N` that is not host-backed |
| `Gate.ExprExact` | src/cpudiff.rs:2311-2356 | an expression passes if and only if every call in it can be followed, and its targets are exactly the direct ones that are not host-backed |
| `Gate.LocalTargetsExact` | src/cpudiff.rs:2364-2404 | a function passes if and only if it has blocks and every statement in them passes, and its targets are those its statements lead to |
| `Gate.HelpersKnown` | src/cpudiff.rs:2267-2285 | the gate's helper names are the ones evaluation knows |
| `Ssa.SequentialIsSourced` | src/cpudiff.rs:706-712 | running φs one after another is, on every store, the simultaneous assignment of the arguments traced back through earlier φs |
| `Ssa.PhisAreSimultaneous` | src/cpudiff.rs:690-712 | on an edge where no φ reads an earlier φ's target, sequential and simultaneous φs agree on every value store |
| `Ssa.PhisExact` | src/cpudiff.rs:706-712 | with distinct targets the two agree on every store if and only if every φ that reads an earlier φ's target reads one that copied it to itself |
| `Ssa.SwapIsNotSimultaneous` | src/cpudiff.rs:706-712 | the swap of two values is an edge on which they differ |
| `Ssa.PhisRun` | src/cpudiff.rs:690-712 | the φs that open a block run as the sequential assignment of their edge, or skip exactly where an argument is missing |
| `Ssa.BlockPhis` | src/cpudiff.rs:690-712 | without overwrites they run as one simultaneous assignment |
| `Interpreter.Assemble` | src/cpudiff.rs:181-185 | the shift-and-or loop computes the little-endian value |
| `Interpreter.Patch` | src/cpudiff.rs:196-198 | the store loop replaces exactly the addressed bytes by the little-endian bytes of the value |
| `Interpreter.Interp.constructor` | src/cpudiff.rs:140-152 | the initial state |
| `Interpreter.Interp.RegionIndex` | src/cpudiff.rs:155-159 | the first region that holds the whole range, or none |
| `Interpreter.Interp.Read` | src/cpudiff.rs:164-186 | reads regions with 32-bit wrap, or the scratch page without, as `Memory.MemRead` does |
| `Interpreter.Interp.Write` | src/cpudiff.rs:188-209 | writes in place exactly what `Memory.MemWrite` gives, and changes nothing on refusal |
| `Interpreter.Interp.ForwardCopy` | src/cpudiff.rs:232-236 | the byte loop in place is the copy whose closed form is proved |
| `Interpreter.Interp.Fill` | src/cpudiff.rs:286-290 | the fill loop in place is the fill whose closed form is proved |
| `Interpreter.Interp.DoMemcall` | src/cpudiff.rs:219-295 | all modelled memory calls, their caps and refusals included |
| `Interpreter.Interp.CallMemIntrinsic` | src/cpudiff.rs:630-662 | argument reads, cap, refusal of overlapping memcpy, buffered copy, eax and the recorded slot |
| `Interpreter.Interp.SetLocation` | src/cpudiff.rs:399-413 | writes exactly one location, or refuses |
| `Interpreter.Interp.Execute` | src/cpudiff.rs:416-433 | one statement outside control flow |
| `Interpreter.Interp.RunClosure` | src/cpudiff.rs:444-516 | the block loop in place gives the answer, final state, remaining budget and trace of the closure semantics |
| `Interpreter.Interp.RunStatement` | src/cpudiff.rs:461-512 | one statement of a block: control flow, tail calls, calls, dropped clobbers |
| `Interpreter.Interp.EvalOrCall` | src/cpudiff.rs:522-586 | direct, memory, stubbed and indirect calls, and plain evaluation |
| `Interpreter.Interp.CallDirect` | src/cpudiff.rs:592-619 | depth cap, callee and `ret N` lookups, sentinel push, recursion and the popped esp |
| `Interpreter.Interp.RunSsa` | src/cpudiff.rs:690-754 | the SSA loop in place gives the answer, state, budget and trace of the SSA semantics |
| `Flirt.BranchMask` | src/flirt.rs:35-57 | the scan that clears displacement bytes computes the instruction-by-instruction mask |
| `Flirt.LinkInvariance` | src/flirt.rs:35-57 | codes that agree wherever the first one's mask keeps a byte have identical masks |
| `Flirt.SignatureLinkInvariance` | src/flirt.rs:67-99 | such codes print the same signature line, or are both refused |
| `FlirtScan.MaskDropsDisplacements` | src/flirt.rs:35-57 | a byte is dropped if and only if it is in the displacement of a call (E8), a jump (E9) or a long conditional jump (0F 80 to 8F) that the scan stops at |
| `FlirtScan.StopLaw` | src/flirt.rs:35-57 | at each stop of the scan: which bytes are kept and which four are dropped, by literal opcodes |
| `FlirtScan.RelinkSameLine` | src/flirt.rs:67-99 | codes that differ only in such displacements print the same line, or are both refused |
| `FlirtScan.KeptByteShows` | src/flirt.rs:84-90 | a byte is printed if and only if it is no displacement and not relocated |
| `FlirtScan.RefusedExactly` | src/flirt.rs:67-83 | exactly short codes and thunks are refused, and only the first 32 bytes count |
| `FlirtScan.PrintedText` | src/flirt.rs:91-99 | the line is the name, a space, and per byte two lower-case hexadecimal digits or two dots |
| `Flirt.GenSignature` | src/flirt.rs:67-99 | name and pattern with link-variant and relocated bytes wildcarded, and the refusal of exactly the short and the thunk-like codes |
| `FlirtDb.HexRoundTrip` | src/flirt.rs:88-135 | printed bytes parse back to the kept bytes and the mask, with no white space in between |
| `FlirtDb.PrintParse` | src/flirt.rs:67-139 | a generated line reads back as exactly one signature, with the original kept bytes and mask, if and only if the name is non-empty, free of white space and does not start with # |
| `FlirtDb.Parse` | src/flirt.rs:104-139 | the loop over lines collects the signatures of the well-formed lines in order |
| `FlirtDb.ReadLine` | src/flirt.rs:106-137 | one line: comment, blank and malformed lines give nothing |
| `FlirtDb.ReadPairs` | src/flirt.rs:118-132 | the pair loop computes bytes and mask, or refuses the line |
| `FlirtDb.CountKept` | src/flirt.rs:164 | counts the kept positions |
| `FlirtDb.MatchAt` | src/flirt.rs:148-181 | returns a name exactly when some signature matches and all matching signatures with the most kept bytes carry that name |
| `FlirtDb.AnswerUnique` | src/flirt.rs:148-181 | the answer depends on the set of signatures only, not on database order |
| `FlirtDb.LessSpecificAddition` | src/flirt.rs:148-181 | adding a less specific signature never changes an answer already given |
| `FlirtScan.SpecificWins` | src/flirt.rs:148-181 | of two matching signatures the one with more kept bytes names the answer |
| `FlirtScan.KeptCounts` | src/flirt.rs:164 | each kept byte counts once |
| `FlirtScan.IgnoredLines` | src/flirt.rs:106-112 | blank lines, comments and lines without a pattern give no signature |
| `FlirtScan.DigitsRead` | src/flirt.rs:118-132 | hexadecimal digits are read in both cases |
| `FlirtDb.GeneratedLineMatches` | src/flirt.rs:67-181 | a database of one generated line names exactly the codes that are long enough and agree on every kept byte |
| `Planner.FindHeadings` | aret-memory/migration/import_references_70_80_81.py:76-108 | finds exactly the level 2 and 3 headings, in line order |
| `Planner.HeadingsUnique` | aret-memory/migration/import_references_70_80_81.py:76-108 | that list is determined by the document |
| `Planner.SectionEnd` | aret-memory/migration/import_references_70_80_81.py:76-108 | a section's raw end by heading levels |
| `Planner.SectionsConsecutive` | aret-memory/migration/import_references_70_80_81.py:76-108 | kept sections are consecutive, pairwise disjoint line ranges inside the document |
| `Planner.RawSections` | aret-memory/migration/import_references_70_80_81.py:76-108 | the kept sections, or an error exactly for a document without headings |
| `Planner.Clip` | aret-memory/migration/import_references_70_80_81.py:120-127 | clipping and sorting keep the covered lines of the section |
| `Planner.Gaps` | aret-memory/migration/import_references_70_80_81.py:120-137 | the cursor sweep yields exactly the maximal uncovered runs, in order and apart |
| `Planner.Fragment` | aret-memory/migration/import_references_70_80_81.py:120-147 | fragments are trimmed maximal gaps in order, each with a substantive line, and hold every uncovered substantive line of the section |
| `Planner.PlanDocument` | aret-memory/migration/import_references_70_80_81.py:149-157 | fragments are pairwise disjoint, avoid every sourced range and with those ranges cover every substantive line of every kept section |
| `Planner.ReplanIsEmpty` | aret-memory/migration/verify_references_70_80_81.py:68-75 | any plan made after importing a plan's ranges is empty |
| `Planner.PlanTwice` | aret-memory/migration/verify_references_70_80_81.py:21-26 | planning, importing and planning again: the second plan is empty and every substantive line is covered |
| `Planner.ParseForStore` | aret-memory/migration/import_references_70_80_81.py:149-157 | one plan per document, or an error exactly when some document has no headings |
| `PlannerLaws.MakesHeading` | aret-memory/migration/import_references_70_80_81.py:25 | two or three marks, a space, a title and any white space make a heading of that level and title |
| `PlannerLaws.OnlyHeadings` | aret-memory/migration/import_references_70_80_81.py:25 | nothing else does |
| `PlannerLaws.BareHeadingDropped` | aret-memory/migration/import_references_70_80_81.py:93-97 | a heading line alone is no section |
| `PlannerLaws.BodyKept` | aret-memory/migration/import_references_70_80_81.py:93-97 | a section with a further line that is not blank is kept |
| `Barrier.ValidateRecap` | aret-memory/hooks/resume_guard.py:133-150 | accepts exactly the recaps whose six sections are long enough after normalisation, and returns them clipped |
| `Barrier.Guard.Arm` | aret-memory/hooks/resume_guard.py:97-123 | writes the session's record and no other, or refuses a malformed hash |
| `Barrier.Guard.Acknowledge` | aret-memory/hooks/resume_guard.py:172-192 | records a recap exactly for a successful acknowledgement of that session with the armed hash |
| `Barrier.Guard.Decide` | aret-memory/hooks/resume_guard.py:205-235 | the decision on a tool request |
| `Barrier.KeyIsIdentity` | aret-memory/hooks/resume_guard.py:53-64 | two identified sessions share a state file exactly when they have the same identity, the truncated digest taken to be injective |
| `Barrier.FileIsHistory` | aret-memory/hooks/resume_guard.py:97-192 | over every event sequence a session's file is the record of its latest arming, acknowledged exactly if a matching acknowledgement came after it |
| `Barrier.BarrierProtocol` | aret-memory/hooks/resume_guard.py:205-235 | over every interleaving, a request is denied if and only if its session's latest arming was hard and, for an identified session, the request is not the acknowledgement and none with that arming's hash has succeeded since; with the kill switch on nothing is denied |
| `Barrier.AfterHardArming` | aret-memory/hooks/resume_guard.py:97-235 | whatever came before, after a hard arming and until the session is armed again, a request is denied if and only if the session is unidentified, or the request is not the acknowledgement and none with that arming's hash has succeeded |
| `Barrier.AfterSoftArming` | aret-memory/hooks/resume_guard.py:97-235 | after a soft arming no request of the session is denied until it is armed again |
| `Barrier.SessionsAreIsolated` | aret-memory/hooks/resume_guard.py:53-235 | a decision is the same with all other sessions' events removed |
| `BarrierLaws.SixSections` | aret-memory/hooks/resume_guard.py:25-36 | the six sections and their minimum lengths |
| `BarrierLaws.SectionText` | aret-memory/hooks/resume_guard.py:133-150 | a section counts without surrounding white space, one that is no text as empty |
| `BarrierLaws.RecapStored` | aret-memory/hooks/resume_guard.py:172-192 | an acknowledgement leaves exactly the six sections in the record, cut at 4000 characters, and keeps hash and mode |
| `BarrierLaws.IdentityScopes` | aret-memory/hooks/resume_guard.py:53-60 | session id before transcript before directory; identities of different kinds never meet |
| `BarrierLaws.TextFailure` | aret-memory/hooks/resume_guard.py:157-170 | a textual answer fails exactly when, blanks and case aside, it says that ok is false |
| `BarrierLaws.ObjectFailure` | aret-memory/hooks/resume_guard.py:157-170 | a structured answer fails by either error flag or by ok being false |
| `BarrierLaws.AcknowledgementName` | aret-memory/hooks/resume_guard.py:153-155 | the acknowledgement tool under any server's prefix |
| `Ids.FormatInjective` | aret-memory/core/repository.py:334-342 | formatted ids determine prefix and number, for prefixes with hyphens and digits and numbers past 9999 |
| `Ids.FormatText` | aret-memory/core/repository.py:334-342 | the prefix, a hyphen and the number in at least four digits, padded up to four only |
| `StoreRuns.NextIdIsNew` | aret-memory/core/repository.py:334-342 | a counter's next id is new to any table whose ids were issued by that entity's counters |
| `StoreRuns.StepKeeps` | aret-memory/core/repository.py:1135-1725 | every transaction, refused or not, keeps the store's invariant; no row is removed, counters only rise, and of existing rows only a knowledge's status, a proof's admissibility (to false), a brick's state and a live relation's replacement can change |
| `StoreRuns.EveryRun` | aret-memory/core/repository.py:1135-1725 | in every run from the empty store: each PROVEN item has a linked PASS admissible proof, links and relation endpoints exist, triples are unique, a relation is SUPERSEDED exactly when it names another existing relation, versions drop by one along `supersedes_id`, the Front's brick exists and is ACTIVE, all ids were issued by their counters |
| `StoreRuns.RunKeeps` | aret-memory/core/repository.py:1135-1725 | the same over any run from any sound store |
| `StoreRuns.NeverReissued` | aret-memory/core/repository.py:334-342 | over any two consecutive runs no table loses an id and the next id of each table is none of its ids |
| `StoreRuns.InsertKeeps` | aret-memory/core/repository.py:1576-1591 | an inserted or reused relation holds the triple, and no other relation changes |
| `StoreRuns.SupersedeRelationKeeps` | aret-memory/core/repository.py:1593-1623 | the replaced relation names its replacement, which is another relation |
| `StoreRuns.RecordProofKeeps` | aret-memory/core/repository.py:1327-1381 | a recorded proof gets a new id; the proof table gains exactly that row and no other table but counters and audit changes |
| `StoreRuns.AttachKeeps` | aret-memory/core/repository.py:1383-1415 | attaching, with or without promotion, keeps the invariant |
| `StoreRuns.InvalidateKeeps` | aret-memory/core/repository.py:1417-1454 | invalidation withdraws the proof and, over the whole table, demotes to OBSERVED exactly the PROVEN items left without an admissible PASS |
| `StoreRuns.AppendKeeps` | aret-memory/core/repository.py:1469-1574 | appending yields a new id, and the invariant survives supersession and PROVEN entry |
| `StoreRuns.BrickOpsKeep` | aret-memory/core/repository.py:1206-1286 | registry, brick and Front transactions keep the invariant, the Front's ACTIVE brick included |
| `StoreRuns.ChainsAcyclic` | aret-memory/core/repository.py:1511-1541 | along a knowledge supersession chain the version drops by one per step, so no item repeats |
| `StoreRuns.PreparedIsFresh` | aret-memory/core/repository.py:818-851 | a handoff is fresh right after it was prepared |
| `StoreRuns.FreshExactly` | aret-memory/core/repository.py:970-975 | after any run in which every call is refused or neither writes nor drops the stored hash, a handoff is fresh if and only if the hashed Front keys and values (absent differs from empty) are those at preparation |
| `StoreLaws.UpdateWrites` | aret-memory/core/repository.py:1673-1698 | an accepted update writes the last value given for each key and leaves every other key as it is, present or absent |
| `StoreLaws.ReplaceWrites` | aret-memory/core/repository.py:1700-1725 | an accepted replacement keeps those values and no other key |
| `StoreLaws.FrontGuard` | aret-memory/core/repository.py:1662-1698 | when the Front may be written, as an if and only if |
| `StoreLaws.UpdateMakesStale` | aret-memory/core/repository.py:970-975 | an accepted update that changes a hashed key makes a prepared handoff stale |
| `StoreLaws.HashedKeys` | aret-memory/core/repository.py:430-440 | the keys a handoff goes stale by |
| `StoreLaws.HandoffWrites` | aret-memory/core/repository.py:784-850 | a handoff writes its four fields, the next and the last action |
| `StoreLaws.CheckpointWrites` | aret-memory/core/repository.py:791-817 | and its checkpoint, or its absence with emptied fields |
| `StoreLaws.HandoffKeeps` | aret-memory/core/repository.py:826-840 | address slots are given, emptied where one was set, or left absent; keys a handoff does not own stay |
| `StoreLaws.HandoffGuard` | aret-memory/core/repository.py:770-826 | when a handoff is accepted, as an if and only if |
| `StoreLaws.KeyForm` | aret-memory/core/repository.py:1679-1682 | the form of a Front key |
| `StoreLaws.IdentifierForm` | aret-memory/core/repository.py:291-295 | the form of an identifier |
| `StoreLaws.RegisterComponentWrites` | aret-memory/core/repository.py:1135-1155 | accepted exactly for a new, well-formed id, which is all it adds |
| `StoreLaws.RegisterFunctionWrites` | aret-memory/core/repository.py:1157-1186 | accepted exactly for a new id of a registered component |
| `StoreLaws.RegisterBrickWrites` | aret-memory/core/repository.py:1206-1245 | accepted exactly for a new, well-formed id and a registered owner; the row as given |
| `StoreLaws.UpdateBrickExactly` | aret-memory/core/repository.py:1247-1286 | exactly when it is refused, and the one row it changes |
| `StoreLaws.RelateExactly` | aret-memory/core/repository.py:1629-1640 | accepted exactly for two different existing entities; the triple is there under the answered id, every other relation unchanged |
| `StoreLaws.SupersedeTouches` | aret-memory/core/repository.py:1593-1623 | superseding changes no relation but the superseded one |
| `StoreLaws.AppendedRow` | aret-memory/core/repository.py:1511-1570 | the row an append adds, field by field, with inherited component, version, status, id prefix, and exactly the links to its proofs |
| `StoreLaws.AppendGuard` | aret-memory/core/repository.py:1486-1525 | when an append is accepted, as an if and only if |
| `StoreLaws.EveryRunRows` | aret-memory/core/repository.py:1135-1725 | in every run each row has a title and a content, names registered entities only, carries an id issued under its component, is never OBSOLETE, and SUPERSEDED only if a later version supersedes it |
| `StoreLaws.ProvenMeans` | aret-memory/core/repository.py:1383-1454 | in every run a PROVEN item has a linked proof whose result is PASS and whose receipt holds |
| `StoreHealth.RunRelates` | aret-memory/core/repository.py:1383-1399 | in every run each proof link has its VERIFIED_BY relation |
| `StoreHealth.DoctorOnRuns` | aret-memory/core/repository.py:854-902 | on every reachable store the PROVEN and brick checks pass, and the orphan check passes if and only if no relation ends in an id that names only a proof |
| `StoreHealth.LinkingAlarmsDoctor` | aret-memory/core/repository.py:880-893 | one linked proof whose id names nothing else fails the orphan check of a sound store |
| `StoreHealth.TwoStepsAlarmDoctor` | aret-memory/core/repository.py:880-893 | the alarm at an input: from the empty store, recording one PASS and appending any draft with it gives a sound store that fails the check |
| `RelationChains.SupersedeAcyclicExactly` | aret-memory/core/repository.py:1576-1611 | superseding a relation keeps replacement chains acyclic if and only if the relation already holding the new triple does not lead to the superseded one |
| `RelationChains.NewTripleIsSafe` | aret-memory/core/repository.py:1580-1611 | a triple not yet in the table never closes a cycle |
| `RelationChains.SwapMakesCycle` | aret-memory/core/repository.py:1580-1611 | any two live relations can be superseded by each other's triple, which makes a cycle |
| `RelationChains.RunAcyclicExactly` | aret-memory/core/repository.py:1576-1640 | over every run from a sound store with acyclic chains, they are acyclic at the end if and only if no call of the run was an allowed supersession whose new triple is held by a relation leading to the superseded one |
| `RelationChains.EveryRunAcyclicExactly` | aret-memory/core/repository.py:1576-1640 | the same for every run from the empty store |
| `RelationChains.CycleStays` | aret-memory/core/repository.py:1604-1611 | a cycle, once made, is there for ever |
| `Retirement.RetiredStayUnproven` | aret-memory/core/repository.py:1403-1408 | items that a later version supersedes stay unproven through a call if and only if it is not a promotion, by an existing admissible PASS, of an existing item that is superseded |
| `Retirement.RunRetiredExactly` | aret-memory/core/repository.py:1403-1408 | over every run from the empty store they are unproven at every point if and only if no call of the run is such a promotion |
| `Retirement.SupersededThenProven` | aret-memory/core/repository.py:1403-1408 | the failing input, from any sound store: superseding an item and then promoting it by an admissible PASS leaves it superseded and PROVEN |
| `Retirement.PromotionIgnoresStatus` | aret-memory/core/repository.py:1403-1408 | a promotion succeeds exactly for an admissible PASS and makes the item PROVEN whatever its status was |
| `Retirement.AppendedRows` | aret-memory/core/repository.py:1526-1566 | an append adds one row, marks one row SUPERSEDED and changes no other |
| `StoreObject.MemoryStore.constructor` | aret-memory/core/repository.py:125-150 | the empty store |
| `StoreObject.MemoryStore.NewId` | aret-memory/core/repository.py:334-342 | hands out the counter's id and advances that counter only |
| `StoreObject.MemoryStore.InsertRelation` | aret-memory/core/repository.py:1576-1591 | reuses the one row of an existing triple, else inserts and audits |
| `StoreObject.MemoryStore.AddRelation` | aret-memory/core/repository.py:1629-1640 | the transaction in place, or no change |
| `StoreObject.MemoryStore.SupersedeRelation` | aret-memory/core/repository.py:1593-1623 | the transaction in place, or no change |
| `StoreObject.MemoryStore.RecordProof` | aret-memory/core/repository.py:1327-1381 | the transaction in place, or no change |
| `StoreObject.MemoryStore.AttachProof` | aret-memory/core/repository.py:1383-1415 | the link is written before the promotion is judged, and a refused promotion rolls it back |
| `StoreObject.MemoryStore.InvalidateProof` | aret-memory/core/repository.py:1417-1454 | the loop over linked items returns exactly the PROVEN items left unjustified and performs the transaction |
| `StoreObject.MemoryStore.Accepts` | aret-memory/core/repository.py:1486-1525 | the checks of an append accept exactly the acceptable drafts |
| `StoreObject.MemoryStore.AppendKnowledge` | aret-memory/core/repository.py:1469-1574 | row, links, supersession and promotion in order give the transaction |
| `StoreObject.MemoryStore.RegisterComponent` | aret-memory/core/repository.py:1135-1155 | the transaction in place, or no change |
| `StoreObject.MemoryStore.RegisterFunction` | aret-memory/core/repository.py:1157-1186 | the transaction in place, or no change |
| `StoreObject.MemoryStore.RegisterBrick` | aret-memory/core/repository.py:1206-1245 | the transaction in place, or no change |
| `StoreObject.MemoryStore.UpdateBrick` | aret-memory/core/repository.py:1247-1286 | refuses to take the Front's brick out of ACTIVE |
| `StoreObject.MemoryStore.WriteFront` | aret-memory/core/repository.py:1662-1725 | merge or replacement of the Front, refused exactly for invalid updates or a brick that is missing or not ACTIVE |
| `StoreObject.MemoryStore.PrepareHandoff` | aret-memory/core/repository.py:752-851 | the handoff's values, slots and hash written in one transaction |

## Left out

- Unicorn, random states, instruction corpora, and the test drivers beyond their memory comparison: foreign calls and finite tests.
- The lifter, SSA construction and the optimiser: other components; nothing is claimed about the IR they emit. `compute_ret_pops` supplies the map of `ret N` counts, which is a parameter.
- Floating-point and packed helpers (`__fp_*`, `__ps_*`, `__pi_*`, `cvtt_*`): an uninterpreted function of name and arguments.
- Names of calls: already recognised into a datatype; string comparison is not modelled.
- Panics: a load or store wider than 8 bytes, or a helper called with too few arguments, is a skip.
- `seed_entry_values`, and the counters FUNCDIFF_CALLS and FUNCDIFF_MEMCALLS.
- Interpreter.Interp.RunClosure: on a skip only the answer, budget and trace are stated, because the driver discards the state; the other methods that combine several writes likewise say nothing of the state after a failure.
- Interpreter.Interp.Evaluate: proved to be the evaluation function on the object's state; expression evaluation is recursive and pure in the source, so there is no loop to refine.
- DriverDiff.CompareMemory: registers are compared too by the driver, and the emulator's memory is any memory of the same shape; the emulator itself is not modelled.
- DriverDiff.DriverSkipsDifferences: asks all recorded slots to lie in the stack, import stubs' included; the exact condition, on bytes, is `DriverDiff.BlindExactly`.
- Gate.GateIsSound: runs that execute an indirect call are outside the claim, since their targets are computed and the gate does not see them.
- Ssa.PhisExact: for distinct φ targets, which SSA form has; without them only `Ssa.SequentialIsSourced` and `Ssa.PhisAreSimultaneous` are claimed.
- FLIRT: reading bundled databases, and the panic of slicing a hexadecimal field that is not ASCII.
- Planner: output order across documents, title suffixes of fragments, classification, content hashes and the import itself; Git and the store supply lines and sourced ranges, which are parameters.
- Planner.Fragment: sourced ranges have start <= end, as the store's schema demands.
- Barrier: JSON files, their atomic replacement and time stamps; prompts and stop feedback. File names hold the first 24 hexadecimal digits of a SHA-256 digest of the identity; that truncated digest is taken to be injective.
- Store: SQL text, WAL, FTS, bundles, artifacts, playbooks, assets and pipeline runs; audit events have ids but no payload; tags and document sources are dropped.
- Store: text normalisation (strip, case, byte limits), titles and descriptions of registry rows, milestones and priorities. Identifiers and Front keys arrive normalised.
- Store: a receipt check's outcome is one input bit; SHA-256 is a function taken to be injective with non-empty results where freshness needs it (`StoreRuns.Injective`).
- StoreObject.MemoryStore.AppendKnowledge: proofs are linked in the given order, not sorted; duplicates link once, as in the source. The order decides which relation id each link gets and nothing else.
- StoreObject.MemoryStore.PrepareHandoff: parsing of addresses, the wording of `last_action` and of a last validation, and the two observation cut-offs are inputs; the parsed proof and verdict of a validation are checked.
- PlannerLaws.BodyKept: a document's lines end in a line break, the last one aside, and a title holds none, as splitting a text into lines gives them.
- RepStos.StosStoresElements: an element that is split over two regions has no single read; its bytes are still those of `StringOps.FillClosedForm`.
- StoreHealth.DoctorOnRuns: the FTS, playbook and freshness checks of the report are not part of it.
