# NEMU: what its arithmetic, debugger, memory, interrupts and game keep

This project models the hard parts of NEMU, an i386 emulator with a small kernel and a typing game
that run on it, and proves what holds of them for every input, every run and every interleaving. Code
that updates state in place is modelled by classes, arrays and loops, each tied by its contract to a
function or predicate whose properties are then proved.

| files | part of the system |
|---|---|
| `Binary32`, `Normalize`, `Fpu`, `FpuDivide`, `FpuTheorems` | software binary32 arithmetic, against correct rounding in the reals |
| `StaticPool`, `TypingGame` | the pool allocator and doubly linked list, and the typing game on top of it |
| `Breakpoints`, `BreakpointRuns`, `Execution`, `Sessions` | the breakpoint manager, runs of its operations, the execution loop that hits breakpoints, and whole debugging sessions |
| `Alu`, `AluTheorems` | ALU results and flags, condition macros, chains of limbs, shifts |
| `Pic` | interrupt controller and CPU, as interleaved steps of any number of threads |
| `Memory`, `MemoryTheorems` | page walk, linear reads and writes, page crossings |
| `PageTables`, `UserPages` | the kernel's page tables, the user directory, the video mapping |
| `Expr`, `ExprTheorems`, `ExprGrouping`, `ExprMarking` | the monitor's expression evaluator, how it groups any expression, and how it reads the text |
| `Common` | words, bytes and other small concepts several parts share |

Where the code falls short of what its names, comments or tests promise, the code is modelled as it is and
the exact condition under which the promise holds is proved:

* Floating point (`nemu/src/cpu/test/fpu_test.c:157` expects exact products). A value in
  [2^-126 - 2^-150, 2^-126) comes out as 0 (`RoundedCorrectIff`). A product whose exponent comes out as 0 with
  a significand below 2^27 is doubled, and these are the only wrong products (`MulCorrectIff`). Division drops
  its remainder; the tests allow a result one below the right one, which is true exactly for exact quotients
  outside the gap (`DivWithinOne`). It is right exactly if, besides, the division leaves no remainder or the
  integer quotient without its trailing zeros is not one of the odd numbers `QuotientTies` names
  (`DivCorrectIff`, `QuotientTiesIff`). Addition and subtraction are right for all finite operands.
  `GapReached`, `DoublingReached` and `TieReached` give inputs with the wrong and the right result.
* Breakpoints: with two at the same address deleting all of them leaves the patch byte behind
  (`DeleteAllRestoresIff`, and for any machine at all `DeleteAllExact`); masking does not. A breakpoint hit by the
  last instruction asked for, or together with a watchpoint, is reported as READY, and is then not re-armed; nor
  is one after a run of no instructions. `ConsistentIff` says exactly when that happens; single-stepping onto a
  breakpoint does it (`StepOntoBreakpoint`), and later runs pass over the lost one (`LostIsPassed`). Over a whole
  session of commands and runs nothing else goes wrong (`SessionIff`). A breakpoint inside an instruction changes
  what is executed (`InstructionSeenIff`, `InsideBreakpoint`); without one the debugged program runs as the
  unpatched one (`RunIsTransparent`).
* Interrupts: the assertion in `do_intr` can fail exactly if some device raises irq 223 (`NeverFailsIff`),
  raises are lost exactly if devices use two different irqs (`LosslessIff`), and the largest irq is the pending
  one only among those after the last from 223 on, whose vectors wrap around (`PendingIsLargest`).
* Memory: a write across a page boundary shifts its upper part by the wrong amount (`nemu/src/memory/memory.c:81`),
  which is harmless exactly if the bytes coincide (`CrossingReadBack`), and for all data only when four bytes
  split evenly (`FaithfulAlways`). It happens under the kernel's own map (`KernelCrossing`), where two bytes of
  0x100 do not come back (`KernelCrossingFails`).
* Expressions: the scan for the operator takes the first one even inside parentheses, so `(1+2)/3` is rejected
  and `(8/2)*3` divides by zero; equal operators group to the right, so `8-4-2` is 6, and `*` binds tighter than `/`, so `8/2*3` is 1; `-` and `*` after a closing
  parenthesis are taken for unary ones, so `(1)-2*3` is -3 and `(2)*3` is the word at address 3; and `-*x` is `*x`.
  For every expression `ExprEvaluates` says what comes out: with those operators put in as they are marked
  (`MarkedIsRemarked`), the value of its grouping, or a failure exactly where that grouping cannot be read.
  `MeantIff` is the exact condition under which that grouping is the intended one, a NEG between operands counting
  as the difference it computes; `GroupsToTheRight`, `MinusAfterParenthesis`, `StarAfterParenthesis` and
  `SignsAreMoot` are the families above, each with an input in `ExprMarking`.

Reals and integers are exact. 32-bit wrap-around is written out wherever the code can wrap, except for `eip` in
`Execution`.

## Model

| member | source | states |
|---|---|---|
| Normalize.JammedSides | nemu/src/cpu/fpu.c:18-29 | Jamming shifted-out bits into the lowest one never moves a value across a rounding boundary. |
| Normalize.ShiftedSides | nemu/src/cpu/fpu.c:58-72 | A left shift of a jammed significand loses nothing that rounding looks at. |
| Normalize.RoundedInInterval | nemu/src/cpu/fpu.c:82-94 | Rounding on the three extra bits puts the value between the two midpoints that bound the chosen result, ties going to even. |
| Normalize.OverflowRounds | nemu/src/cpu/fpu.c:31-37 | What is cut off as overflow is what rounds to infinity. |
| Normalize.UnderflowRounds | nemu/src/cpu/fpu.c:47-53 | What is cut off as underflow rounds to zero. |
| Normalize.InternalNormalize | nemu/src/cpu/fpu.c:9-112 | Terminates for every significand and exponent and encodes the nearest magnitude, ties to even, saturating to infinity, except that values in the gap below 2^-126 become 0. |
| FpuTheorems.RoundedCorrectIff | nemu/src/cpu/fpu.c:95-110 | That routine rounds correctly if and only if the value is outside [2^-126 - 2^-150, 2^-126). |
| FpuTheorems.Landmarks | nemu/src/cpu/fpu.c:129-130 | The format by its landmarks: the patterns of 1.0, -2.0, 1.5, the least subnormal, the least normal number and infinity. |
| Fpu.SumAvoidsGap | nemu/src/cpu/fpu.c:129-218 | No sum or difference of two finite numbers falls into that gap. |
| Fpu.InternalFloatAdd | nemu/src/cpu/fpu.c:114-218 | The exact sum rounded to nearest-even, subnormals, signed zeros and overflow included; infinities and NaNs follow section 6 of IEEE 754-2019 exactly when an infinity does not meet an unlisted NaN, and which NaN comes out is stated. |
| FpuTheorems.SumCommutes | nemu/src/cpu/fpu.c:129-218 | The rounded sum, signed zeros included, does not depend on the order of the operands. |
| FpuTheorems.ZeroSumIff | nemu/src/cpu/fpu.c:162-218 | A sum with a nonzero operand is +0 exactly for opposites, and never -0; nothing else is flushed to zero. |
| Fpu.DifferenceIsSum | nemu/src/cpu/fpu.c:245-248 | Subtracting is adding the negated operand, signs of zero included. |
| Fpu.InternalFloatSub | nemu/src/cpu/fpu.c:220-249 | The exact difference rounded to nearest-even; which NaN comes out is stated. |
| Fpu.ProductForm | nemu/src/cpu/fpu.c:289-306 | The exact product of the magnitudes is the 48-bit significand product at the sum of the scales. |
| Fpu.InternalFloatMul | nemu/src/cpu/fpu.c:251-308 | The magnitude of the product as the normaliser reads it, with the sign of the real product, that of a zero product by the signs of the operands; special operands, the sign of an infinite result included, by section 6 of IEEE 754-2019 exactly when their NaNs are canonical. |
| Fpu.ProductIsSigned | nemu/src/cpu/fpu.c:278-308 | The sign the code computes by exclusive or, apart from the magnitude, is that of the real product, and for a zero product minus exactly if the signs differ. |
| FpuTheorems.MulCorrectIff | nemu/src/cpu/fpu.c:263-308 | A finite product is correctly rounded if and only if it is outside the gap and is not read at twice its scale. |
| FpuTheorems.NormalProductNotDoubled | nemu/src/cpu/fpu.c:73-77 | Two normal operands never meet the doubling. |
| FpuTheorems.GapReached | nemu/src/cpu/fpu.c:95-110 | 0x3F7FFFFF times 0x00800000 comes out as 0. |
| FpuTheorems.DoublingReached | nemu/src/cpu/fpu.c:73-77 | 2^19 times the least subnormal is 2^-130 and comes out as 2^-129. |
| FpuDivide.ScaleOperands | nemu/src/cpu/fpu.c:370-380 | Both scaling loops terminate and compute the raised dividend, the stripped divisor and the shifts made. |
| FpuDivide.RaisedScaled | nemu/src/cpu/fpu.c:371-375 | Raising the dividend keeps its value. |
| FpuDivide.StrippedScaled | nemu/src/cpu/fpu.c:376-380 | Stripping the divisor keeps its value. |
| FpuDivide.TruncationError | nemu/src/cpu/fpu.c:382 | The integer quotient is below the exact one by less than one of its units, and equal exactly if the division leaves no remainder. |
| FpuDivide.InternalFloatDiv | nemu/src/cpu/fpu.c:310-390 | The truncated quotient, normalised, with the sign of the real quotient; division by zero, zeros, infinities, their signs, and canonical NaNs by sections 6 and 7.3 of IEEE 754-2019. |
| FpuDivide.QuotientIsSigned | nemu/src/cpu/fpu.c:359 | The sign the code computes is that of the real quotient. |
| FpuTheorems.NoMidInside | nemu/src/cpu/fpu.c:382 | No rounding boundary falls strictly inside one unit of the integer quotient. |
| FpuTheorems.QuotientTiesIff | nemu/src/cpu/fpu.c:382-390 | Those are exactly the quotients that lie on a midpoint below the largest finite number whose tie is broken downwards: with trailing zeros stripped, 1 modulo 4 and short enough. |
| FpuTheorems.GapOfTruncated | nemu/src/cpu/fpu.c:382 | Truncation carries no quotient into the gap and none out of it. |
| FpuTheorems.DivCorrectIff | nemu/src/cpu/fpu.c:359-390 | The quotient is correctly rounded if and only if the exact one is outside the gap and it is not the case that a remainder is dropped and the integer quotient is one of `QuotientTies`. |
| FpuTheorems.DivWithinOne | nemu/src/cpu/test/fpu_test.c:112 | The result is the correctly rounded one or the one just below it, if and only if the exact quotient is outside the gap. |
| FpuTheorems.DivErrorBound | nemu/src/cpu/fpu.c:359-390 | For an exact quotient outside the gap and a result below infinity the error is less than 1/2 + 2^-16 units in the last place. |
| FpuTheorems.TieReached | nemu/src/cpu/fpu.c:382 | 1.0 / 0x3FFFFFFF is such a tie: the result is 0x3F000000, the correctly rounded one 0x3F000001. |
| StaticPool.LinkList.New | game/include/adt/linklist.h:48-66 | Hands out the first free node while two are left, so never the one that ends the list; lays the list out on first use. |
| StaticPool.LinkList.Free | game/include/adt/linklist.h:96-100 | Puts a node in front of the free list and changes no other. |
| StaticPool.LinkList.Insert | game/include/adt/linklist.h:77-86 | Writes exactly the links of the node and its two neighbours. |
| StaticPool.LinkList.Remove | game/include/adt/linklist.h:87-95 | Writes exactly the links of the two neighbours. |
| StaticPool.InsertedLinks | game/include/adt/linklist.h:77-86 | Insertion at any place of a doubly linked list gives the doubly linked list with the node spliced in. |
| StaticPool.RemovedUnlinks | game/include/adt/linklist.h:87-95 | Removal of any node of a doubly linked list gives the doubly linked list without it. |
| StaticPool.RemovedFrame | game/include/adt/linklist.h:87-95 | Removal leaves the nodes outside the list alone. |
| StaticPool.InsertThenRemove | game/include/adt/linklist.h:77-95 | Removing what was just inserted restores every other node. |
| StaticPool.CoversPop | game/include/adt/linklist.h:61-63 | Allocation keeps live and free nodes a partition of the pool. |
| StaticPool.CoversPush | game/include/adt/linklist.h:96-100 | So does freeing. |
| TypingGame.TickConserves | game/src/typing/effect.c:53-73 | In one tick every letter is kept, hit or missed. |
| TypingGame.TimetableStep | game/src/typing/effect.c:57-71 | Every letter stays on the course its birth tick and its hit give it: half a line down a tick, or three lines up. |
| TypingGame.AtMostFourteen | game/src/typing/effect.c:45-72 | So no more than fourteen letters are ever alive together. |
| TypingGame.PickedIsStruck | game/src/typing/effect.c:78-91 | Each round of the drain loop picks the letter its key would strike in the list as it was before any round. |
| TypingGame.DrainComplete | game/src/typing/game.c:56-57 | When no round finds a letter, every pressed key with a falling letter has struck exactly one and is released, and no falling letter has its key pressed. |
| TypingGame.Game.CreateNewLetter | game/src/typing/effect.c:32-50 | A new head letter at the top, its key released; the allocation cannot fail. |
| TypingGame.Game.UpdateLetterPos | game/src/typing/effect.c:53-73 | Moves all letters, with removal during the walk, counts hits and misses, and keeps list, pool and timetable sound. |
| TypingGame.Game.UpdateKeypress | game/src/typing/effect.c:76-102 | Reverses the bottom-most falling letter whose key is pressed and releases the key, or reports that there is none with interrupts enabled. |
| TypingGame.Game.DrainKeys | game/src/typing/game.c:56-57 | The drain loop terminates, with interrupts enabled and the result DrainComplete describes. |
| TypingGame.Game.TickStep | game/src/typing/game.c:65-73 | One tick of game time keeps the whole invariant, and is `Ticked`: a birth at multiples of 33 ticks, then a move of all letters. |
| TypingGame.Game.Round | game/src/typing/game.c:42-92 | One wake-up catches up with the timer exactly: the keys pressed are drained, then come the ticks, with the keys pressed between them. |
| TypingGame.MainLoop | game/src/typing/game.c:36-100 | Over any sequence of wake-ups and key presses letters, keys and counters are those of `PlayAfter`; letters created are floor((now + 32) / 33) however ticks are batched, and equal hits plus misses plus letters alive; at most 14 are alive; the pool is never laid out twice and its last node never in play. |
| TypingGame.StruckTurns | game/src/typing/effect.c:78-99 | A wake-up turns the lowest falling letter of every pressed key: a tick later it is three lines up, or hit. |
| TypingGame.OthersGoOn | game/src/typing/effect.c:53-73 | Every other letter goes on at its speed, or is counted at the edge it passes. |
| TypingGame.KeysWait | game/src/typing/effect.c:49-102 | A key that goes down stays down until it strikes a letter or one with its text is born. |
| TypingGame.CountedByEdge | game/src/typing/effect.c:61-66 | Only letters that were struck leave over the top and count as hit, and only the others leave over the bottom and count as missed. |
| TypingGame.CountersCount | game/src/typing/effect.c:61-66 | In a tick each counter grows by the number of letters that pass its edge. |
| TypingGame.FirstLetterTyped | game/src/typing/game.c:42-92 | The first letter, typed at the second wake-up, is a hit. |
| Breakpoints.Manager.constructor | nemu/src/monitor/breakpoint.c:13-26 | Two lists that partition the 32 records, none in use, the free ones in ascending order. |
| Breakpoints.BypassedReaches | nemu/src/monitor/breakpoint.c:101-107 | Closing the list over any record removes that record and no other. |
| Breakpoints.TakeFree | nemu/src/monitor/breakpoint.c:28-36 | Taking a record keeps the partition and the in_use marks. |
| Breakpoints.GiveBack | nemu/src/monitor/breakpoint.c:38-49 | So does giving one back. |
| Breakpoints.Manager.SetBreakpoint | nemu/src/monitor/breakpoint.c:51-64 | Fails only if all 32 records are in use; otherwise takes the first free record, whose index is the number, remembers the byte and patches it. |
| Breakpoints.Manager.DeleteBreakpoint | nemu/src/monitor/breakpoint.c:86-112 | Removes the record with that number, restores its byte and makes it the next to be taken, or there is none and nothing changes. |
| Breakpoints.Manager.DeleteAllBreakpoint | nemu/src/monitor/breakpoint.c:114-128 | Frees every record, restoring bytes from the oldest to the newest; the newest is the next to be taken. |
| Breakpoints.Manager.FindBreakpoint | nemu/src/monitor/breakpoint.c:153-166 | The newest breakpoint at an address, if any. |
| Breakpoints.Manager.ResumeBreakpoints | nemu/src/monitor/breakpoint.c:168-180 | Patches every breakpoint in again. |
| Breakpoints.Manager.MaskBreakpoints | nemu/src/monitor/breakpoint.c:182-193 | Restores the bytes from the newest to the oldest and keeps the list. |
| BreakpointRuns.Perform | nemu/src/monitor/breakpoint.c:51-193 | Each operation, done in place, is a step of the machine the runs are made of. |
| BreakpointRuns.SetFaithfulIff | nemu/src/monitor/breakpoint.c:51-64 | Setting a breakpoint keeps the remembered bytes the program's own if and only if the byte was not patched. |
| BreakpointRuns.StepKeeps | nemu/src/monitor/breakpoint.c:51-193 | Every operation keeps: each breakpoint remembers the program's byte, and every other byte is the program's. |
| BreakpointRuns.RunRestores | nemu/src/monitor/breakpoint.c:51-193 | In every run with distinct addresses, deleting everything, in any order, or masking brings the program back. |
| BreakpointRuns.AfterSetAll | nemu/src/monitor/breakpoint.c:51-64 | What is in memory after setting any list of addresses, duplicates included, and after deleting them all. |
| BreakpointRuns.DeleteAllRestoresIff | nemu/src/monitor/breakpoint.c:114-128 | Deleting all restores the program if and only if no byte other than the patch byte was given two breakpoints. |
| BreakpointRuns.DuplicateStays | nemu/src/monitor/breakpoint.c:114-128 | Set twice at the only byte of a program and deleted, breakpoints leave the patch byte there. |
| BreakpointRuns.MaskRestoresAlways | nemu/src/monitor/breakpoint.c:182-193 | Masking restores it whatever the duplicates. |
| BreakpointRuns.DeleteAllExact | nemu/src/monitor/breakpoint.c:114-128 | For any list and memory, so after any run of operations: deleting all restores the program if and only if the newest breakpoint at each address remembers its byte and all other bytes are its own. |
| BreakpointRuns.MaskExact | nemu/src/monitor/breakpoint.c:182-193 | Masking restores it if and only if the oldest one at each address does. |
| Execution.FetchFaithful | nemu/src/cpu/cpu.c:126-140 | A fetched byte is the program's unless a breakpoint is there. |
| Execution.DisarmedByHit | nemu/src/cpu/cpu.c:77-89 | A hit disarms its own address only. |
| Execution.ArmedByResume | nemu/src/monitor/breakpoint.c:168-180 | Resuming arms them all, and keeps every remembered byte. |
| Execution.Debugger.ExecInst | nemu/src/cpu/cpu.c:126-140 | Fetches opcode and operand bytes from memory as it is, executes what they spell, and reports a patch byte. |
| Execution.Debugger.ExecOne | nemu/src/cpu/cpu.c:66-89 | One instruction of memory as it is, breakpoints re-armed after it if the last run stopped at one; on a patch byte the newest breakpoint there is undone and eip put back. |
| Execution.Debugger.Exec | nemu/src/cpu/cpu.c:49-124 | Processor, memory, state, number of instructions completed and the hit are those of `Run`, for every start, count and behaviour of the watchpoints. |
| Execution.RunFollows | nemu/src/cpu/cpu.c:64-110 | From a sound start a run follows the path of the program as the processor sees it, executes no instruction a breakpoint is set at but the one it stood at, and stops where, and only where, a breakpoint, a watchpoint, a patch byte of the program itself or the count says so. |
| Execution.GoesFarOnce | nemu/src/cpu/cpu.c:64-110 | That fixes how many instructions are executed and whether a breakpoint is hit. |
| Execution.RunLeaves | nemu/src/cpu/cpu.c:72-124 | After a run every breakpoint remembers the program's byte; all are armed, except after a hit the one that was hit; the state is BREAK exactly if instructions were left and no watchpoint fired. |
| Execution.ConsistentIff | nemu/src/cpu/cpu.c:54-61 | The next run finds what it relies on if and only if this one was not of 0 instructions at a disarmed breakpoint and hits none with its last instruction or together with a watchpoint. |
| Execution.StepOntoBreakpoint | nemu/src/cpu/cpu.c:120-123 | Executing one instruction at an armed breakpoint executes none, reports READY and leaves that breakpoint disarmed. |
| Execution.LostIsPassed | nemu/src/cpu/cpu.c:54-61 | A run that starts as READY does not stop there, however far it goes, and leaves it disarmed for the next. |
| Execution.OwnPatchByte | nemu/src/cpu/cpu.c:86-89 | A patch byte of the program's own stops it just behind that byte. |
| Execution.InstructionSeenIff | nemu/src/cpu/decode/modrm.c:22 | The processor fetches the instruction of the program if and only if no breakpoint lies strictly inside it on a byte other than the patch byte. |
| Execution.PathIsSeen | nemu/src/cpu/cpu.c:126-140 | So with whole instructions all the way the path it sees is that of the unpatched program. |
| Execution.RunIsTransparent | nemu/src/cpu/cpu.c:49-124 | Then the debugged run leaves the processor where the unpatched program has it after as many instructions. |
| Execution.InsideBreakpoint | nemu/src/cpu/decode/modrm.c:22 | With a breakpoint on its operand an instruction that loads 7 loads the patch byte. |
| Sessions.CommandKeeps | nemu/src/monitor/ui.c:186-284 | Setting at an address not in use, watching, deleting and deleting all keep what a run relies on, also at a breakpoint just hit. |
| Sessions.MoveKeeps | nemu/src/monitor/ui.c:186-284 | From a state a run can rely on every command leads to one, except exactly the runs that lose a breakpoint. |
| Sessions.SessionIff | nemu/src/monitor/ui.c:186-284 | Throughout a session of any commands and runs, with breakpoints on distinct addresses, every state is one a run can rely on if and only if no run loses a breakpoint. |
| Sessions.SessionRuns | nemu/src/cpu/cpu.c:49-124 | Up to then every run stops where and only where it should, and is the unpatched program's if no breakpoint is inside an instruction it executes. |
| Sessions.Play | nemu/src/monitor/ui.c:186-284 | Carrying out any commands, in place, is such a session. |
| Alu.SignExtOrder | nemu/include/cpu/alu.h:44-56 | Sign extension keeps unsigned order, so the flag tests on extended operands are sound. |
| Alu.AddTests | nemu/src/cpu/alu.c:3-52 | The carry and overflow tests hold exactly for an unsigned carry and for a signed sum out of range. |
| Alu.SubTests | nemu/src/cpu/alu.c:115-175 | Likewise for borrow and difference. |
| Alu.Cpu.SetPF | nemu/src/cpu/alu.c:11-22 | The loop sets PF exactly for an even number of ones in the lowest byte. |
| Alu.OnesOfSetBit | nemu/src/cpu/alu.c:11-22 | Setting any one of the bits looked at adds one to the number of ones. |
| Alu.Cpu.AluAdd | nemu/src/cpu/alu.c:54-71 | Result and all five flags at widths 8, 16 and 32, whatever the upper bits hold. |
| Alu.Cpu.AluAdc | nemu/src/cpu/alu.c:75-112 | The same with the carry that came in. |
| Alu.Cpu.AluSub | nemu/src/cpu/alu.c:115-158 | The same for subtraction. |
| Alu.Cpu.AluSbb | nemu/src/cpu/alu.c:160-195 | The same with the borrow that came in. |
| Alu.Cpu.AluMul | nemu/src/cpu/alu.c:197-218 | The full product; CF and OF say whether it needs the upper half. |
| Alu.Cpu.AluShl | nemu/src/cpu/alu.c:348-364 | For counts 0 to min(width, 31), 0 only below width 32, the result and CF of that many one-bit shifts, CF being bit width - count of the operand; a shift by 0 clears CF. |
| Alu.Cpu.AluShr | nemu/src/cpu/alu.c:366-382 | For counts 1 to 31 the same to the right, CF being bit count - 1 of the operand. |
| Alu.Cpu.AluSar | nemu/src/cpu/alu.c:384-408 | For counts 1 to min(width, 31) the same keeping the sign: the mask of ones is right. |
| Alu.ShlBits | nemu/src/cpu/alu.c:358 | Bit i after j left shifts is bit i - j before them. |
| Alu.SarValue | nemu/src/cpu/alu.c:397-403 | k arithmetic shifts of a negative value bring in k ones from above. |
| AluTheorems.UnsignedComparisons | nemu/include/cpu/instr_helper.h:169-197 | After a subtraction e, ne, a, ae, b and be decide the unsigned comparisons. |
| AluTheorems.SignedComparisons | nemu/include/cpu/instr_helper.h:208-218 | And g, ge, l and le the signed ones. |
| AluTheorems.ChainExact | nemu/src/cpu/alu.c:54-195 | n limbs chained through CF, together with the carry out, are the exact sum or difference. |
| AluTheorems.ChainUnsigned | nemu/src/cpu/alu.c:54-195 | So the limbs are the result modulo 2^(32n) and CF is the true carry or borrow. |
| AluTheorems.ChainSigned | nemu/src/cpu/alu.c:54-195 | And OF of the last limb is the signed overflow of the whole number. |
| AluTheorems.Chain | nemu/src/cpu/alu.c:54-195 | Calling alu_add and then alu_adc (alu_sub and alu_sbb) limb by limb achieves this for any number of limbs. |
| AluTheorems.ShlMultiplies | nemu/src/cpu/alu.c:348-364 | Left shifts multiply by 2^k modulo the width. |
| AluTheorems.ShrDivides | nemu/src/cpu/alu.c:366-382 | Logical right shifts divide by 2^k. |
| AluTheorems.SarDivides | nemu/src/cpu/alu.c:384-408 | Arithmetic right shifts divide the signed value by 2^k, rounding down. |
| AluTheorems.ShlCarryOut | nemu/src/cpu/alu.c:356 | CF after a left shift is the last bit pushed out: bit n of x * 2^k. |
| AluTheorems.ShrCarryOut | nemu/src/cpu/alu.c:374 | CF after a logical right shift is the last bit shifted out: with it the quotient is known to half the divisor. |
| AluTheorems.SarCarryOut | nemu/src/cpu/alu.c:392 | And after an arithmetic one, on the signed value. |
| Pic.PendingIsLargest | nemu/src/device/i8259_pic.c:25-31 | Whatever the order of the raises, the largest irq is the pending one among those after the last irq from 223 on, whose vector is the mark or wraps around; if there is none, that last one is. |
| Pic.Controller.RaiseIntr | nemu/src/device/i8259_pic.c:16-37 | Adds one raise to those since the last acknowledgement. |
| Pic.Controller.AckIntr | nemu/src/device/i8259_pic.c:39-52 | Forgets them all. |
| Pic.Controller.DoIntr | nemu/src/cpu/cpu.c:144-155 | Uninterrupted, takes the pending vector exactly if interrupts are enabled and something was raised, and fails its assertion exactly if the vector is then 255. |
| Pic.StepKeeps | nemu/src/device/i8259_pic.c:11-52 | Every step of every thread keeps mutual exclusion, the meaning of the two variables, and the account of raises. |
| Pic.MutualExclusion | nemu/src/device/i8259_pic.c:19-36 | No two threads are ever inside the critical section. |
| Pic.NeverFailsIff | nemu/src/cpu/cpu.c:150-151 | The assertion holds in every interleaving if and only if no device raises irq 223. |
| Pic.TakenWereRaised | nemu/src/cpu/cpu.c:144-155 | Every vector taken was raised since the previous acknowledgement and pending when the CPU asked; every raise is pending or wiped out by exactly one acknowledgement. |
| Pic.DeliveredAreTaken | nemu/src/cpu/cpu.c:144-155 | The vectors delivered are those taken, in order and each once; the one held between acknowledgement and delivery is the last one taken, raised since the acknowledgement before and pending when the CPU asked. |
| Pic.HandledWhileEnabled | nemu/src/cpu/cpu.c:146 | The CPU looks at, takes and delivers interrupts only with IF set. |
| Pic.NeverStuck | nemu/src/device/i8259_pic.c:19-36 | Short of the assertion nothing blocks: the holder of the mutex can go on, and without one the CPU can. |
| Pic.HandlingRun | nemu/src/cpu/cpu.c:144-155 | A pending interrupt can be handled to its end, which delivers the pending vector and clears what was raised. |
| Pic.AtRest | nemu/src/device/i8259_pic.c:25-35 | With the mutex free, cpu.intr is set exactly if something was raised since the last acknowledgement; what is pending is the largest of the recent raises, and reads as nothing exactly if nothing was raised or irq 223 came last. |
| Pic.LosingRun | nemu/src/cpu/cpu.c:150-152 | A raise between query and acknowledgement disappears. |
| Pic.LosslessIff | nemu/src/cpu/cpu.c:150-152 | No run loses a raise if and only if all devices use one irq. |
| Memory.Machine.HwRead | nemu/src/memory/memory.c:12-17 | The little-endian value of the bytes. |
| Memory.LittleEndian | nemu/src/memory/memory.c:12-22 | The byte at the lowest address is the least significant one. |
| Memory.Machine.HwWrite | nemu/src/memory/memory.c:19-22 | Stores the bytes of the value and no others. |
| Memory.Machine.PageTranslate | nemu/src/memory/mmu/page.c:5-19 | The two-level walk over the same bytes, stopping at an entry that is not present. |
| Memory.PhysNext | nemu/src/memory/mmu/page.c:10-19 | The walk preserves the offset within a page. |
| Memory.SpelledSplit | nemu/src/memory/memory.c:62-66 | The value of bytes translated one by one is that of any two parts joined. |
| Memory.Machine.LaddrRead | nemu/src/memory/memory.c:57-72 | Any read of 1, 2 or 4 bytes, page crossings and wrap-around at 2^32 included, is the value of the bytes translated one by one. |
| Memory.Machine.LaddrWrite | nemu/src/memory/memory.c:74-90 | What the code stores, the second page being translated after the first part is stored. |
| MemoryTheorems.PhysKept | nemu/src/memory/mmu/page.c:12-17 | A store that misses a page's two entries keeps its translation. |
| MemoryTheorems.OnePageReadBack | nemu/src/memory/memory.c:86-89 | A write within a page, or without paging, is read back. |
| MemoryTheorems.CrossingReadBack | nemu/src/memory/memory.c:78-85 | A write across a boundary is read back if and only if the misplaced bytes coincide with the right ones. |
| MemoryTheorems.FaithfulAlways | nemu/src/memory/memory.c:81 | For all data that is so if and only if four bytes split in the middle. |
| PageTables.SlotAfter | kernel/src/memory/kvm.c:27-31 | An entry store is seen by that entry and no other. |
| PageTables.EntryLayout | kernel/src/memory/kvm.c:27-31 | Entries hold the frame from bit 12 on and the present bit in bit 0. |
| PageTables.OwnEntryLost | nemu/src/memory/mmu/page.c:5-19 | A write that hits a page-table entry of its own page need not come back: where a directory entry points to the directory, clearing it through linear memory removes the page. |
| PageTables.InitPage | kernel/src/memory/kvm.c:12-46 | The nested loops fill both halves of the directory and all 32 tables, touch nothing else, and paging starts with that directory. |
| PageTables.KernelWalk | kernel/src/memory/kvm.c:20-35 | The walk then maps the low 128 MB to themselves and 0xC0000000 upwards to the same frames, and nothing else. |
| PageTables.KernelAddresses | kernel/src/memory/kvm.c:20-35 | The same by address: below 0x8000000 every address is its own, and 0xC0000000 is subtracted from [0xC0000000, 0xC8000000). |
| UserPages.KernelWindow | kernel/src/memory/kvm.c:20-35 | Any read through either window, page crossings included, reads physical memory. |
| UserPages.KernelStore | kernel/src/memory/kvm.c:20-35 | An aligned word stored through either window is stored at its physical address. |
| UserPages.KernelCrossing | nemu/src/memory/memory.c:78-85 | With the kernel's map, a write from one ordinary frame into the next is read back if and only if the misplaced bytes coincide. |
| UserPages.KernelCrossingFails | nemu/src/memory/memory.c:81 | So two bytes of 0x100 written there do not come back. |
| UserPages.InitMm | kernel/src/memory/mm.c:25-37 | The user directory holds the kernel's 32 upper entries and nothing else; the kernel's own map is kept. |
| UserPages.UserWalk | kernel/src/memory/mm.c:28-36 | The upper half is translated as the kernel translates it, and nothing else is present. |
| UserPages.CreateVideoMapping | kernel/src/memory/vmem.c:12-30 | Entry 0 and sixteen table entries are added, and no byte outside the user directory and the video table changes. |
| UserPages.SetUpPaging | kernel/src/memory/vmem.c:12-30 | From memory with a zero video table, init_page, init_mm and create_video_mapping in turn give the kernel and the user their maps and leave every frame alone that holds none of the tables. |
| UserPages.VideoWalk | kernel/src/memory/vmem.c:22-30 | Then [0xa0000, 0xb0000) maps to itself too, and the rest of the first 4 MB is not present. |
| UserPages.VideoAddresses | kernel/src/memory/vmem.c:22-30 | The same by address: [0xa0000, 0xb0000) and [0xC0000000, 0xC8000000), and nothing else. |
| Expr.LastPartner | nemu/src/monitor/expr.c:196-199 | The last parenthesis popped is the first token's exactly if the span is enclosed in one pair. |
| Expr.Monitor.CheckParentheses | nemu/src/monitor/expr.c:177-200 | True exactly if the span is balanced and its first parenthesis is closed by its last; success is cleared exactly if it is unbalanced. |
| ExprTheorems.ScanIsLeftmostLeast | nemu/src/monitor/expr.c:279-293 | The scan ends at the leftmost operator of least type among the first operator and those outside parentheses. |
| Expr.Monitor.Eval | nemu/src/monitor/expr.c:201-309 | Terminates and computes Ev of the span. |
| Expr.Monitor.ExprValue | nemu/src/monitor/expr.c:311-331 | The marking in place is Marked, and the result Ev of the marked list, whatever the caller's success flag holds. |
| ExprTheorems.ReadsTree | nemu/src/monitor/expr.c:201-309 | For every tree grouped as the token types say, evaluating its printed form gives its value modulo 2^32, or a division by zero where the tree has one, unless the first operator of some left operand is inside parentheses and has at most the token type of its parent; then it fails. Operands may be missing in front of operators that can be unary, and count as 0. |
| ExprTheorems.NodeComputes | nemu/src/monitor/expr.c:296-305 | The value of a tree is, at every node, the sum, difference or product modulo 2^32 of those below it, their quotient rounded down, 1 or 0 for equality, or the word loaded; it is none exactly where a divisor is 0. |
| ExprGrouping.EvaluatesGrouping | nemu/src/monitor/expr.c:201-309 | For every tree, binary uses of the unary operators included, evaluating its printed form gives the value of its grouping, or fails exactly where that is not readable. |
| ExprGrouping.GroupingGroups | nemu/src/monitor/expr.c:279-293 | The grouping has the same tokens in the same order, and lower token types further out, equal ones to the right. |
| ExprGrouping.OneGrouping | nemu/src/monitor/expr.c:279-293 | There is only one such tree for a list of tokens, so the grouping does not depend on the tree they were printed from. |
| ExprGrouping.GroupingKeepsIff | nemu/src/monitor/expr.c:279-293 | It is the tree itself if and only if each operator has less than the type of every operator outside parentheses in its left operand and at most that of those in its right one. |
| ExprGrouping.GroupsToTheRight | nemu/src/monitor/expr.c:289-292 | a - b - c is a - (b - c) for any operands and any operator. |
| ExprGrouping.SignsAreMoot | nemu/src/monitor/expr.c:289-292 | Any number of signs in front of a load are dropped. |
| ExprMarking.MarkingRight | nemu/src/monitor/expr.c:322-329 | Unary and binary operators are told apart correctly if and only if no '-' or '*' follows a closing parenthesis. |
| ExprMarking.MarkedIsRemarked | nemu/src/monitor/expr.c:322-329 | For every text the marked tokens are those of its tree with each SUB and MUL behind a closing parenthesis turned into NEG and DEREF. |
| ExprMarking.ExprEvaluates | nemu/src/monitor/expr.c:311-331 | So for every text expr gives the value of the grouping of that tree, or fails exactly where it is not readable. |
| ExprMarking.MeantIff | nemu/src/monitor/expr.c:201-331 | That grouping is the intended tree, NEG between operands counting as SUB, if and only if the remarked tree has lower token types further out and equal ones to the right, and no '*' follows a closing parenthesis. |
| ExprMarking.ExprRight | nemu/src/monitor/expr.c:201-331 | Then expr gives the value of the text, or fails exactly where the remarked tree is not readable. |
| ExprMarking.OperationComputes | nemu/src/monitor/expr.c:296-305 | The text of one binary operation evaluates to what its operator computes. |
| ExprMarking.UnaryComputes | nemu/src/monitor/expr.c:296-305 | -b evaluates to 2^32 - b modulo 2^32, and *b to the word at b. |
| ExprMarking.TwoOperations | nemu/src/monitor/expr.c:279-293 | a op b op' c evaluates to a op (b op' c) if op has at most the token type of op', and to (a op b) op' c if it has a higher one. |
| ExprMarking.QuotientTimes | nemu/src/monitor/expr.c:289-292 | So 8/2*3 evaluates to 1; it means 12. |
| ExprMarking.LeftAtomicRight | nemu/src/monitor/expr.c:201-331 | Every expression of the form `a op (rest)` gets its value. |
| ExprMarking.MinusAfterParenthesis | nemu/src/monitor/expr.c:326-328 | (a)-b*c is read as ((a)-b)*c. |
| ExprMarking.StarAfterParenthesis | nemu/src/monitor/expr.c:323-325 | (a)*b is read as a load from b. |
| ExprMarking.DifferenceTimes | nemu/src/monitor/expr.c:326-328 | (1)-2*3 evaluates to -3 modulo 2^32; it means -5. |
| ExprMarking.LoadForProduct | nemu/src/monitor/expr.c:323-325 | (2)*3 evaluates to the word at 3; it means 6. |
| ExprMarking.MinusAlone | nemu/src/monitor/expr.c:299-300 | (a)-b evaluates to a - b although its '-' is marked as unary. |
| ExprMarking.SumInFront | nemu/src/monitor/expr.c:282-284 | (1+2)/3 is rejected. |
| ExprMarking.HiddenDivision | nemu/src/monitor/expr.c:282-304 | (a/b)*c divides by zero. |
| ExprMarking.NegatedLoad | nemu/src/monitor/expr.c:289-292 | -*x evaluates to *x. |
| ExprMarking.RightAssociative | nemu/src/monitor/expr.c:289-292 | 8-4-2 evaluates to 6; it means 2. |

## Left out

- Normalize.InternalNormalize: the routine's stages are methods of their own; its caller's exact value is a ghost argument.
- Fpu.InternalFloatMul: NaNs other than the two canonical patterns are treated as the code treats them, which is not as NaNs; the contract says exactly when that shows.
- The register stack around the arithmetic (`fpu_load`, `fpu_add` and their siblings) and `fpu_cmp`, which compares host floats.
- TypingGame.MainLoop: screen drawing, frame rate and redraw flags, overflow of the tick counter, and a timer tick or a key press inside the drain loop; positions and speeds, all multiples of one half, are reals.
- Breakpoints.Manager.SetWatchpoint: a watchpoint is a tag without its expression; `scan_watchpoint` is a parameter of `exec`.
- Execution.Debugger.Exec: one instruction is a function of the processor's state and the instruction's own bytes, of which there are at most 15; data memory is part of that state, so loads from patched bytes and programs that write to their own code are not modelled, nor are devices, interrupts and the halt state. `eip` is unbounded.
- Alu.Cpu.AluShl: counts of 32 and more, above the width, and 0 at width 32, which shift by amounts undefined in C.
- The ALU's logic operations, `alu_imul`, `alu_div` and `alu_mod`, which are one expression each.
- Pic.StepKeeps: failing attempts to lock, which are retried, and the early return when the emulator stops; locking is one atomic step. Pushing the frame and finding the gate in `raise_intr` are not part of the model.
- Memory.Machine.LaddrWrite: memory-mapped devices, cache and TLB; an access outside `hw_mem` counts as a stop.
- MemoryTheorems.OnePageReadBack: the write must not hit the page-table entries of the page it goes through; OwnEntryLost shows that it may then be lost.
- MemoryTheorems.CrossingReadBack: nor those of either page.
- UserPages.CreateVideoMapping: stores to physical memory are modelled directly; KernelStore justifies this for the addresses the kernel uses. `mm_malloc` and `mm_brk` are not part of this model.
- UserPages.SetUpPaging: the loader allocates and fills user pages between the last two steps, which is not modelled; the video table is taken to be zero at the start, as static data is.
- Expr.Monitor.Eval: a token carries its value, so number formats, registers and symbols are not looked up; a span without an operator, where the code reads `tokens[-1]`, counts as a stop, and so does a division by zero.
- ExprMarking.ExprEvaluates: texts that no tree prints, such as two operands in a row; with a `success` flag that is false on entry `FailureStays` says that expr never succeeds.
- Sessions.SessionIff: the monitor's other commands, none of which touches breakpoints or memory but through the program; deleting by several numbers is several commands.
- The tokeniser, ELF loading, SDL, video, audio, serial and disk devices, the remaining instructions, the other kernel files and the battle game.
