# What the alang compiler promises, and proofs that it keeps it

alang is a small language compiled to x86-64. This project models the parts of its compiler where a mistake would be
silent, and proves what each of them is for: that code keeps every value where the bookkeeping says it is, that lowering
and compile-time evaluation preserve meaning, that analyses are sound on every path, and that parsers read exactly what is
printed. Verify with `dafny verify dfyconfig.toml`.

## The parts

**Registers and the stack frame** (`Machine`, `VarState`, `LoadRegister`, `Morph`, `CallConvention`, `ProcGen`, `Legs`,
`History`, `Nesting`). A machine of 14 eight-byte registers and a byte-addressed frame runs the moves and exchanges that
the code generator emits. `ProcGens.ProcGen` is the generator's own mutable state: the `available` list, the tenant of
each register, the register and slot of each variable, the frame size and the swap marks, all updated in place.
`VarStates.Valid` says that these views agree: `available` is duplicate-free and lists exactly the untenanted registers,
tenancy and `currentRegister` are inverse to each other, decommissioned variables hold nothing, and slots are disjoint and
inside the frame. Every operation keeps it, and running the code it emits takes every located variable, on any machine, to
its new place with its value. Rearranging storage into another state (`MorphToState`) ends, never spills, and delivers
every variable both states locate, with one exact exception: a variable that both states hold on the stack only, at
different offsets, is never moved (`Morphs.Stranded`; the proof gives a machine on which its value is lost). Over every
run of operations, snapshots and restores, all slots ever handed out are pairwise disjoint and inside the final frame,
whether still in use or not (`Histories.AllSlotsApart`, `AllSlotsInFrame`), and any snapshot can be morphed into;
`Histories.Recorder.Perform` says what each of the generator's operations does and that it is a step of such a run, so two
states that can meet at a label always fit. Between two times a state is put back, whatever a called procedure does within
the convention, a variable that has a place all along has at the end the value it had at the start (`Legs.ValueStays`).
Where loops nest, no variable is stranded between a jump and its label, so there every variable both states locate arrives
(`Nesting.NothingStranded`, `Nesting.Body.EmitJump`). What a call leaves where is said by the names of the registers
(`CallConventions.PassedByName`, `PreservedByName`).

**From statements to jumps** (`Language`, `Ir`, `Lowering`, `ExprLowering`, `StmtLowering`, `Simulation`, `Placement`,
`Procs`, `Acceptance`, and the generator itself in `FrontState`, `FrontNodes`, `MutationBounds`, `FrontGen`, `Mutations`).
The source language has a big-step meaning with lexical scopes, shadowing, short-circuit evaluation, `if`/`else`, `while`,
endless and range loops, `break`, `continue`, `return` and calls, which are recorded in a trace. The instructions have a
program-counter meaning. The simulation says that running the code makes the same calls in the same order and ends as the
body does. A body that uses up its fuel corresponds to at least that many steps, after which exactly the calls of the body
so far have been made: so divergence corresponds to divergence, with the same calls. `FrontGens.FrontGen` is the
generator's mutable state, and its methods walk the flat list of parsed lines as the compiler does, patching the last
instruction when an else follows; they are proved to emit exactly the code of the simulation and to fill every mutation
list exactly. Which bodies are refused is said of their text alone (`Acceptance`): every name used is in sight where it is
used, no `:=` repeats a name of its own scope, and `break` and `continue` are in loops; a body is compiled if and only if
it is like that.

**Types** (`Typing`, `Typer`, `Typable`, `TypeSafety`). The typer makes one pass over the instructions of a procedure,
gives each variable the type of the first value it gets, and refuses what does not fit. On code that the front end emits
it accepts exactly the bodies that are typed as statements and expressions (`Typable.TyperAcceptsExactly`). A body that is
typed strictly has a meaning, and what it is compiled to is never stuck (`TypeSafety.TypedProcRuns`). The rules differ in
three places, two of which the typer lets pass without a look: a condition that is no truth value, and a new name in its
own value after `&&` or `||`; the third is division, which may have no meaning.

**What the back end takes for granted of that code** (`LastUse`, `Procs`). The analysis of last uses is one backward pass
plus an adjustment for backward jumps; a variable whose address is taken then gets the entry of the pointer that its
address was put into last. It is sound, for variables whose address is not taken, on every path of code whose loops nest
and whose short jumps go forward; every procedure the front end emits is shown to be such code.

**Compile-time evaluation** (`Precompute`, `PrecomputeSimple`, `PrecomputeBlocks`, `PrecomputeSound`, `PrecomputeWhole`,
`PrecomputeOnce`, `PrecomputeExact`, `PrecomputeBoth`, `ComparisonResults`, `CompiledItems`, `CompiledEvaluation`,
`PrecomputeGen`, and `WordLaws`, `TableLaws`). The generator carries out what it can on a table of known values and emits
code for the rest; the branches of an option select start from the same saved table. On loop-free code with 64-bit
arithmetic, whichever way the branches go, the table and run-time storage together hold the plain run's values. Two
programs show what goes wrong when a select leaves something known that it did not save, and for an `if` without an
`else`, whose test reads nothing the branch may change, that is shown to be exactly the condition: all inputs go right if
and only if the branch leaves nothing of the kind. The second program compares into a variable that its select lists. The
front end never emits such code (`ComparisonResults.CompiledSelect`), so half of the condition is met by every compiled
program. With an `else` no condition on what is left known can be exact: two selects whose tables are the same at every
point differ in whether all inputs go right (`PrecomputeBoth.TablesDoNotDecide`). From statements on: loop-free statements
without calls, division and short-circuit operators are lowered to code of this kind, properly scoped by the lists the
front end makes, and what is left of them at run time gives every name in sight its value
(`CompiledEvaluation.CompiledAndEvaluated`). What words, comparisons and bits come to is stated by laws that name none of
the functions that compute them (`WordLaws`), and so is when an instruction is carried out, given up or stops the
generator (`TableLaws`).

**Parsing** (`Tokenizer`, `TokenCover`, `TokenRoundTrip`, `TokenScan`, `Operators`, `Splitting`, `ExprUnit`, `LineParse`,
`TypeDecls`, and `Grouping`, `TokenLaws`). The heap-driven reduction of operators, with its map of interval ends that
keeps stale inner entries, gives, where operands and operators take turns, the tree of the recursive definition that
splits at the loosest operator, and an error exactly when there is no such tree. Which sequences have one is characterised
exactly: a prefix operator after a tighter operator, as in `a * !b`, is refused. Nine classes of operators, listed, say
which of any two operators in a line binds tighter (`Grouping`). The tokenizer's tokens are the whole line but blanks,
none of them shorter than it could be, and they survive being written out with single blanks; which characters are blanks,
which signs cut a token off, where a number or a string ends, and what is no token at all is said apart (`TokenLaws`).
Printed type declarations are read back.

**Self-contained pieces** (`Layout`, `ArrayElements`, `ResolveOrder`, `Fsm`, `PrintInt`). Struct layout is aligned at
every depth and no order-preserving aligned layout is smaller, and an array has room for each of its elements; the order
in which struct layouts are computed; a forward automaton against its reversal, with the exact condition for the two to
agree; printing a 64-bit number through a 29-byte buffer.

## Modelling decisions

- Arithmetic, comparison and what calls return are parameters of the statement semantics (`Ir.World`), so the simulation
  holds for all of them; the part on compile-time evaluation fixes signed 64-bit wrap-around.
- A value of `Undefined` stands for what a variable holds before anything is put in it; a program that depends on one is
  `Meaningless` and nothing is claimed of its run.
- Mutation lists are shared by reference in the compiler. Here instructions name their list by number and the generator
  holds all lists. Open scopes are kept on a stack instead of a chain of parents.
- `sort.Ints` and `container/heap` are library code; a simple sort and a simple search for the least operator stand in for
  them, proved to do what the callers need of the libraries.
- A character of a line stands for a byte. Source positions in error messages are not modelled, except those of the
  tokenizer.
- Assembly text is not modelled: an instruction is a value.

## What the code does that one might not expect

Each of these is what the code does and what the model does.

- A statement that is only an operator expression, such as `a + b`, emits no code (`frontend/frontend.go:136-137`), so
  calls in it are not made.
- `x := e` for a name not in sight binds the name before `e` is computed; `var x T` replaces a binding of the same scope
  without an error.
- In a range the upper bound is computed before the lower one, and a bound that is a bare name is read again at every
  turn.
- `ensureInRegister`, for a variable in no register and with all registers taken, searches without an end when every
  register is marked (`ProcGens.ProcGen.SearchEnds`).
- A parameter that is assigned a constant in one branch is taken for that constant after the select
  (`PrecomputeOnce.BranchLeaksOut`); so is a variable that a comparison with known operands is written to, even when it
  has been known before (`PrecomputeOnce.ComparisonLeaksOut`).
- `Assign` or `Not` with a known input into a variable that has been known and is not any more: the first is done at run
  time, the second stops the generator.
- `x = !x` for a variable that has never been known is carried out at compile time on the zero that its entry holds, so
  `x` is taken for true whatever it holds (`PrecomputeSimple.StaleIsWrong`); that is right exactly when it holds false
  (`PrecomputeSimple.StaleExactly`). The front end emits this only for `x := !x` with `x` not in sight, where `x` holds
  nothing.
- Conditions are not typed: `if 1 {` is accepted (`Typable.NumberAsCondition`). So is `x := true && x` with `x` not in
  sight (`Typable.NameInItsOwnValue`). The values of a `return` are not compared with what the procedure is declared to
  return.
- A lone `-` as an operand is read as a number literal.
- An operator at the end of a range looks for its operand at the token behind the range (`ExprUnits.LooksBehindRange`).
- Two structs that share an embedded struct, embedded in a third, are refused as if embedding went round in a circle
  (`ResolveOrders.SharingIsNotOneWay`).
- An automaton description with two ways to go on one character may mean one language forward and another backward
  (`Fsm.TwoWaysDisagree`), or the same (`Fsm.TwoWaysAgree`); `Fsm.AgreeExactly` says when.

## Model

| member | source | states |
|---|---|---|
| VarStates.AllocateValid | backend/backend.go:261-279 | Giving a free register to a variable that has none keeps all views of tenancy in agreement and slots apart |
| VarStates.ReleaseValid | backend/backend.go:281-293 | Releasing a tenanted register keeps all views in agreement |
| VarStates.GiveSlotValid | backend/backend.go:493-502 | A new slot overlaps no other and lies inside the new frame; a variable that has one keeps it |
| VarStates.SlotFillsGrowth | backend/backend.go:493-502 | A new slot takes exactly what the frame has grown by; nothing else has changed |
| VarStates.ForgetValid | backend/backend.go:1290-1299 | Decommissioning leaves the variable neither register nor slot, every other variable as it was, and the views in agreement |
| VarStates.KeepsChain | backend/backend.go:295-297 | Code that keeps all values followed by code that keeps all values keeps all values |
| LoadRegisters.LoadRegisterValid | backend/backend.go:410-468 | After loading, the register belongs to the variable and all views agree, in each of the six cases |
| LoadRegisters.LoadRegisterPlaces | backend/backend.go:410-468 | Nobody's slot has moved and nobody but the displaced tenant has changed place |
| LoadRegisters.LoadRegisterKeeps | backend/backend.go:410-468 | Running the emitted moves, exchange or spill takes every located variable to its new place, unless a tenant has no slot and may not be given one |
| LoadRegisters.StoreRuns | backend/backend.go:373-381 | A store puts a register variable's value in its slot and disturbs no other variable's slot |
| Machine.LoadsByWidth | backend/backend.go:378-381 | A load of 8 bytes fills the register, one of 4 clears the upper half, loads of 2 and 1 keep the bytes above, and there are no other widths |
| Machine.StoresByWidth | backend/backend.go:373-376 | A store writes exactly the low bytes it names and nothing else in memory |
| LoadRegisters.LastReleasedFirstTaken | backend/backend.go:105-110 | Of the registers available, the one released last is taken first |
| LoadRegisters.EvictKeeps | backend/backend.go:733-747 | A tenant sent to the stack keeps its value there, and everything else stays as it was |
| LoadRegisters.EnsuredKeeps | backend/backend.go:470-491 | Whichever register is chosen for a variable, every located value is kept |
| ProcGens.ProcGen.constructor | backend/backend.go:129-176 | The initial state satisfies the invariant, with nothing located |
| ProcGens.ProcGen.AllocateRegToVar | backend/backend.go:261-279 | Shifting the list in place removes exactly the register taken, and the bookkeeping is that of an allocation |
| ProcGens.ProcGen.ReleaseRegister | backend/backend.go:281-293 | The tenant loses the register, which is appended to the available ones |
| ProcGens.ProcGen.EnsureStackOffsetValid | backend/backend.go:493-502 | A variable without a slot gets one at the end of the frame, which grows by its size |
| ProcGens.ProcGen.LoadRegisterWithVar | backend/backend.go:410-468 | The state, the frame size and the emitted code are those that the theorems on loading are about |
| ProcGens.ProcGen.EnsureInRegister | backend/backend.go:470-491 | The variable ends up in the register returned, which is marked; all values are kept and a register marked before keeps its tenant, so calls within one instruction never evict each other |
| ProcGens.ProcGen.ClearMarks | backend/backend.go:1323-1325 | No register is marked afterwards, and nothing else has changed |
| ProcGens.ProcGen.SearchEnds | backend/backend.go:482-485 | The search for a register to take over comes to an end if and only if some register is not marked |
| ProcGens.ProcGen.AllocateRuntimeStorage | backend/backend.go:504-515 | The variable is located afterwards, all values are kept and no other variable is moved |
| ProcGens.ProcGen.FindOrMakeFreeReg | backend/backend.go:733-747 | The register returned is empty and all values are kept |
| ProcGens.ProcGen.FreeUpRegisters | backend/backend.go:568-596 | All targets are empty at once at the end; if tenants may be given slots, or have them, all values are kept; in any case what still has a place has its value |
| ProcGens.ProcGen.Decommission | backend/backend.go:1290-1299 | The variable loses its storage for good, and no other variable is touched |
| ProcGens.ProcGen.Restore | backend/backend.go:1447-1456 | The bookkeeping becomes that of the state put back; frame size and emitted code stay as they are |
| Morphs.LoadShrinks | backend/backend.go:536-538 | Sending a tenant to its own target register lowers the number of registers with a wrong tenant: why the inner loop ends |
| Morphs.NobodyEvicted | backend/backend.go:517-556 | Loading into an empty register, or one the variable can swap with, evicts nobody, so no new slot is ever needed |
| Morphs.TurnProgress | backend/backend.go:524-547 | One turn of the inner loop keeps the invariant, code included, and leaves fewer wrong tenants |
| Morphs.FinishProgress | backend/backend.go:548-551 | Once no wrong tenant is left in a register, fetching the right one settles it and all registers before it |
| Morphs.StrandedIsLost | backend/backend.go:533-546 | A machine on which the value of a variable held only on the stack, in two different slots, does not arrive |
| Morphs.MorphDone | backend/backend.go:517-556 | When all registers are settled a variable located by both states has arrived, on every machine, if and only if it is not stack-only in both at different offsets |
| ProcGens.ProcGen.MorphToState | backend/backend.go:517-556 | It ends; a variable both states locate arrives exactly when it is not stranded; without generation no code was emitted; the bookkeeping is put back |
| CallConventions.EveryRegisterIsOneOrTheOther | backend/backend.go:74-75 | Every register is either destroyed by calls or preserved |
| CallConventions.PreservedByName | backend/backend.go:74-75 | The registers preserved over a call are rbx and r12 to r15, those destroyed are the other nine |
| CallConventions.ConventionByName | backend/backend.go:967-989 | What is asked of a callee, register by register: those five come back as they were, and so does the frame and all above it |
| CallConventions.PassedByName | backend/backend.go:944-965 | After loads and stores rdi, rsi, rdx, rcx, r8 and r9 hold the arguments 0 to 5, as far as there are any |
| CallConventions.CallCarries | backend/backend.go:967-989 | With the destroyed registers empty, a callee that honours the convention leaves every located value in place |
| CallConventions.ArgumentsArrive | backend/backend.go:944-978 | Loads one after another and stores after them leave each 8-byte argument in its parameter register |
| CallConventions.CallDone | backend/backend.go:944-1003 | Over loads, stores and the call every variable but the result and those not used again keeps its value |
| ProcGens.ProcGen.LoadArguments | backend/backend.go:944-965 | Pairwise distinct arguments end in their registers, later loads do not disturb earlier ones, and all values are kept |
| ProcGens.ProcGen.ParkDestroyed | backend/backend.go:967-978 | All registers a call destroys are empty; all but variables used for the last time are stored, with registers untouched |
| ProcGens.ProcGen.GenCall | backend/backend.go:944-1003 | At the call rdi, rsi, rdx, rcx, r8 and r9, by name, hold the arguments in order; afterwards the result is in rax and every variable used again has its value where the bookkeeping says; new slots lie beyond the frame as it was |
| Histories.OperationKeepsMorphable | backend/backend.go:493-502 | Handing out slots only beyond the frame keeps the current state morphable into and from a snapshot |
| Histories.StepKeepsSeparate | backend/backend.go:178-185 | Operations, snapshots and restores keep the current state and all snapshots valid and their slots apart |
| Histories.RunsStaySeparate | backend/backend.go:674-731 | On every run any snapshot can be morphed into from the current state: slots of different variables never overlap across states |
| Histories.AllSlotsInFrame | backend/backend.go:493-502 | Every slot handed out at any time of a run lies inside the frame as it is at the end, given up since or not |
| Histories.AllSlotsApart | backend/backend.go:493-502 | Any two slots handed out at any times of a run, to two variables or twice to one, are disjoint |
| Histories.Recorder.Perform | backend/backend.go:1301-1457 | What each operation of the generator does to state, frame and code, copying a state, putting one back and morphing into one included; each is a step of such a run, and one leg more of a stretch of code |
| Histories.Recorder.ValuesStay | backend/backend.go:1301-1415 | Since a state was last put back, what has had a place all along and no call has changed has its value, on every machine |
| Legs.ValueStays | backend/backend.go:1301-1415 | The same for any stretch of legs, by what each of them carries |
| Nesting.InsideFollows | backend/backend.go:1946-1964 | As long as no loop is left that was open, slots stay where they are until their variable is decommissioned, loops in between included |
| Nesting.NothingStranded | backend/backend.go:674-731 | So between the states at two such places no variable is on the stack in two different slots |
| Nesting.Body.StartLoop | backend/backend.go:1244-1246 | The state is copied for the label after the loop |
| Nesting.Body.EndLoop | backend/backend.go:1952-1961 | The state from before the loop is put back |
| Nesting.Body.EmitJump | backend/backend.go:674-731 | The code of a jump, emitted at once or at the end, takes every variable that both states locate to its place |
| Ir.FindsIt | frontend/frontend.go:624-628 | With unique labels a jump goes to the label where it is placed |
| Ir.VarsAreOperands | ir/opts.go:182-205 | The variables an instruction mentions are its operands, those of pointer operations, comparisons, calls and returns included |
| Ir.MutatesItsResult | ir/opts.go:240-258 | The variable an instruction mutates is where its result goes; a write through a pointer mutates none directly |
| ExprLowering.ToVarRuns | frontend/frontend.go:306-424 | The code of an expression leaves its value in a destination that does not occur in it, makes exactly the calls evaluation makes, and changes no older variable but the destination |
| ExprLowering.ChainRuns | frontend/frontend.go:276-287 | A chain of one short-circuit operator ends at its end or, once decided, at the one label all its jumps share, with the chain's value; operands after that are not evaluated |
| ExprLowering.ToValueRuns | frontend/frontend.go:290-303 | The variable returned holds the value and no older variable has changed; a bare name costs no code |
| ExprLowering.ToValuesRuns | frontend/frontend.go:337-341 | Arguments are evaluated from left to right and earlier results survive later evaluations |
| StmtLowering.LowerBlockExtends | frontend/types.go:113-124 | A block leaves outer scopes alone, and the names it creates have new variables |
| Simulation.IfRuns | frontend/frontend.go:139-173 | The code of if and else runs the branch the condition selects, each in its own scope, and ends after both |
| Simulation.LoopRuns | frontend/frontend.go:174-249 | Endless and while loops run turn by turn as their meaning says; continue goes to the next turn and break to the end of the innermost loop |
| Simulation.RangeRuns | frontend/frontend.go:174-249 | A range includes its upper end, steps a hidden counter the body only sees a copy of, and reads a bare-name bound again at every turn |
| Simulation.StmtRuns | frontend/frontend.go:79-269 | Running the code of a statement ends where and with the variable values its meaning says, in all ways a statement can end |
| Simulation.BlockRuns | frontend/frontend.go:43-274 | The same for blocks, for every nesting: normal end, break, continue, return, and divergence up to any number of turns |
| Procs.ProcRuns | frontend/frontend.go:12-40 | A compiled procedure makes the calls its body means, in order, and ends with the same values returned, or runs for as long as the body does, with the body's calls made by then |
| Procs.ParamNamed | frontend/frontend.go:12-40 | Each parameter has its name in the scope of the body, the last one of several with the same name |
| Placement.BlockFits | frontend/frontend.go:43-274 | Labels are unique, jumps go to labels that are there, backward jumps nest and short jumps go forward |
| Procs.ProcStructured | frontend/frontend.go:12-40 | Every procedure emitted has the structure the analysis of last uses relies on |
| Mutations.DedupSorted | frontend/frontend.go:630-642 | The list in place begins with the distinct elements of a sorted list, in ascending order |
| Mutations.SortAndDedup | frontend/frontend.go:67-68 | The result ascends and has exactly the elements of the list |
| Mutations.MutatedConcat | frontend/types.go:90-98 | What code mutates is what its parts mutate |
| Mutations.UnlistedKeepsItsValue | backend/backend.go:1341-1351 | A variable older than a scope and missing from its list holds the same value for as long as control stays in the scope's code |
| Acceptance.AcceptedExactly | frontend/frontend.go:43-274 | A block is compiled if and only if every name is in sight where it is used, no := repeats a name of its own scope, parameters and range counters of that scope included, and break and continue are in loops |
| Acceptance.StmtAcceptedExactly | frontend/frontend.go:79-269 | The same for one statement with all blocks in it |
| Acceptance.RepeatIsRefused | frontend/frontend.go:88-90 | A := of a name that its scope has already, from an earlier statement or from the start, makes the whole block refused |
| Acceptance.ShadowingIsAccepted | frontend/frontend.go:85-100 | A := of a name that only scopes outside have is accepted |
| FrontGens.LabelIdGen.GenLabel | frontend/types.go:57-63 | Label numbers are handed out one after the other |
| FrontGens.FrontGen.Resolve | frontend/types.go:100-111 | Walking outwards finds the innermost binding, if there is one |
| FrontGens.FrontGen.NewNamedVar | frontend/types.go:119-125 | The name stands for the next variable number, in the innermost scope only |
| FrontGens.FrontGen.AddOpt | frontend/types.go:90-98 | The instruction is appended, and the scope's list gains what it mutates of older variables and nothing else |
| FrontGens.FrontGen.GenExpressionValueToVar | frontend/frontend.go:306-424 | Emits exactly the code the theorems are about and records its mutations; fails exactly on names out of scope |
| FrontGens.FrontGen.GenExpressionValue | frontend/frontend.go:290-303 | Emits exactly that code and returns exactly that variable; fails exactly on names out of scope |
| FrontGens.FrontGen.GenAndOr | frontend/frontend.go:276-287 | Walking down the left spine emits the chain with one shared label |
| FrontGens.FrontGen.GenDeclare | frontend/frontend.go:85-100 | A name already in sight gets its new variable after the value is computed, a new name before; it succeeds exactly if the name is not in the table of the innermost scope and every name of the value is in sight or the name itself |
| FrontGens.FrontGen.GenSimple | frontend/frontend.go:79-138 | One statement without a block; fails exactly when it is not acceptable |
| FrontGens.FrontGen.EndBlock | frontend/frontend.go:65-78 | The scope's list becomes ascending and exact, and the entries older than the scope around are handed on to it |
| FrontGens.FrontGen.GenIfNode | frontend/frontend.go:139-156 | The whole of an if that no else follows, or up to the label that stands last when one does; both lists are right |
| FrontGens.FrontGen.GenElseNode | frontend/frontend.go:157-173 | The label that stands last gives way to a jump; the result is the code of the whole if and else, with all three lists right |
| FrontGens.FrontGen.GenPlainLoop | frontend/frontend.go:174-249 | The code of a loop without a range, its labels shared with break and continue in it, and an exact list |
| FrontGens.FrontGen.GenRangeLoop | frontend/frontend.go:174-249 | The code of a range loop; its list stays ascending and exact although the step is recorded after sorting |
| FrontGens.FrontGen.GenForProcSubSection | frontend/frontend.go:43-274 | Walking the flat list of lines to the end of the block emits the code of the block and makes every list in it exact; it fails exactly on blocks to be refused |
| FrontGens.FrontGen.GenForProc | frontend/frontend.go:12-40 | The instructions of the whole procedure are those of the simulation theorem, all mutation lists are exact, and it succeeds exactly on bodies whose text is acceptable below the parameters |
| MutationBounds.ToVarMutates | frontend/frontend.go:306-424 | Of older variables an expression's code mutates at most its destination |
| MutationBounds.BlockMutates | frontend/frontend.go:43-274 | Of older variables a block's code mutates only ones that names in scope stand for |
| FrontStates.ScopeDone | frontend/types.go:75-98 | What a finished inner scope did is, for the scope around it, one stretch of code with its mutations recorded |
| FrontNodes.LowerSnoc | frontend/frontend.go:55-271 | Emitting statement by statement in a loop is the same as emitting the block |
| LastUses.FindLastUsage | backend/backend.go:2122-2162 | Each entry is the last index that mentions the variable or jumps back over a mention of it; where an address is taken the variable has the pointer's entry instead, one after the other in the order of the instructions: the last use of the pointer its address was put into last, if that one's own address is not taken |
| LastUses.NotRedirected | backend/backend.go:2155-2159 | Only variables whose address is taken lose the entry found for them |
| LastUses.TakenOver | backend/backend.go:2155-2159 | Any other variable has what its pointer has when its address is taken for the last time |
| LastUses.RecordMentions | backend/backend.go:2123-2131 | Going backward, the first mention met is the last one |
| LastUses.AdjustForJump | backend/backend.go:2140-2153 | A backward jump raises the last use of all variables mentioned between its label and itself, and of no others |
| LastUses.JumpBackOver | backend/backend.go:2133-2153 | One backward pass suffices: a jump back over a variable's last use is not after it |
| LastUses.NeverMentionedAgain | backend/backend.go:2122-2153 | No path starting after a variable's last use comes to an instruction that mentions it |
| LastUses.ValueNoLongerMatters | backend/backend.go:1409-1413 | Past its last use, what the variable holds affects neither control, calls, results nor any other variable |
| Procs.LastUseHolds | backend/backend.go:2122-2153 | The same for every procedure the front end emits, with no hypothesis on its structure left |
| Typers.Typer.CheckAndInferOpt | typing/typing.go:95-304 | What one instruction demands of the types of its operands, and what type its result gets, in the table in place |
| Typers.Typer.InferAndCheck | typing/typing.go:306-322 | The pass over a procedure, parameters typed first: it goes through exactly when every instruction does, with the types found |
| Typers.ComparisonRetypes | typing/typing.go:204-222 | A comparison gives its result a new type without looking at the old one, which every other instruction has to agree with |
| Typing.ComparableAre | typing/typing.go:204-222 | Integers can be compared in all ways, truth values for equality only, and nothing else |
| Typing.StrictBlockIsTyped | typing/typing.go:26-304 | What is strictly typed is typed as far as the compiler looks |
| Typable.ToVarChecks | frontend/frontend.go:306-424 | The code of an expression goes through if and only if the expression has a type, and its destination gets that type |
| Typable.StmtChecks | frontend/frontend.go:79-269 | The code of a statement goes through if and only if the statement is typed, and each name in sight afterwards stands for a variable of its type |
| Typable.TyperAcceptsExactly | typing/typing.go:306-322 | The typer accepts a compiled procedure if and only if its body is typed, at any nesting |
| Typable.NumberAsCondition | typing/typing.go:95-304 | A number as a condition is accepted and has no meaning |
| Typable.NameInItsOwnValue | frontend/frontend.go:85-100 | A new name in its own value, after the first operand of && or or, is accepted and has no meaning |
| TypeSafety.EvalTyped | typing/typing.go:26-304 | The value of a strictly typed expression is there and has its type, calls and short circuits included |
| TypeSafety.StmtFine | typing/typing.go:26-304 | A strictly typed statement has a meaning, however it ends, and names keep values of their types |
| TypeSafety.WordsAreComplete | backend/backend.go:1484-1556 | Arithmetic and comparison of 64-bit words are all that strictly typed programs need, if calls return what they are declared to |
| TypeSafety.TypedProcRuns | frontend/frontend.go:12-40 | A strictly typed procedure is accepted by the typer, and compiled and called with arguments of its parameters' types it is never stuck: it reaches its end, returns, or is still running after any number of steps |
| PrecomputeSimple.SimpleLeaves | backend/backend.go:1365-1415 | For every single instruction, what is known, partly known or not at all: table and storage afterwards hold the instruction's result and are otherwise as they were |
| PrecomputeSimple.StaleExactly | backend/backend.go:1543-1549 | Negating a never known variable into itself does what the instruction does if and only if the stale entry and the variable agree on being zero |
| TableLaws.CarriedOutExactly | backend/backend.go:1484-1494 | With known inputs an instruction is carried out exactly if all it reads is known and it does not make known again what has been given up; comparisons do not look at the latter |
| TableLaws.GivenUp | backend/backend.go:1472-1481 | An update with an operand at run time moves what was known of its result there, and the variable is not to be known by a constant again |
| TableLaws.SecondConstantIsStored | backend/backend.go:792-830 | The first constant is kept in the table and the second one stored |
| TableLaws.StopsExactly | backend/backend.go:1496-1499 | The generator stops exactly when it is to copy what it does not know, or to leave to run time part of an instruction that has no such form |
| WordLaws.ComparesAsAsked | backend/backend.go:1217-1241 | Comparing by each of the six methods, stated by the distance of the two numbers |
| WordLaws.ComparisonLaws | backend/backend.go:1217-1241 | Exactly one of less, equal and greater holds; the others are their negations; less is greater turned round, and a number is less than any that lies above it |
| WordLaws.ArithIsModular | backend/backend.go:1510-1531 | Results are 64-bit numbers congruent to those on numbers, and there is one such number for each class |
| WordLaws.SubtractionUndoes | backend/backend.go:1510-1531 | Subtraction undoes addition and the other way round, overflow or not |
| WordLaws.MultiplicationLaws | backend/backend.go:1510-1531 | Multiplication distributes over addition, commutes, and has zero and one |
| WordLaws.BitByBit | backend/backend.go:1550-1553 | Each bit of and, and of or, is that of the two bits, sign bits included |
| WordLaws.CarriedOutAsMeant | backend/backend.go:1484-1556 | What is carried out on the table leaves a known result with the meaning that these laws give the instruction |
| PrecomputeSimple.StaleIsWrong | backend/backend.go:1366-1380 | A variable that holds true is negated into itself, and the generator takes it for true afterwards |
| PrecomputeBlocks.GenFlatten | backend/backend.go:1435-1445 | Instruction by instruction generation with a stack of saved tables follows the nesting of option selects |
| PrecomputeSound.MovesFacts | backend/backend.go:772-784 | The moves at the end of a branch put every saved variable's value where it lives at run time |
| PrecomputeSound.BranchRuns | backend/backend.go:1767-1772 | A test decided at compile time and one left to run time send control the same way |
| PrecomputeSound.AgreesAtElse | backend/backend.go:772-784 | The else branch begins with a table and storage that agree with the values before the select |
| PrecomputeSound.SelectSound | backend/backend.go:749-784 | Whichever branch runs, after the select the table and storage hold the plain run's values |
| PrecomputeSound.BlockSound | backend/backend.go:1301-1415 | The same for blocks of any nesting, from any point of a program with unique labels |
| PrecomputeWhole.BlockRuns | ir/opts.go:182-205 | The plain run of a block's instructions does what the block means |
| PrecomputeWhole.PartialEvaluationSound | backend/backend.go:1301-1457 | Plain run and generated code end together, and every variable in scope has its plain value in the table or in run-time storage |
| PrecomputeOnce.OnceIsEnough | backend/backend.go:1491-1494 | If every variable a select lists has been known before and is no result of a comparison in it, no select leaves anything known that it has not saved |
| PrecomputeOnce.BranchLeaksOut | backend/backend.go:749-784 | Without that, a constant assigned in a branch not taken is believed afterwards |
| PrecomputeOnce.ComparisonLeaksOut | backend/backend.go:1532-1538 | A comparison makes its result known even if it has been known before, and leaks in the same way |
| PrecomputeExact.LeakIsWrong | backend/backend.go:749-784 | If the branch of an if without else leaves a listed variable known that was not saved, some input goes wrong |
| PrecomputeExact.RightExactly | backend/backend.go:749-784 | For an if without else whose test reads nothing its list names, compile-time evaluation is right on all inputs if and only if the branch leaves no listed variable newly known |
| PrecomputeBoth.TablesDoNotDecide | backend/backend.go:749-784 | Two selects with an else, the table the same at every point of both: one goes right on all inputs, the other does not |
| ComparisonResults.StmtResults | frontend/frontend.go:372-395 | Whatever the statement, its comparisons put their results in variables that are new to it |
| ComparisonResults.NoSelectListsResult | frontend/frontend.go:139-173 | So no select that the front end emits, at any depth, lists the result of a comparison made in it |
| ComparisonResults.CompiledSelect | frontend/frontend.go:139-173 | The condition that keeps comparisons from leaking out of a select is met by every select that comes from an if |
| CompiledItems.ItemsAreCode | frontend/frontend.go:43-274 | Statements taken as items with nested selects have exactly the code that is emitted for them |
| CompiledItems.ItemsScoped | frontend/frontend.go:139-173 | For accepted statements with the lists the front end makes, the items read only what is in scope, and each list names all that its select may change of the scope around |
| CompiledEvaluation.BlockComes | frontend/frontend.go:43-274 | Executing the items ends as the statements mean, with every name's variable holding its value |
| CompiledEvaluation.CompiledAndEvaluated | backend/backend.go:1301-1457 | Statements lowered and evaluated as far as possible: the code left comes to its end, and every name in sight has its value in the table or at run time |
| PrecomputeGens.PrecomputeGen.VarStat | backend/backend.go:1366-1380 | One look at each variable says whether all inputs and whether any variable is known |
| PrecomputeGens.PrecomputeGen.DoPrecomputation | backend/backend.go:1484-1556 | Updates the table in place as the theorems say when it can, and leaves it alone when it cannot; what it can do leaves the result that the laws of words and comparisons demand of the operands' values |
| PrecomputeGens.PrecomputeGen.StartOptionSelect | backend/backend.go:749-761 | Saves what is known of the listed variables and emits moves of their values |
| PrecomputeGens.PrecomputeGen.GenOptionEnd | backend/backend.go:772-784 | Moves what is known of saved variables to run-time storage and puts the saved entries back |
| PrecomputeGens.PrecomputeGen.EndOptionSelect | backend/backend.go:763-770 | Saved variables are no longer known after the select |
| PrecomputeGens.PrecomputeGen.GenerateSingleInst | backend/backend.go:1301-1415 | Table, saved tables and code after one instruction are those of the theorems |
| PrecomputeGens.PrecomputeGen.Generate | backend/backend.go:1435-1445 | And so over a whole list of instructions |
| Splitting.LoosestIsLast | parsing/parse_expression.go:42-54 | The operator split at is the one every other comes before in the heap's order |
| Splitting.SplitReads | parsing/parse_expression.go:395-508 | The tree found by splitting reads, from left to right, as exactly the items it was given, and looser operators are never below tighter ones; binary ones group to the left, prefix ones to the right |
| Splitting.OnlyOneTree | parsing/parse_expression.go:395-508 | No other tree over the same items respects how the operators bind |
| Splitting.SplitsExactly | parsing/parse_expression.go:42-54 | A sequence has a tree if and only if operands and operators take turns and each prefix operator comes first or after a looser operator |
| Splitting.NodeSpells | parsing/parse_expression.go:436-485 | The node of a tree, read from left to right, is the sequence, each operator between or before its own operands |
| Splitting.SplitSpells | parsing/parse_expression.go:436-485 | So is the node that splitting makes |
| Grouping.OneClass | parsing/operator_info.go:29-59 | Every operator is in exactly one of nine classes, which are listed |
| Grouping.ClassesDecide | parsing/operator_info.go:29-53 | Of two operators the one whose class is listed earlier binds tighter, and those of one class bind alike |
| Grouping.RootIsLoosestClass | parsing/parse_expression.go:436-485 | The operator at the root of an expression is of the latest class among its operators |
| Grouping.BinaryBinary | parsing/parse_expression.go:42-54 | Two binary operators: the one of the later class takes the other as its operand, on either side, and within a class the right one takes the left |
| Grouping.PrefixBinary | parsing/parse_expression.go:42-54 | A prefix operator before x op y takes x alone if its class is earlier, and all of it otherwise |
| Grouping.BinaryPrefix | parsing/parse_expression.go:42-54 | After a binary operator a prefix one is its operand if its class is earlier, and there is no expression otherwise |
| Grouping.PrefixPrefix | parsing/parse_expression.go:42-54 | A prefix operator takes the next one as its operand unless that is of a later class; then there is no expression |
| Grouping.BinaryIndex | parsing/parse_expression.go:42-54 | An index after the right operand of a binary operator belongs to that operand, except after a dot, where it belongs to the whole |
| Grouping.PrefixIndex | parsing/parse_expression.go:42-54 | An index after the operand of a prefix operator belongs to that operand |
| ExprUnits.ReadIsLine | parsing/parse_expression.go:407-433 | Scanning the tokens and jumping over what has been parsed sees the items one after another, without gaps |
| ExprUnits.TakesLeast | parsing/parse_expression.go:436-485 | Making the node of the least operator left stores it at both ends of its range and brings the map one step closer to the tree, stale inner entries notwithstanding |
| ExprUnits.OperandsFound | parsing/parse_expression.go:448-474 | What the map or a bare token gives at either side of the least operator is its operand in the tree |
| ExprUnits.TokenAlone | parsing/parse_expression.go:510-531 | A token by itself is an operand if it is a word or begins with a minus, operators written so included, and stands for its text |
| ExprUnits.LooksBehindRange | parsing/parse_expression.go:448-474 | An operator at the end of a range, with more tokens in the line, has an operand if the token behind the range is one |
| LineParses.StepMisfits | parsing/parse_expression.go:459-479 | When a prefix operator waits behind a tighter operator before it, that operator finds no right operand |
| LineParses.LineParse.CollectOps | parsing/parse_expression.go:404-433 | The heap gets exactly the operators outside brackets |
| LineParses.LineParse.ReduceOne | parsing/parse_expression.go:436-485 | One reduction through the map: the node with the operands found at either side, stored at both ends, or the operand it lacks |
| LineParses.LineParse.ParseExprUnit | parsing/parse_expression.go:395-508 | For every range whose operands and operators take turns the result is the tree of the recursive split, whose node spells the range, and an error exactly when there is none; nothing outside the range changes. A range of several tokens that starts with a binary operator is an error whatever comes before it |
| TypeDecls.ParseTypeDecl | parsing/parse_expression.go:245-289 | The parser's loop over stars and sizes reads what the recursive definition reads, errors included |
| TypeDecls.PrintReads | parsing/parse_expression.go:245-289 | Printing any canonical declaration, nested to any depth, and reading the tokens gives it back |
| TypeDecls.ReadsOnlyPrints | parsing/parse_expression.go:245-289 | Whatever is read is canonical, and its tokens are its print but for how sizes are spelled |
| TypeDecls.AtoiItoa | parsing/parse_expression.go:256-259 | A printed size is read as the same size |
| TypeDecls.SizesAre64Bit | parsing/parse_expression.go:256-259 | Exactly the numbers from -2^63 to 2^63 - 1 can be sizes |
| TypeDecls.OtherSpellings | parsing/parse_expression.go:256-259 | A plus sign or a zero before a size changes nothing |
| TypeDecls.NamesAre | parsing/parse_expression.go:630-641 | A name is a letter followed by letters, digits and underscores, by their codes |
| Tokenizers.BoundaryIsLongest | parsing/tokenizer.go:9-10 | Taking the first boundary in the table that matches takes the longest one there |
| Tokenizers.FirstCutsWell | parsing/tokenizer.go:83-132 | Where a token ends: each is a boundary, a word, a decimal, a negative number or a string, and could not have been longer |
| TokenLaws.CharactersAre | parsing/tokenizer.go:171-177 | Which bytes are blanks and which are digits |
| TokenLaws.BoundariesAre | parsing/tokenizer.go:9-46 | The thirteen boundaries of two characters and the twenty-three of one, whatever their order in the table |
| TokenLaws.DigitsAreLongest | parsing/tokenizer.go:113-118 | All digits there are, and nothing else |
| TokenLaws.NumberIsLongest | parsing/tokenizer.go:153-169 | Digits with at most one dot, up to a second dot or something that is neither |
| TokenLaws.QuoteIsFirst | parsing/tokenizer.go:89-104 | A string ends with the first quote that an even number of backslashes stands before, and has no end without one |
| TokenLaws.FirstFails | parsing/tokenizer.go:83-112 | There is no token exactly when a string is not closed or a dot in a word that is no number comes before a digit, and where the error is |
| TokenCovers.TokensCoverLine | parsing/tokenizer.go:49-136 | Tokens are well-cut pieces of the line at the indices reported, in order, with only blanks between them |
| TokenCovers.NothingLeft | parsing/tokenizer.go:65-78 | In a line with no newline inside only blanks come after the last token |
| TokenRoundTrips.BoundaryStays | parsing/tokenizer.go:122-132 | Which boundary stands at the front of a token does not depend on what comes after the blank behind it |
| TokenRoundTrips.FirstStays | parsing/tokenizer.go:83-121 | A token cut off once is cut off whole again when a blank follows it |
| TokenRoundTrips.JoinedReads | parsing/tokenizer.go:49-136 | Tokens that are read whole are read back from their joined text |
| TokenRoundTrips.JoinedTokensComeBack | parsing/tokenizer.go:49-136 | Joining the tokens of any line with single blanks and cutting the result gives the same tokens |
| TokenScans.IAfterWs | parsing/tokenizer.go:146-151 | The index after the blanks |
| TokenScans.IAfterNumLiteral | parsing/tokenizer.go:153-169 | The index after digits with at most one dot |
| TokenScans.AfterQuote | parsing/tokenizer.go:89-104 | Finds the closing quote if there is one, skipping what a backslash takes with it |
| TokenScans.MatchBoundary | parsing/tokenizer.go:122-132 | The length of the first boundary in the table, or zero if there is none |
| TokenScans.Tokenizer.Advance | parsing/tokenizer.go:74-133 | Looking at one character keeps the outcome of the whole scan the same |
| TokenScans.Tokenizer.Tokenize | parsing/tokenizer.go:49-136 | The loop over characters gives the tokens and indices, or the error and its position, that the theorems are about |
| Layouts.StructRecord.ResolveSizeAndOffset | typing/types.go:154-199 | Sizes, alignment and offsets are those of the recursive definition |
| Layouts.StructRecord.PlaceFields | typing/types.go:163-191 | Each field at the closest multiple of its alignment after the one before |
| Layouts.LeavesAligned | typing/types.go:154-199 | Every scalar of every element, however deep, lies inside the value at a multiple of its size |
| Layouts.AddressAligned | typing/types.go:154-199 | So its address is a multiple of its size whenever the value's address is aligned |
| Layouts.FieldsApart | typing/types.go:179-187 | Fields are aligned, lie inside the struct and never overlap |
| Layouts.NoPlanIsSmaller | typing/types.go:154-199 | No layout that keeps order and alignment has a smaller size or puts any field earlier |
| ArrayElements.SizeOfNested | typing/types.go:246-252 | An array without sizes is as large as its element, and one more size in front multiplies it |
| ArrayElements.ElementInside | typing/types.go:246-252 | Each tuple of indices within the sizes has an element of its own inside the array |
| ArrayElements.ElementsApart | typing/types.go:246-252 | Elements of different tuples do not overlap |
| ArrayElements.ElementsCover | typing/types.go:246-252 | Every byte of the array belongs to one of its elements |
| ArrayElements.WidestScalarAligns | typing/types.go:163-191 | The alignment of a type is the size of the widest scalar in it, at any depth |
| ResolveOrders.Resolver.ResolveStructSizeVisit | compiler.go:146-158 | It ends; it fails only if something is reached from the start in two ways; otherwise all reached structs are laid out |
| ResolveOrders.Resolver.ResolveStructSize | compiler.go:117-144 | It ends, and succeeds if and only if no struct reaches another by two walks; then every struct has been laid out after all it embeds |
| ResolveOrders.OneWayOnward | compiler.go:146-158 | A struct reached from one that reaches nothing twice reaches nothing twice either |
| ResolveOrders.CycleIsNotOneWay | compiler.go:148-150 | Any embed cycle is such a struct, so it ends in the panic |
| ResolveOrders.NoCycles | compiler.go:117-158 | Where each struct comes after all it embeds, no struct embeds itself at any depth |
| ResolveOrders.SharingIsNotOneWay | compiler.go:148-150 | A program without cycles that is refused nevertheless |
| Fsm.DFA.NewForwardDFA | parsing/fsm/fsm.go:60-68 | The table of the forward machine, later rules replacing earlier ones |
| Fsm.DFA.Feed | parsing/fsm/fsm.go:40-50 | One step of the run, the fail state being a trap |
| Fsm.NFA.NewBackwardNFA | parsing/fsm/fsm.go:88-98 | The table of the backward machine, starting from acceptance |
| Fsm.NFA.Feed | parsing/fsm/fsm.go:70-77 | One step of all states at once, duplicates kept |
| Fsm.ForwardLeads | parsing/fsm/fsm.go:40-68 | The forward machine is in a state exactly when the rules that no later one replaces lead there along the word |
| Fsm.BackwardLeads | parsing/fsm/fsm.go:70-98 | After the reversed word the backward machine is in exactly the states from which the word leads to acceptance |
| Fsm.ForwardIsBackward | parsing/fsm/fsm.go:40-98 | Whatever is accepted forward is accepted backward, for every description |
| Fsm.ForwardBackwardAgree | parsing/fsm/fsm.go:40-98 | The machines agree on a word if and only if the rules that are not replaced accept it when all the rules do |
| Fsm.AgreeExactly | parsing/fsm/fsm.go:40-98 | They agree on all words if and only if there is a set of pairs of states, closed under the rules, that pairs acceptance with nothing but acceptance |
| Fsm.FunctionalAgree | parsing/fsm/fsm.go:40-98 | They agree on all words when no state has two ways to go on one character |
| Fsm.TwoWaysDisagree | parsing/fsm/fsm.go:63-65 | A description with two ways to go on which the machines disagree |
| Fsm.TwoWaysAgree | parsing/fsm/fsm.go:63-65 | And one on which they agree on every word |
| PrintInt.DecimalParses | library/library.go:67-123 | Decimal digits have no leading zero and stand for the number |
| PrintInt.WrittenNext | library/library.go:78-101 | One turn of the division loop writes the next digit and remembers where the first one that is not zero is |
| PrintInt.ProcPrintInt | library/library.go:67-123 | For every 64-bit number the value handed over is the length word, the number's decimal digits without leading zeros and a newline, inside the 29-byte buffer |

## Left out

- ProcGens.ProcGen.GenCall: at most six pairwise distinct arguments of 8 bytes at run time and a result that fits a register; arguments passed on the stack, sign extension, known-value arguments and returned structs are not modelled.
- ProcGens.ProcGen.EnsureInRegister: requires, for a variable in no register when none is free, an unmarked register, because the compiler's search does not end without one.
- Nesting.Body.EmitJump: requires that jump and label meet, that is, that no loop open at the first of the two is left before the second; that this is so for the jumps of emitted code is not derived from the code.
- ProcGens.ProcGen.MorphToState: requires that slots of different variables do not overlap across the two states; `Histories.RunsStaySeparate` shows that this holds on every run.
- Typers.Typer.CheckAndInferOpt: integers of one size, truth values, and calls that return nothing; pointers, arrays, strings, structs, casts and integers of other sizes are not modelled, and instructions on them are refused.
- TypeSafety.TypedProcRuns: stated for bodies that divide nothing and whose conditions are truth values, because division may trap and the meaning of a condition that is a number is not defined; that calls return what they are declared to is assumed of the world, since the typer does not compare it.
- LastUses.FindLastUsage: the entry of a variable whose address is taken is stated to be what is found for the pointer, as the compiler has it, and not to be sound: writes through pointers are not followed.
- PrecomputeWhole.PartialEvaluationSound: the condition is exact for an if without else whose test reads nothing its list names (`PrecomputeExact.RightExactly`); with an else it is sufficient only, and no condition on the table is exact (`PrecomputeBoth.TablesDoNotDecide`). Short jumps, loops, calls and pointers are not part of it, every variable has one cell of storage at run time, and the limits on immediate operands of the assembler are not modelled.
- LineParses.LineParse.ParseExprUnit: sequences in which operands and operators do not take turns are not claimed to be refused, unless a binary operator comes first; calls, procedure expressions and brackets are operands that have been parsed before.
- TypeDecls.ParseTypeDecl: requires a non-empty range, since the compiler reads the last token of it; letters are those of ASCII, while the compiler accepts every letter of Unicode in a name.
- Layouts.StructRecord.ResolveSizeAndOffset: requires fields to be scalars of 1, 2, 4 or 8 bytes, arrays of them and structs with at least one field; a struct without fields has alignment 0 and divides by zero when embedded.
- TokenRoundTrips.JoinedTokensComeBack: requires at least one token, since the compiler indexes the empty text.
- Pointers, arrays and strings at run time, division and its traps, copying of values that fit no register, and widths other than 64 bits in compile-time evaluation.
- `nonTemporaryVars`, the node stack and the source lines on which temporaries are decommissioned; decommissioning itself is modelled as a step that may come at any time.
- The text of instructions, labels and error messages; columns of errors in the parser.
- `frontend.Prune`, which nothing calls, and the driver's channels and processes.
- The bodies of `proc_puts`, memory intrinsics and the rest of the library.
