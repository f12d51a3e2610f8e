/** The code generator's register and stack bookkeeping, updated in place while code is emitted. */
module ProcGens {
  import opened Machine
  import opened VarStates
  import opened LoadRegisters
  import opened Morphs
  import opened CallConventions

  class ProcGen {
    // indexed by variable number
    const sizes: seq<nat>
    var varStorage: seq<VarStorage>
    var occupiedBy: seq<int>
    var available: seq<Reg>
    var dontSwap: seq<bool>
    var nextRegToBeSwapped: Reg
    var currentFrameSize: nat
    var noNewStackStorage: bool
    var code: seq<Instr>

    /** Also what copyVarState snapshots. */
    function State(): VarState
      reads this
    {
      VarState(varStorage, occupiedBy, available, dontSwap, nextRegToBeSwapped)
    }

    ghost predicate Valid()
      reads this
    {
      VarStates.Valid(State(), sizes, currentFrameSize)
    }

    predicate IsVar(vn: int)
      reads this
    {
      0 <= vn < |varStorage|
    }

    predicate InRegister(vn: int)
      requires IsVar(vn)
      reads this
    {
      varStorage[vn].currentRegister > INVALID
    }

    predicate HasStackStorage(vn: int)
      requires IsVar(vn)
      reads this
    {
      varStorage[vn].rbpOffset != 0
    }

    /** Since the start of the method slots were only added, outside the frame as it was. */
    twostate predicate GrewSlots()
      reads this
    {
      && old(Valid()) && Valid()
      && |varStorage| == old(|varStorage|)
      && SlotsGrow(old(State()), old(currentFrameSize), State(), currentFrameSize, sizes)
      && noNewStackStorage == old(noNewStackStorage)
    }

    /** Besides, code was only appended, and it takes every located variable to its new place. */
    twostate predicate KeptAll()
      reads this
    {
      && GrewSlots()
      && old(code) <= code
      && Keeps(old(State()), State(), sizes, code[|old(code)|..])
    }

    /** Besides, code was only appended, and every variable that still has a place still has its value. */
    twostate predicate KeptRest()
      reads this
    {
      && GrewSlots()
      && old(code) <= code
      && KeepsRest(old(State()), State(), sizes, code[|old(code)|..])
    }

    constructor (sizes: seq<nat>)
      ensures this.sizes == sizes && |varStorage| == |sizes|
      ensures Valid() && code == [] && currentFrameSize == 0 && !noNewStackStorage
      ensures forall v :: IsVar(v) ==> !State().Located(v) && !State().Decommissioned(v)
    {
      this.sizes := sizes;
      varStorage := seq(|sizes|, _ => VarStorage(0, INVALID, false));
      occupiedBy := seq(NUM_REGISTERS, _ => INVALID);
      available := [RAX, RCX, RDX, RSI, RDI, R8, R9, R10, R11, RBX, R15, R14, R13, R12];
      dontSwap := NO_MARKS;
      nextRegToBeSwapped := RAX;
      currentFrameSize := 0;
      noNewStackStorage := false;
      code := [];
      new;
      assert available[0] == 0 && available[1] == 2 && available[2] == 3 && available[3] == 4;
      assert available[4] == 5 && available[5] == 6 && available[6] == 7 && available[7] == 8;
      assert available[8] == 9 && available[9] == 1 && available[10] == 13 && available[11] == 12;
      assert available[12] == 11 && available[13] == 10;
    }

    method IssueCommand(i: Instr)
      modifies this`code
      ensures code == old(code) + [i]
    {
      code := code + [i];
    }

    method ChangeRegisterBookKeeping(vn: int, register: Reg)
      requires |occupiedBy| == NUM_REGISTERS && IsVar(vn)
      modifies this`occupiedBy, this`varStorage
      ensures State() == Rebook(old(State()), vn, register)
    {
      occupiedBy := occupiedBy[register := vn];
      varStorage := varStorage[vn := varStorage[vn].(currentRegister := register)];
    }

    method AllocateRegToVar(register: Reg, vn: int)
      requires |occupiedBy| == NUM_REGISTERS && IsVar(vn)
      requires register in available
      modifies this`occupiedBy, this`varStorage, this`available
      ensures State() == Allocate(old(State()), register, vn)
    {
      hide Without;
      var idxInAvailable := 0;
      while available[idxInAvailable] != register
        invariant 0 <= idxInAvailable < |available|
        invariant register !in available[..idxInAvailable]
        decreases |available| - idxInAvailable
      {
        idxInAvailable := idxInAvailable + 1;
      }
      ghost var was := available;
      var i := idxInAvailable + 1;
      while i < |available|
        invariant idxInAvailable + 1 <= i <= |available| == |was|
        invariant forall j :: 0 <= j < idxInAvailable ==> available[j] == was[j]
        invariant forall j :: idxInAvailable <= j < i - 1 ==> available[j] == was[j + 1]
        invariant forall j :: i <= j < |was| ==> available[j] == was[j]
        modifies this`available
      {
        available := available[i - 1 := available[i]];
        i := i + 1;
      }
      available := available[..|available| - 1];
      ShiftedIsWithout(was, available, register, idxInAvailable);
      ChangeRegisterBookKeeping(vn, register);
    }

    static lemma ShiftedIsWithout(was: seq<Reg>, now: seq<Reg>, r: Reg, k: nat)
      requires k < |was| && was[k] == r && r !in was[..k]
      requires |now| == |was| - 1
      requires forall j :: 0 <= j < k ==> now[j] == was[j]
      requires forall j :: k <= j < |now| ==> now[j] == was[j + 1]
      ensures now == Without(was, r)
    {
      IndexOfUnique(was, r, k);
    }

    static lemma {:induction false} IndexOfUnique(a: seq<Reg>, r: Reg, k: nat)
      requires k < |a| && a[k] == r && r !in a[..k]
      ensures IndexOf(a, r) == k
    {
      if k > 0 {
        assert a[..k][0] == a[0];
        assert a[..k] == [a[0]] + a[1..][..k - 1];
        IndexOfUnique(a[1..], r, k - 1);
      }
    }

    method ReleaseRegister(register: Reg)
      requires TenantKnown(State(), register)
      requires register !in available
      modifies this`occupiedBy, this`varStorage, this`available
      ensures State() == Release(old(State()), register)
    {
      var currentOwner := occupiedBy[register];
      if currentOwner != INVALID {
        varStorage := varStorage[currentOwner := varStorage[currentOwner].(currentRegister := INVALID)];
      }
      occupiedBy := occupiedBy[register := INVALID];
      available := available + [register];
    }

    method EnsureStackOffsetValid(vn: int)
      requires IsVar(vn) && |sizes| == |varStorage| && !varStorage[vn].decommissioned
      modifies this`varStorage, this`currentFrameSize
      ensures Framed(State(), currentFrameSize) == GiveSlot(old(State()), sizes, old(currentFrameSize), vn)
    {
      if varStorage[vn].rbpOffset != 0 {
        return;
      }
      currentFrameSize := currentFrameSize + sizes[vn];
      varStorage := varStorage[vn := varStorage[vn].(rbpOffset := currentFrameSize)];
    }

    method LoadRegisterWithVar(register: Reg, vn: int)
      requires CanLoad(State(), sizes, currentFrameSize, vn)
      modifies this`occupiedBy, this`varStorage, this`available, this`currentFrameSize, this`code
      ensures var e := LoadRegister(old(State()), sizes, old(currentFrameSize), !noNewStackStorage, register, vn);
              State() == e.state && currentFrameSize == e.frame && code == old(code) + e.code
    {
      hide Keeps, KeepsRest, SlotsGrow, SlotsSeparate, SlotsInFrame, Without, IndexOf, PerfectSize;
      var vnAlreadyInRegister := InRegister(vn);
      var vnRegister := varStorage[vn].currentRegister;
      var currentTenant := occupiedBy[register];
      if currentTenant == INVALID {
        if vnAlreadyInRegister {
          IssueCommand(MovRegReg(register, vnRegister));
          ReleaseRegister(vnRegister);
        }
        AllocateRegToVar(register, vn);
      } else {
        if currentTenant == vn {
          return;
        }
        if vnAlreadyInRegister {
          IssueCommand(Xchg(vnRegister, register));
          ChangeRegisterBookKeeping(currentTenant, vnRegister);
          ChangeRegisterBookKeeping(vn, register);
          return;
        }
        if available != [] {
          var newReg := available[|available| - 1];
          IssueCommand(MovRegReg(newReg, register));
          AllocateRegToVar(newReg, currentTenant);
          ChangeRegisterBookKeeping(vn, register);
        } else {
          if !noNewStackStorage {
            EnsureStackOffsetValid(currentTenant);
          }
          if HasStackStorage(currentTenant) {
            IssueCommand(MovMemReg(varStorage[currentTenant].rbpOffset, sizes[currentTenant], register));
          }
          ChangeRegisterBookKeeping(vn, register);
          varStorage := varStorage[currentTenant := varStorage[currentTenant].(currentRegister := INVALID)];
        }
      }
      // deferred: runs on every path that has not returned above
      if !vnAlreadyInRegister && HasStackStorage(vn) {
        IssueCommand(MovRegMem(register, sizes[vn], varStorage[vn].rbpOffset));
      }
    }

    /** Every instruction begins with no register marked. */
    method ClearMarks()
      requires Valid()
      modifies this`dontSwap
      ensures KeptAll() && State() == old(State()).(dontSwap := NO_MARKS)
    {
      ghost var s := State();
      for i := 0 to NUM_REGISTERS
        invariant |dontSwap| == NUM_REGISTERS && forall k :: 0 <= k < i ==> !dontSwap[k]
      {
        dontSwap := dontSwap[i := false];
      }
      assert dontSwap == NO_MARKS;
      SlotsGrowNowhere(s, currentFrameSize, sizes);
      KeepsNothingMoved(s, s, sizes);
      assert code[|old(code)|..] == [];
      MarksDoNotMatter(s, s, State(), sizes, currentFrameSize, []);
    }

    method EnsureInRegister(vn: int) returns (reg: Reg)
      requires CanLoad(State(), sizes, currentFrameSize, vn)
      // with all registers taken and marked the search for one to take over never ends
      requires InRegister(vn) || available != [] || exists r: Reg :: !dontSwap[r]
      requires !noNewStackStorage
      modifies this`occupiedBy, this`varStorage, this`available, this`currentFrameSize, this`code
      modifies this`dontSwap, this`nextRegToBeSwapped
      ensures KeptAll()
      ensures varStorage[vn].currentRegister == reg && occupiedBy[reg] == vn
      ensures dontSwap == old(dontSwap)[reg := true]
      // a register marked earlier keeps its tenant
      ensures forall r: Reg :: old(dontSwap[r]) && old(occupiedBy[r]) != INVALID ==> occupiedBy[r] == old(occupiedBy[r])
      ensures forall v :: IsVar(v) ==> varStorage[v].decommissioned == old(varStorage)[v].decommissioned
    {
      hide SlotsSeparate, SlotsInFrame, Keeps, SlotsGrow;
      ghost var s, frame := State(), currentFrameSize;
      if InRegister(vn) {
        reg := varStorage[vn].currentRegister;
      } else if available != [] {
        reg := available[|available| - 1];
        LoadRegisterWithVar(reg, vn);
      } else {
        reg := nextRegToBeSwapped;
        reg := SkipMarked(reg);
        LoadRegisterWithVar(reg, vn);
        nextRegToBeSwapped := (reg + 1) % NUM_REGISTERS;
      }
      // deferred
      dontSwap := dontSwap[reg := true];
      EnsuredKeeps(s, sizes, frame, reg, vn, nextRegToBeSwapped);
      assert code[|old(code)|..] == LoadRegister(s, sizes, frame, true, reg, vn).code;
    }

    /** The search for an unmarked register. */
    method SkipMarked(start: Reg) returns (reg: Reg)
      requires |dontSwap| == NUM_REGISTERS && exists r: Reg :: !dontSwap[r]
      ensures !dontSwap[reg]
    {
      reg := start;
      ghost var free: Reg :| !dontSwap[free];
      while dontSwap[reg]
        decreases (free - reg) % NUM_REGISTERS
      {
        StepsCloser(free, reg);
        reg := (reg + 1) % NUM_REGISTERS;
      }
    }

    /** Where that search is after some turns. */
    static function Searched(start: Reg, turns: nat): Reg {
      if turns == 0 then start else (Searched(start, turns - 1) + 1) % NUM_REGISTERS
    }

    static lemma {:induction false} SearchedAt(start: Reg, turns: nat)
      ensures Searched(start, turns) == (start + turns) % NUM_REGISTERS
    {
      if turns > 0 {
        SearchedAt(start, turns - 1);
        RoundAgain(start + turns - 1);
      }
    }

    static lemma RoundAgain(x: nat)
      ensures (x % 14 + 1) % 14 == (x + 1) % 14
    {
      var q, r := x / 14, x % 14;
      if r < 13 {
        assert x + 1 == 14 * q + (r + 1);
      } else {
        assert x + 1 == 14 * (q + 1);
      }
    }

    /** The search comes to an unmarked register if and only if there is one. */
    static lemma SearchEnds(marks: seq<bool>, start: Reg)
      requires |marks| == NUM_REGISTERS
      ensures (exists turns :: !marks[Searched(start, turns)]) <==> (exists r: Reg :: !marks[r])
    {
      hide Searched;
      if r: Reg :| !marks[r] {
        var turns := SearchReaches(start, r);
      }
    }

    static lemma SearchReaches(start: Reg, r: Reg) returns (turns: nat)
      ensures Searched(start, turns) == r
    {
      turns := if start <= r then r - start else r - start + NUM_REGISTERS;
      SearchedAt(start, turns);
    }

    static lemma StepsCloser(goal: Reg, at: Reg)
      requires goal != at
      ensures (goal - (at + 1) % NUM_REGISTERS) % NUM_REGISTERS < (goal - at) % NUM_REGISTERS
    {
    }

    method AllocateRuntimeStorage(vn: int)
      requires CanLoad(State(), sizes, currentFrameSize, vn)
      modifies this`occupiedBy, this`varStorage, this`available, this`currentFrameSize, this`code
      ensures KeptAll()
      ensures State().Located(vn)
      ensures forall v :: IsVar(v) && v != vn ==> varStorage[v] == old(varStorage)[v]
      ensures dontSwap == old(dontSwap) && nextRegToBeSwapped == old(nextRegToBeSwapped)
    {
      ghost var s, frame := State(), currentFrameSize;
      if InRegister(vn) || HasStackStorage(vn) {
        return;
      }
      if available != [] {
        var reg := available[|available| - 1];
        assert occupiedBy[reg] == INVALID;
        LoadRegisterWithVar(reg, vn);
        LoadRegisterKeeps(s, sizes, frame, !noNewStackStorage, reg, vn);
        LoadRegisterPlaces(s, sizes, frame, !noNewStackStorage, reg, vn);
      } else {
        GiveSlotValid(s, sizes, frame, vn);
        EnsureStackOffsetValid(vn);
      }
    }

    /** Send the tenant of a register to its slot, giving it one first if that is allowed. */
    method EvictTenant(allocateNewStackStorage: bool, register: Reg)
      requires Valid() && occupiedBy[register] != INVALID
      modifies this`occupiedBy, this`varStorage, this`available, this`currentFrameSize, this`code
      ensures var e := Evict(old(State()), sizes, old(currentFrameSize), allocateNewStackStorage, register);
              State() == e.state && currentFrameSize == e.frame && code == old(code) + e.code
    {
      var currentTenant := occupiedBy[register];
      if allocateNewStackStorage {
        EnsureStackOffsetValid(currentTenant);
      }
      if HasStackStorage(currentTenant) {
        IssueCommand(MovMemReg(varStorage[currentTenant].rbpOffset, sizes[currentTenant], register));
      }
      ReleaseRegister(register);
    }

    method FindOrMakeFreeReg() returns (reg: Reg)
      requires Valid()
      modifies this`occupiedBy, this`varStorage, this`available, this`currentFrameSize, this`code
      ensures KeptAll()
      ensures occupiedBy[reg] == INVALID
      ensures dontSwap == old(dontSwap) && nextRegToBeSwapped == old(nextRegToBeSwapped)
    {
      hide Evict;
      ghost var s, frame := State(), currentFrameSize;
      if available != [] {
        KeepsNothingMoved(s, s, sizes);
        return available[|available| - 1];
      }
      reg := R9;
      assert occupiedBy[reg] != INVALID;
      EvictKeeps(s, sizes, frame, true, reg);
      EvictPlaces(s, sizes, frame, true, reg);
      EvictTenant(true, reg);
    }

    /** The value of a tenant without a slot is given up when no new slot may be allocated. */
    ghost predicate TenantsHaveSlots(targets: seq<Reg>)
      requires Valid()
      reads this
    {
      forall r: Reg :: r in targets && occupiedBy[r] != INVALID ==> HasStackStorage(occupiedBy[r])
    }

    /** What turns have kept so far and what the next one keeps is kept by both together. */
    static lemma TurnKeeps(lossless: bool, s0: VarState, s: VarState, s': VarState, sizes: seq<nat>,
                           code0: seq<Instr>, code: seq<Instr>, code': seq<Instr>)
      requires Consistent(s0) && SizesFit(s0, sizes) && Consistent(s) && SizesFit(s, sizes)
      requires Consistent(s') && SizesFit(s', sizes) && code0 <= code <= code'
      requires KeepsRest(s0, s, sizes, code[|code0|..]) && KeepsRest(s, s', sizes, code'[|code|..])
      requires lossless ==> Keeps(s0, s, sizes, code[|code0|..]) && Keeps(s, s', sizes, code'[|code|..])
      ensures KeepsRest(s0, s', sizes, code'[|code0|..])
      ensures lossless ==> Keeps(s0, s', sizes, code'[|code0|..])
    {
      hide Keeps, KeepsRest, Consistent;
      KeepsRestChain(s0, s, s', sizes, code[|code0|..], code'[|code|..]);
      assert code'[|code0|..] == code[|code0|..] + code'[|code|..];
      if lossless {
        KeepsChain(s0, s, s', sizes, code[|code0|..], code'[|code|..]);
      }
    }

    /** One turn of FreeUpRegisters: the tenant moves to the first free register that is no target, or else to its
        slot. */
    method FreeUpOne(allocateNewStackStorage: bool, targetList: seq<Reg>, target: Reg)
      requires Valid() && occupiedBy[target] != INVALID && target in targetList
      modifies this`occupiedBy, this`varStorage, this`available, this`currentFrameSize, this`code
      ensures GrewSlots()
      ensures occupiedBy[target] == INVALID
      ensures forall r: Reg :: r in targetList && r != target ==> occupiedBy[r] == old(occupiedBy)[r]
      ensures forall v :: IsVar(v) && v != old(occupiedBy[target]) ==> varStorage[v] == old(varStorage)[v]
      ensures allocateNewStackStorage || old(HasStackStorage(occupiedBy[target])) ==> KeptAll()
      ensures KeptRest()
      ensures dontSwap == old(dontSwap) && nextRegToBeSwapped == old(nextRegToBeSwapped)
    {
      hide LoadRegister, Evict, SlotsSeparate, SlotsInFrame, Keeps, KeepsRest, SlotsGrow;
      ghost var s, frame := State(), currentFrameSize;
      var currentTenant := occupiedBy[target];
      var k := 0;
      while k < |available| && available[k] in targetList
        modifies {}
      {
        k := k + 1;
      }
      if k < |available| {
        var reg := available[k];
        assert occupiedBy[reg] == INVALID;
        LoadRegisterWithVar(reg, currentTenant);
        LoadRegisterKeeps(s, sizes, frame, !noNewStackStorage, reg, currentTenant);
        LoadRegisterPlaces(s, sizes, frame, !noNewStackStorage, reg, currentTenant);
        KeepsIsRest(s, State(), sizes, code[|old(code)|..]);
      } else {
        EvictTenant(allocateNewStackStorage, target);
        EvictPlaces(s, sizes, frame, allocateNewStackStorage, target);
        if allocateNewStackStorage || s.HasStackStorage(currentTenant) {
          EvictKeeps(s, sizes, frame, allocateNewStackStorage, target);
          KeepsIsRest(s, State(), sizes, code[|old(code)|..]);
        } else {
          EvictLoses(s, sizes, frame, target);
        }
      }
    }

    method FreeUpRegisters(allocateNewStackStorage: bool, targetList: seq<Reg>)
      requires Valid()
      modifies this`occupiedBy, this`varStorage, this`available, this`currentFrameSize, this`code
      ensures GrewSlots()
      ensures forall r: Reg :: r in targetList ==> occupiedBy[r] == INVALID
      ensures allocateNewStackStorage || old(TenantsHaveSlots(targetList)) ==> KeptAll()
      ensures KeptRest()
      ensures dontSwap == old(dontSwap) && nextRegToBeSwapped == old(nextRegToBeSwapped)
    {
      hide Keeps, KeepsRest, SlotsGrow, SlotsSeparate, SlotsInFrame, AvailableExact;
      ghost var s0, frame0, code0 := State(), currentFrameSize, code;
      SlotsGrowNowhere(s0, frame0, sizes);
      ghost var lossless := allocateNewStackStorage || TenantsHaveSlots(targetList);
      KeepsNothingMoved(s0, s0, sizes);
      KeepsIsRest(s0, s0, sizes, []);
      assert code[|code0|..] == [];
      for i := 0 to |targetList|
        invariant Valid() && |varStorage| == |s0.varStorage|
        invariant forall k :: 0 <= k < i ==> occupiedBy[targetList[k]] == INVALID
        invariant lossless ==> allocateNewStackStorage || TenantsHaveSlots(targetList)
        invariant code0 <= code && KeepsRest(s0, State(), sizes, code[|code0|..])
        invariant lossless ==> Keeps(s0, State(), sizes, code[|code0|..])
        invariant SlotsGrow(s0, frame0, State(), currentFrameSize, sizes)
        invariant dontSwap == s0.dontSwap && nextRegToBeSwapped == s0.nextRegToBeSwapped
        invariant noNewStackStorage == old(noNewStackStorage)
      {
        var target := targetList[i];
        if occupiedBy[target] != INVALID {
          ghost var s, frame, before := State(), currentFrameSize, code;
          FreeUpOne(allocateNewStackStorage, targetList, target);
          SlotsGrowChain(s0, frame0, s, frame, State(), currentFrameSize, sizes);
          TurnKeeps(lossless, s0, s, State(), sizes, code0, before, code);
        }
      }
    }

    method Decommission(vn: int)
      requires Valid() && IsVar(vn)
      modifies this`occupiedBy, this`varStorage, this`available
      ensures Valid() && |varStorage| == |old(varStorage)| && State() == Forget(old(State()), vn)
      ensures varStorage[vn] == VarStorage(0, INVALID, true)
      ensures forall v :: IsVar(v) && v != vn ==> varStorage[v] == old(varStorage)[v]
    {
      ghost var s := State();
      varStorage := varStorage[vn := varStorage[vn].(decommissioned := true)];
      var reg := varStorage[vn].currentRegister;
      if reg != INVALID {
        ReleaseRegister(reg);
      }
      varStorage := varStorage[vn := varStorage[vn].(rbpOffset := 0)];
      ForgetValid(s, sizes, currentFrameSize, vn);
      assert State() == Forget(s, vn);
    }

    /** Go back to a state that was copied before. The frame counter is not turned back. */
    method Restore(state: VarState)
      requires |state.varStorage| == |sizes|
      modifies this`occupiedBy, this`varStorage, this`available, this`dontSwap, this`nextRegToBeSwapped
      ensures State() == state
    {
      varStorage, occupiedBy, available := state.varStorage, state.occupiedBy, state.available;
      dontSwap, nextRegToBeSwapped := state.dontSwap, state.nextRegToBeSwapped;
    }

    method MorphTurn(targetState: VarState, regId: Reg) returns (generationHappened: bool)
      requires noNewStackStorage && |targetState.varStorage| == |varStorage|
      requires |occupiedBy| == NUM_REGISTERS && IsVar(occupiedBy[regId])
      requires CanLoad(State(), sizes, currentFrameSize, occupiedBy[regId])
      requires targetState.varStorage[occupiedBy[regId]].currentRegister < NUM_REGISTERS
      modifies this`occupiedBy, this`varStorage, this`available, this`currentFrameSize, this`code
      ensures var e := Turn(old(State()), targetState, sizes, old(currentFrameSize), regId);
              State() == e.state && currentFrameSize == e.frame && code == old(code) + e.code
      ensures !generationHappened ==> code == old(code)
    {
      var ourOccupiedBy := occupiedBy[regId];
      generationHappened := true;
      if targetState.Decommissioned(ourOccupiedBy) ||
         (!targetState.InRegister(ourOccupiedBy) && !targetState.HasStackStorage(ourOccupiedBy)) {
        // the value is not needed where the jump leads
        ReleaseRegister(regId);
        generationHappened := false;
      } else if targetState.InRegister(ourOccupiedBy) {
        LoadRegisterWithVar(targetState.varStorage[ourOccupiedBy].currentRegister, ourOccupiedBy);
      } else {
        varStorage := varStorage[ourOccupiedBy :=
          varStorage[ourOccupiedBy].(rbpOffset := targetState.varStorage[ourOccupiedBy].rbpOffset)];
        IssueCommand(MovMemReg(varStorage[ourOccupiedBy].rbpOffset, sizes[ourOccupiedBy], regId));
        ReleaseRegister(regId);
      }
    }

    /** One register of the target: send its wrong tenants away, then fetch the right one. */
    method MorphRegister(targetState: VarState, regId: Reg, ghost s0: VarState, ghost code0: seq<Instr>)
      returns (generationHappened: bool)
      requires noNewStackStorage && code0 <= code
      requires |occupiedBy| == |targetState.occupiedBy| == NUM_REGISTERS
      requires Progress(s0, State(), targetState, sizes, currentFrameSize, code[|code0|..], regId)
      modifies this`occupiedBy, this`varStorage, this`available, this`currentFrameSize, this`code
      ensures currentFrameSize == old(currentFrameSize) && code0 <= code
      ensures |occupiedBy| == NUM_REGISTERS
      ensures Progress(s0, State(), targetState, sizes, currentFrameSize, code[|code0|..], regId + 1)
      ensures !generationHappened ==> code == old(code)
    {
      hide Progress, Turn, LoadRegister, Misplaced, Valid;
      ghost var frame := currentFrameSize;
      generationHappened := false;
      var theirOccupiedBy := targetState.occupiedBy[regId];
      while occupiedBy[regId] != theirOccupiedBy && occupiedBy[regId] != INVALID
        invariant currentFrameSize == frame && code0 <= code && |occupiedBy| == NUM_REGISTERS
        invariant Progress(s0, State(), targetState, sizes, frame, code[|code0|..], regId)
        invariant !generationHappened ==> code == old(code)
        decreases Misplaced(State(), targetState)
      {
        ghost var s, before := State(), code;
        TurnProgress(s0, s, targetState, sizes, frame, regId, code[|code0|..]);
        ghost var e := Turn(s, targetState, sizes, frame, regId);
        var generated := MorphTurn(targetState, regId);
        generationHappened := generationHappened || generated;
        assert code[|code0|..] == before[|code0|..] + e.code;
      }
      ghost var s, before := State(), code;
      FinishProgress(s0, s, targetState, sizes, frame, regId, before[|code0|..]);
      ghost var e := Finish(s, targetState, sizes, frame, regId);
      if occupiedBy[regId] != theirOccupiedBy && !varStorage[theirOccupiedBy].decommissioned {
        LoadRegisterWithVar(regId, theirOccupiedBy);
        generationHappened := true;
      }
      assert State() == e.state;
      assert code[|code0|..] == before[|code0|..] + e.code;
    }

    /** Emit the code that rearranges storage into the target state. The bookkeeping itself is put back afterwards. */
    method MorphToState(targetState: VarState) returns (generationHappened: bool)
      requires Valid() && !noNewStackStorage
      requires Morphable(State(), targetState, sizes, currentFrameSize)
      modifies this`occupiedBy, this`varStorage, this`available, this`currentFrameSize, this`code
      modifies this`dontSwap, this`nextRegToBeSwapped, this`noNewStackStorage
      ensures State() == old(State()) && currentFrameSize == old(currentFrameSize)
      ensures noNewStackStorage == old(noNewStackStorage)
      ensures old(code) <= code
      // a variable both states locate reaches its place in the target state, except one held only on the stack, in two
      // different slots
      ensures forall v :: IsVar(v) && Live(State(), targetState, v) && sizes[v] > 0 ==>
                (Arrives(State(), targetState, sizes, code[|old(code)|..], v) <==> !Stranded(State(), targetState, v))
      ensures !generationHappened ==> code == old(code)
    {
      var backup := State();
      ghost var code0, frame := code, currentFrameSize;
      noNewStackStorage := true;
      generationHappened := false;
      StartPlaced(backup, targetState, sizes, frame);
      assert code[|code0|..] == [];
      for regId := 0 to NUM_REGISTERS
        invariant noNewStackStorage && currentFrameSize == frame && code0 <= code
        invariant |occupiedBy| == NUM_REGISTERS
        invariant Progress(backup, State(), targetState, sizes, frame, code[|code0|..], regId)
        invariant !generationHappened ==> code == code0
      {
        var generated := MorphRegister(targetState, regId, backup, code0);
        generationHappened := generationHappened || generated;
      }
      forall v | 0 <= v < |backup.varStorage| && Live(backup, targetState, v) && sizes[v] > 0
        ensures Arrives(backup, targetState, sizes, code[|code0|..], v) <==> !Stranded(backup, targetState, v)
      {
        MorphDone(backup, State(), targetState, sizes, frame, code[|code0|..], v);
      }
      noNewStackStorage := false;
      Restore(backup);
    }

    /** Bring every argument into its register, one after another. */
    method LoadArguments(argVars: seq<int>)
      requires Valid() && !noNewStackStorage
      requires |argVars| <= |PARAM_PASSING_ORDER|
      requires forall i, j :: 0 <= i < j < |argVars| ==> argVars[i] != argVars[j]
      requires forall i :: 0 <= i < |argVars| ==> CanLoad(State(), sizes, currentFrameSize, argVars[i])
      modifies this`occupiedBy, this`varStorage, this`available, this`currentFrameSize, this`code
      ensures KeptAll()
      ensures forall v :: IsVar(v) ==> varStorage[v].decommissioned == old(varStorage)[v].decommissioned
      ensures forall i :: 0 <= i < |argVars| ==>
          IsVar(argVars[i]) && varStorage[argVars[i]].currentRegister == PARAM_PASSING_ORDER[i]
    {
      hide Keeps, SlotsGrow, SlotsSeparate, SlotsInFrame, AvailableExact, LoadRegister;
      ghost var s0, frame0, code0 := State(), currentFrameSize, code;
      SlotsGrowNowhere(s0, frame0, sizes);
      KeepsNothingMoved(s0, s0, sizes);
      assert code[|code0|..] == [];
      for i := 0 to |argVars|
        invariant Valid() && |varStorage| == |s0.varStorage| && code0 <= code
        invariant Keeps(s0, State(), sizes, code[|code0|..])
        invariant SlotsGrow(s0, frame0, State(), currentFrameSize, sizes)
        invariant forall v :: IsVar(v) ==> varStorage[v].decommissioned == s0.varStorage[v].decommissioned
        invariant forall j :: 0 <= j < i ==> varStorage[argVars[j]].currentRegister == PARAM_PASSING_ORDER[j]
      {
        ghost var s, frame, before := State(), currentFrameSize, code;
        var reg := PARAM_PASSING_ORDER[i];
        var arg := argVars[i];
        assert CanLoad(s, sizes, frame, arg) by {
          assert CanLoad(s0, sizes, frame0, arg);
        }
        LoadRegisterKeeps(s, sizes, frame, true, reg, arg);
        LoadRegisterPlaces(s, sizes, frame, true, reg, arg);
        LoadRegisterWithVar(reg, arg);
        SlotsGrowChain(s0, frame0, s, frame, State(), currentFrameSize, sizes);
        KeepsChain(s0, s, State(), sizes, before[|code0|..], code[|before|..]);
        assert code[|code0|..] == before[|code0|..] + code[|before|..];
        forall j | 0 <= j < i ensures varStorage[argVars[j]].currentRegister == PARAM_PASSING_ORDER[j] {
          ParamsAreDistinct(j, i);
          assert s.occupiedBy[reg] != argVars[j];
        }
      }
    }

    /** One turn of ParkDestroyed. */
    method ParkOne(lastUsage: seq<nat>, optIdx: nat, register: Reg)
      requires Valid() && |lastUsage| == |varStorage| && occupiedBy[register] != INVALID
      modifies this`occupiedBy, this`varStorage, this`available, this`currentFrameSize, this`code
      ensures Valid() && |varStorage| == |old(varStorage)| && old(code) <= code
      ensures occupiedBy == old(occupiedBy)[register := INVALID]
      ensures Parks(old(State()), State(), sizes, UsedLast(lastUsage, optIdx), code[|old(code)|..])
      ensures SlotsGrow(old(State()), old(currentFrameSize), State(), currentFrameSize, sizes)
      ensures forall v :: IsVar(v) ==> varStorage[v].decommissioned == old(varStorage)[v].decommissioned
    {
      hide Parks, SlotsGrow, SlotsSeparate, SlotsInFrame, AvailableExact, Evict, UsedLast;
      ghost var s, frame, before, dead := State(), currentFrameSize, code, UsedLast(lastUsage, optIdx);
      if lastUsage[occupiedBy[register]] != optIdx {
        EvictParks(s, sizes, frame, register, dead);
        EvictPlaces(s, sizes, frame, true, register);
        EvictTenant(true, register);
      } else {
        IsUsedLast(lastUsage, optIdx, occupiedBy[register]);
        ReleaseParks(s, sizes, frame, register, dead);
        ReleaseGrows(s, frame, register, sizes);
        TenantedIsUnavailable(s, sizes, frame, register);
        ReleaseRegister(register);
        assert code[|before|..] == [];
      }
    }

    /** Empty the registers a call destroys, storing the tenants that are used again. */
    method ParkDestroyed(lastUsage: seq<nat>, optIdx: nat)
      requires Valid() && |lastUsage| == |varStorage|
      modifies this`occupiedBy, this`varStorage, this`available, this`currentFrameSize, this`code
      ensures Valid() && |varStorage| == |old(varStorage)|
      ensures forall r: Reg :: r in DESTROYED_BY_CALLS ==> occupiedBy[r] == INVALID
      ensures old(code) <= code
      ensures Parks(old(State()), State(), sizes, UsedLast(lastUsage, optIdx), code[|old(code)|..])
      ensures SlotsGrow(old(State()), old(currentFrameSize), State(), currentFrameSize, sizes)
      ensures forall v :: IsVar(v) ==> varStorage[v].decommissioned == old(varStorage)[v].decommissioned
    {
      hide Parks, SlotsGrow, SlotsSeparate, SlotsInFrame, AvailableExact, UsedLast;
      ghost var s0, frame0, code0 := State(), currentFrameSize, code;
      ghost var dead := UsedLast(lastUsage, optIdx);
      SlotsGrowNowhere(s0, frame0, sizes);
      ParksNothing(s0, sizes, dead);
      assert code[|code0|..] == [];
      for i := 0 to |DESTROYED_BY_CALLS|
        invariant Valid() && |varStorage| == |s0.varStorage| && code0 <= code
        invariant Parks(s0, State(), sizes, dead, code[|code0|..])
        invariant SlotsGrow(s0, frame0, State(), currentFrameSize, sizes)
        invariant forall v :: IsVar(v) ==> varStorage[v].decommissioned == s0.varStorage[v].decommissioned
        invariant forall k :: 0 <= k < i ==> occupiedBy[DESTROYED_BY_CALLS[k]] == INVALID
      {
        var reg := DESTROYED_BY_CALLS[i];
        if occupiedBy[reg] != INVALID {
          ghost var s, frame, before := State(), currentFrameSize, code;
          ParkOne(lastUsage, optIdx, reg);
          SlotsGrowChain(s0, frame0, s, frame, State(), currentFrameSize, sizes);
          ParksChain(s0, s, State(), sizes, dead, before[|code0|..], code[|before|..]);
          assert code[|code0|..] == before[|code0|..] + code[|before|..];
        }
      }
    }

    static lemma IsUsedLast(lastUsage: seq<nat>, optIdx: nat, v: int)
      requires 0 <= v < |lastUsage| && lastUsage[v] == optIdx
      ensures v in UsedLast(lastUsage, optIdx)
    {
    }

    static ghost function UsedLast(lastUsage: seq<nat>, optIdx: nat): set<int> {
      set v | 0 <= v < |lastUsage| && lastUsage[v] == optIdx
    }

    method TakeResultFromRax(retVar: int)
      requires CanLoad(State(), sizes, currentFrameSize, retVar) && occupiedBy[RAX] == INVALID
      modifies this`occupiedBy, this`varStorage, this`available
      ensures State() == TakeResult(old(State()), retVar)
    {
      hide SlotsSeparate, SlotsInFrame;
      if InRegister(retVar) {
        ReleaseRegister(varStorage[retVar].currentRegister);
      }
      AllocateRegToVar(RAX, retVar);
    }

    /** A call with at most six arguments, all run-time variables of 8 bytes, and a result that fits a register. */
    method GenCall(name: string, argVars: seq<int>, retVar: int, lastUsage: seq<nat>, optIdx: nat)
      returns (ghost load: seq<Instr>, ghost park: seq<Instr>)
      requires Valid() && !noNewStackStorage && |lastUsage| == |varStorage|
      requires |argVars| <= |PARAM_PASSING_ORDER|
      requires forall i, j :: 0 <= i < j < |argVars| ==> argVars[i] != argVars[j]
      requires forall i :: 0 <= i < |argVars| ==>
          CanLoad(State(), sizes, currentFrameSize, argVars[i]) && sizes[argVars[i]] == 8
      requires CanLoad(State(), sizes, currentFrameSize, retVar)
      modifies this`occupiedBy, this`varStorage, this`available, this`currentFrameSize, this`code
      ensures GrewSlots()
      ensures code == old(code) + load + park + [CallProc(name)]
      // at the call, every argument's register holds the argument
      ensures ArgumentsInPlace(old(State()), sizes, argVars, load + park)
      ensures ArgumentsByName(old(State()), sizes, argVars, load + park)
      // after it, the result is in rax, and whatever is used again still has its value
      ensures varStorage[retVar].currentRegister == RAX
      ensures SurvivesCall(old(State()), State(), sizes, currentFrameSize, UsedLast(lastUsage, optIdx) + {retVar},
                           load + park + [CallProc(name)], name)
    {
      hide Parks, Keeps, SlotsGrow, SlotsSeparate, SlotsInFrame, AvailableExact, HonoursConvention, ArgumentsInPlace,
          ArgumentsByName,
          SurvivesCall, TakeResult;
      ghost var s0, frame0 := State(), currentFrameSize;
      LoadArguments(argVars);
      ghost var s1, frame1 := State(), currentFrameSize;
      load := code[|old(code)|..];
      ParkDestroyed(lastUsage, optIdx);
      ghost var s2, frame := State(), currentFrameSize;
      park := code[|old(code) + load|..];
      IssueCommand(CallProc(name));
      EveryRegisterIsOneOrTheOther(RAX);
      TakeResultValid(s2, sizes, frame, retVar);
      TakeResultFromRax(retVar);
      SlotsGrowChain(s0, frame0, s1, frame1, s2, frame, sizes);
      SlotsGrowChain(s0, frame0, s2, frame, State(), frame, sizes);
      ArgumentsArrive(s0, s1, s2, sizes, UsedLast(lastUsage, optIdx), load, park, argVars);
      PassedByName(s0, sizes, argVars, load + park);
      CallDone(s0, s1, s2, State(), sizes, frame, UsedLast(lastUsage, optIdx), load, park, name, retVar);
    }
  }
}
