/** Calls by the System V AMD64 ABI (3.2.1 and 3.2.3). */
module CallConventions {
  import opened Machine
  import opened VarStates
  import opened LoadRegisters

  const PARAM_PASSING_ORDER: seq<Reg> := [RDI, RSI, RDX, RCX, R8, R9]

  /** The first part is the same as PARAM_PASSING_ORDER. */
  const DESTROYED_BY_CALLS: seq<Reg> := [RDI, RSI, RDX, RCX, R8, R9, RAX, R10, R11]

  const PRESERVED: seq<Reg> := [RBX, R15, R14, R13, R12]

  lemma EveryRegisterIsOneOrTheOther(r: Reg)
    ensures r in DESTROYED_BY_CALLS <==> r !in PRESERVED
  {
    assert RDI == DESTROYED_BY_CALLS[0] && RSI == DESTROYED_BY_CALLS[1] && RDX == DESTROYED_BY_CALLS[2];
    assert RCX == DESTROYED_BY_CALLS[3] && R8 == DESTROYED_BY_CALLS[4] && R9 == DESTROYED_BY_CALLS[5];
    assert RAX == DESTROYED_BY_CALLS[6] && R10 == DESTROYED_BY_CALLS[7] && R11 == DESTROYED_BY_CALLS[8];
    assert RBX == PRESERVED[0] && R15 == PRESERVED[1] && R14 == PRESERVED[2] && R13 == PRESERVED[3]
        && R12 == PRESERVED[4];
  }

  lemma ParamsAreDistinct(i: nat, j: nat)
    requires i < |PARAM_PASSING_ORDER| && j < |PARAM_PASSING_ORDER| && i != j
    ensures PARAM_PASSING_ORDER[i] != PARAM_PASSING_ORDER[j]
  {
  }

  /** The callee gives back the preserved registers and leaves the caller's frame and all above it alone. */
  ghost predicate HonoursConvention(callee: Callee, name: string, frame: nat) {
    forall m: Machine ::
      && (forall r: Reg :: r in PRESERVED ==> callee(name, m).regs[r] == m.regs[r])
      && (forall a: int :: a + frame >= 0 ==> callee(name, m).mem(a) == m.mem(a))
  }

  // ----- The registers by name -----

  /** A callee may change every register but these five. */
  lemma PreservedByName(r: Reg)
    ensures r in PRESERVED <==> r == RBX || r == R12 || r == R13 || r == R14 || r == R15
    ensures r in DESTROYED_BY_CALLS <==>
      r == RAX || r == RCX || r == RDX || r == RSI || r == RDI || r == R8 || r == R9 || r == R10 || r == R11
  {
    EveryRegisterIsOneOrTheOther(r);
    assert RBX == PRESERVED[0] && R15 == PRESERVED[1] && R14 == PRESERVED[2] && R13 == PRESERVED[3];
    assert R12 == PRESERVED[4];
  }

  /** The convention: rbx and r12 to r15 come back as they were, and so do the frame and everything above it. */
  lemma ConventionByName(callee: Callee, name: string, frame: nat)
    ensures HonoursConvention(callee, name, frame) <==>
      forall m: Machine ::
        var m' := callee(name, m);
        && m'.regs[RBX] == m.regs[RBX] && m'.regs[R12] == m.regs[R12] && m'.regs[R13] == m.regs[R13]
        && m'.regs[R14] == m.regs[R14] && m'.regs[R15] == m.regs[R15]
        && forall a: int :: 0 <= a + frame ==> m'.mem(a) == m.mem(a)
  {
    forall r: Reg ensures r in PRESERVED <==> r == RBX || r == R12 || r == R13 || r == R14 || r == R15 {
      PreservedByName(r);
    }
  }

  /** Keeps, except that the variables in `dead` may be lost. */
  ghost predicate KeepsExcept(s: VarState, s': VarState, sizes: seq<nat>, dead: set<int>, m: Machine, m': Machine)
    requires Consistent(s) && SizesFit(s, sizes)
    requires Consistent(s') && SizesFit(s', sizes)
  {
    forall v :: s.IsVar(v) && s.Located(v) && v !in dead ==>
      s'.Located(v) && ValueOf(s', sizes, m', v) == ValueOf(s, sizes, m, v)
  }

  /** Code that only stores: it carries every variable outside `dead` from s to s' and leaves the registers as they
      were. */
  ghost predicate Parks(s: VarState, s': VarState, sizes: seq<nat>, dead: set<int>, code: seq<Instr>)
    requires Consistent(s) && SizesFit(s, sizes)
    requires Consistent(s') && SizesFit(s', sizes)
  {
    forall callee: Callee, m: Machine ::
      Run(callee, m, code).regs == m.regs && KeepsExcept(s, s', sizes, dead, m, Run(callee, m, code))
  }

  lemma ParksChain(s: VarState, s': VarState, s'': VarState, sizes: seq<nat>, dead: set<int>, a: seq<Instr>,
                   b: seq<Instr>)
    requires Consistent(s) && SizesFit(s, sizes)
    requires Consistent(s') && SizesFit(s', sizes)
    requires Consistent(s'') && SizesFit(s'', sizes)
    requires |s.varStorage| == |s'.varStorage|
    requires Parks(s, s', sizes, dead, a) && Parks(s', s'', sizes, dead, b)
    ensures Parks(s, s'', sizes, dead, a + b)
  {
    forall callee: Callee, m: Machine
      ensures Run(callee, m, a + b).regs == m.regs && KeepsExcept(s, s'', sizes, dead, m, Run(callee, m, a + b))
    {
      RunAppend(callee, m, a, b);
      var m' := Run(callee, m, a);
      assert KeepsExcept(s, s', sizes, dead, m, m');
      assert KeepsExcept(s', s'', sizes, dead, m', Run(callee, m', b));
    }
  }

  lemma ParksNothing(s: VarState, sizes: seq<nat>, dead: set<int>)
    requires Consistent(s) && SizesFit(s, sizes)
    ensures Parks(s, s, sizes, dead, [])
  {
  }

  lemma EvictParks(s: VarState, sizes: seq<nat>, frame: nat, register: Reg, dead: set<int>)
    requires Valid(s, sizes, frame) && s.occupiedBy[register] != INVALID
    ensures var e := Evict(s, sizes, frame, true, register);
            Valid(e.state, sizes, e.frame) && Parks(s, e.state, sizes, dead, e.code)
  {
    hide Evict, SlotsSeparate, SlotsInFrame, AvailableExact;
    EvictKeeps(s, sizes, frame, true, register);
    var e := Evict(s, sizes, frame, true, register);
    forall callee: Callee, m: Machine
      ensures Run(callee, m, e.code).regs == m.regs && KeepsExcept(s, e.state, sizes, dead, m, Run(callee, m, e.code))
    {
      EvictRuns(s, sizes, frame, true, register, callee, m);
      assert Carries(s, e.state, sizes, m, Run(callee, m, e.code));
    }
  }

  lemma ReleaseParks(s: VarState, sizes: seq<nat>, frame: nat, register: Reg, dead: set<int>)
    requires Valid(s, sizes, frame) && s.occupiedBy[register] != INVALID && s.occupiedBy[register] in dead
    ensures Valid(Release(s, register), sizes, frame) && |Release(s, register).varStorage| == |s.varStorage|
    ensures Parks(s, Release(s, register), sizes, dead, [])
  {
    hide SlotsSeparate, SlotsInFrame, AvailableExact;
    ReleaseValid(s, sizes, frame, register);
    var s' := Release(s, register);
    assert forall v :: s.IsVar(v) && v != s.occupiedBy[register] ==> s'.varStorage[v] == s.varStorage[v];
  }

  /** With the destroyed registers empty, everything located survives the call. */
  lemma CallCarries(s: VarState, sizes: seq<nat>, frame: nat, callee: Callee, name: string, m: Machine)
    requires Valid(s, sizes, frame)
    requires forall r: Reg :: r in DESTROYED_BY_CALLS ==> s.occupiedBy[r] == INVALID
    requires HonoursConvention(callee, name, frame)
    ensures Carries(s, s, sizes, m, callee(name, m))
  {
    hide SlotsSeparate, AvailableExact;
    var m' := callee(name, m);
    forall v | s.IsVar(v) && s.Located(v) ensures ValueOf(s, sizes, m', v) == ValueOf(s, sizes, m, v) {
      if s.InRegister(v) {
        EveryRegisterIsOneOrTheOther(s.varStorage[v].currentRegister);
      } else {
        var base := -s.varStorage[v].rbpOffset;
        assert base + frame >= 0;
        assert Read(m'.mem, base, sizes[v]) == Read(m.mem, base, sizes[v]);
      }
    }
  }

  /** The result is handed over in rax. */
  function TakeResult(s: VarState, vn: int): VarState
    requires Consistent(s) && s.IsVar(vn) && RAX in s.available
  {
    var s1 := if s.InRegister(vn) then Release(s, s.varStorage[vn].currentRegister) else s;
    Allocate(s1, RAX, vn)
  }

  lemma TakeResultValid(s: VarState, sizes: seq<nat>, frame: nat, vn: int)
    requires CanLoad(s, sizes, frame, vn) && s.occupiedBy[RAX] == INVALID
    ensures var s' := TakeResult(s, vn);
            && Valid(s', sizes, frame) && |s'.varStorage| == |s.varStorage|
            && s'.varStorage[vn].currentRegister == RAX
            && (forall v :: s.IsVar(v) && v != vn ==> s'.varStorage[v] == s.varStorage[v])
            && SlotsGrow(s, frame, s', frame, sizes)
  {
    hide SlotsSeparate, SlotsInFrame;
    if s.InRegister(vn) {
      var r: Reg := s.varStorage[vn].currentRegister;
      ReleaseValid(s, sizes, frame, r);
      AllocateValid(Release(s, r), sizes, frame, RAX, vn);
    } else {
      AllocateValid(s, sizes, frame, RAX, vn);
    }
  }

  /** After `code`, every located argument is in its parameter register, whatever the machine held before. */
  ghost predicate ArgumentsInPlace(s: VarState, sizes: seq<nat>, argVars: seq<int>, code: seq<Instr>)
    requires Consistent(s) && SizesFit(s, sizes) && |argVars| <= |PARAM_PASSING_ORDER|
  {
    forall callee: Callee, m: Machine, i :: 0 <= i < |argVars| && s.IsVar(argVars[i]) && s.Located(argVars[i]) ==>
      Run(callee, m, code).regs[PARAM_PASSING_ORDER[i]] == ValueOf(s, sizes, m, argVars[i])
  }

  /** The first six arguments, as far as there are any, are in rdi, rsi, rdx, rcx, r8 and r9. */
  ghost predicate ArgumentsByName(s: VarState, sizes: seq<nat>, argVars: seq<int>, code: seq<Instr>)
    requires Consistent(s) && SizesFit(s, sizes)
  {
    forall callee: Callee, m: Machine ::
      var regs := Run(callee, m, code).regs;
      && Passed(s, sizes, m, argVars, 0, regs[RDI]) && Passed(s, sizes, m, argVars, 1, regs[RSI])
      && Passed(s, sizes, m, argVars, 2, regs[RDX]) && Passed(s, sizes, m, argVars, 3, regs[RCX])
      && Passed(s, sizes, m, argVars, 4, regs[R8]) && Passed(s, sizes, m, argVars, 5, regs[R9])
  }

  ghost predicate Passed(s: VarState, sizes: seq<nat>, m: Machine, argVars: seq<int>, k: nat, word: Word)
    requires Consistent(s) && SizesFit(s, sizes)
  {
    k < |argVars| && s.IsVar(argVars[k]) && s.Located(argVars[k]) ==> word == ValueOf(s, sizes, m, argVars[k])
  }

  lemma PassedByName(s: VarState, sizes: seq<nat>, argVars: seq<int>, code: seq<Instr>)
    requires Consistent(s) && SizesFit(s, sizes) && |argVars| <= |PARAM_PASSING_ORDER|
    requires ArgumentsInPlace(s, sizes, argVars, code)
    ensures |PARAM_PASSING_ORDER| == 6 && ArgumentsByName(s, sizes, argVars, code)
  {
    hide Run, ValueOf, Consistent, SizesFit;
    var order := PARAM_PASSING_ORDER;
    assert order[0] == RDI && order[1] == RSI && order[2] == RDX && order[3] == RCX && order[4] == R8 && order[5] == R9;
  }

  /** Whatever the callee does within the convention, variables outside `dead` keep their values. */
  ghost predicate SurvivesCall(s: VarState, s': VarState, sizes: seq<nat>, frame: nat, dead: set<int>,
                               code: seq<Instr>, name: string)
    requires Consistent(s) && SizesFit(s, sizes) && Consistent(s') && SizesFit(s', sizes)
  {
    forall callee: Callee, m: Machine | HonoursConvention(callee, name, frame) ::
      KeepsExcept(s, s', sizes, dead, m, Run(callee, m, code))
  }

  lemma ArgumentsArrive(s0: VarState, s1: VarState, s2: VarState, sizes: seq<nat>, dead: set<int>,
                        load: seq<Instr>, park: seq<Instr>, argVars: seq<int>)
    requires Consistent(s0) && SizesFit(s0, sizes) && Consistent(s1) && SizesFit(s1, sizes)
    requires Consistent(s2) && SizesFit(s2, sizes)
    requires |s0.varStorage| == |s1.varStorage| == |s2.varStorage|
    requires Keeps(s0, s1, sizes, load) && Parks(s1, s2, sizes, dead, park)
    requires |argVars| <= |PARAM_PASSING_ORDER|
    requires forall i :: 0 <= i < |argVars| ==> s0.IsVar(argVars[i]) && sizes[argVars[i]] == 8
    requires forall i :: 0 <= i < |argVars| ==> s1.varStorage[argVars[i]].currentRegister == PARAM_PASSING_ORDER[i]
    ensures ArgumentsInPlace(s0, sizes, argVars, load + park)
  {
    forall callee: Callee, m: Machine, i | 0 <= i < |argVars| && s0.IsVar(argVars[i]) && s0.Located(argVars[i])
      ensures Run(callee, m, load + park).regs[PARAM_PASSING_ORDER[i]] == ValueOf(s0, sizes, m, argVars[i])
    {
      RunAppend(callee, m, load, park);
      var m1 := Run(callee, m, load);
      assert Carries(s0, s1, sizes, m, m1);
      assert Run(callee, m1, park).regs == m1.regs;
      assert ValueOf(s1, sizes, m1, argVars[i]) == ValueOf(s0, sizes, m, argVars[i]);
    }
  }

  /** What a whole call does, from s0 before it to s' after it: `load` fills the argument registers, reaching s1, and
      `park` empties the destroyed ones, reaching s2. */
  lemma CallDone(s0: VarState, s1: VarState, s2: VarState, s': VarState, sizes: seq<nat>, frame: nat, dead: set<int>,
                 load: seq<Instr>, park: seq<Instr>, name: string, retVar: int)
    requires Consistent(s0) && SizesFit(s0, sizes) && Consistent(s1) && SizesFit(s1, sizes)
    requires Valid(s2, sizes, frame) && Consistent(s') && SizesFit(s', sizes)
    requires |s0.varStorage| == |s1.varStorage| == |s2.varStorage| == |s'.varStorage|
    requires Keeps(s0, s1, sizes, load) && Parks(s1, s2, sizes, dead, park)
    requires forall r: Reg :: r in DESTROYED_BY_CALLS ==> s2.occupiedBy[r] == INVALID
    requires forall v :: s2.IsVar(v) && v != retVar ==> s'.varStorage[v] == s2.varStorage[v]
    ensures SurvivesCall(s0, s', sizes, frame, dead + {retVar}, load + park + [CallProc(name)], name)
  {
    hide Valid, HonoursConvention, KeepsExcept, Carries;
    assert Consistent(s2) && SizesFit(s2, sizes) by { ValidParts(s2, sizes, frame); }
    forall callee: Callee, m: Machine | HonoursConvention(callee, name, frame)
      ensures KeepsExcept(s0, s', sizes, dead + {retVar}, m, Run(callee, m, load + park + [CallProc(name)]))
    {
      RunAppend(callee, m, load, park);
      var m1 := Run(callee, m, load);
      var m2 := Run(callee, m1, park);
      RunAppend(callee, m, load + park, [CallProc(name)]);
      RunOne(callee, m2, CallProc(name));
      var m3 := callee(name, m2);
      assert Carries(s0, s1, sizes, m, m1);
      assert KeepsExcept(s1, s2, sizes, dead, m1, m2);
      CallCarries(s2, sizes, frame, callee, name, m2);
      CallSteps(s0, s1, s2, s', sizes, dead, retVar, m, m1, m2, m3);
    }
  }

  lemma CallSteps(s0: VarState, s1: VarState, s2: VarState, s': VarState, sizes: seq<nat>, dead: set<int>, retVar: int,
                  m: Machine, m1: Machine, m2: Machine, m3: Machine)
    requires Consistent(s0) && SizesFit(s0, sizes) && Consistent(s1) && SizesFit(s1, sizes)
    requires Consistent(s2) && SizesFit(s2, sizes) && Consistent(s') && SizesFit(s', sizes)
    requires |s0.varStorage| == |s1.varStorage| == |s2.varStorage| == |s'.varStorage|
    requires Carries(s0, s1, sizes, m, m1) && KeepsExcept(s1, s2, sizes, dead, m1, m2) && Carries(s2, s2, sizes, m2, m3)
    requires forall v :: s2.IsVar(v) && v != retVar ==> s'.varStorage[v] == s2.varStorage[v]
    ensures KeepsExcept(s0, s', sizes, dead + {retVar}, m, m3)
  {
    forall v | s0.IsVar(v) && s0.Located(v) && v !in dead + {retVar}
      ensures s'.Located(v) && ValueOf(s', sizes, m3, v) == ValueOf(s0, sizes, m, v)
    {
      assert s1.Located(v) && s2.Located(v);
      assert s'.varStorage[v] == s2.varStorage[v];
    }
  }

  lemma ValidParts(s: VarState, sizes: seq<nat>, frame: nat)
    requires Valid(s, sizes, frame)
    ensures Consistent(s) && SizesFit(s, sizes)
  {
  }
}
