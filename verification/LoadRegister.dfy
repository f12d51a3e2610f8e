/** Bringing a variable into a given register: what happens to the bookkeeping and which code is emitted. */
module LoadRegisters {
  import opened Machine
  import opened VarStates

  datatype Emitted = Emitted(state: VarState, frame: nat, code: seq<Instr>)

  /** The last register listed as available. */
  function NextAvailable(s: VarState): Reg
    requires s.available != []
  {
    s.available[|s.available| - 1]
  }

  /** Of the registers available, the one released last is taken first. */
  lemma LastReleasedFirstTaken(s: VarState, register: Reg)
    requires TenantKnown(s, register)
    ensures NextAvailable(Release(s, register)) == register
  {
  }

  function FetchFromSlot(s: VarState, sizes: seq<nat>, register: Reg, vn: int): seq<Instr>
    requires s.IsVar(vn) && |sizes| == |s.varStorage|
  {
    if s.HasStackStorage(vn) then [MovRegMem(register, sizes[vn], s.varStorage[vn].rbpOffset)] else []
  }

  /** The tenant must go to the stack. */
  predicate Spills(s: VarState, register: Reg, vn: int)
    requires |s.occupiedBy| == NUM_REGISTERS && s.IsVar(vn)
  {
    s.occupiedBy[register] != INVALID && s.occupiedBy[register] != vn && !s.InRegister(vn) && s.available == []
  }

  /** vn takes over the register and the tenant is left with its slot alone. */
  function Displace(s: VarState, register: Reg, vn: int): VarState
    requires |s.occupiedBy| == NUM_REGISTERS && s.IsVar(vn) && s.IsVar(s.occupiedBy[register])
  {
    var tenant := s.occupiedBy[register];
    var s1 := Rebook(s, vn, register);
    s1.(varStorage := s1.varStorage[tenant := s1.varStorage[tenant].(currentRegister := INVALID)])
  }

  function Spill(s: VarState, sizes: seq<nat>, frame: nat, newSlots: bool, register: Reg, vn: int): Emitted
    requires Consistent(s) && s.IsVar(vn) && |sizes| == |s.varStorage|
    requires Spills(s, register, vn)
  {
    var tenant := s.occupiedBy[register];
    var g := if newSlots then GiveSlot(s, sizes, frame, tenant) else Framed(s, frame);
    var store := if g.state.HasStackStorage(tenant)
                 then [MovMemReg(g.state.varStorage[tenant].rbpOffset, sizes[tenant], register)] else [];
    Emitted(Displace(g.state, register, vn), g.frame, store + FetchFromSlot(s, sizes, register, vn))
  }

  function LoadRegister(s: VarState, sizes: seq<nat>, frame: nat, newSlots: bool, register: Reg, vn: int): Emitted
    requires Valid(s, sizes, frame) && s.IsVar(vn)
  {
    var tenant := s.occupiedBy[register];
    var from := s.varStorage[vn].currentRegister;
    if tenant == INVALID then
      if s.InRegister(vn) then
        Emitted(Allocate(Release(s, from), register, vn), frame, [MovRegReg(register, from)])
      else
        Emitted(Allocate(s, register, vn), frame, FetchFromSlot(s, sizes, register, vn))
    else if tenant == vn then
      Emitted(s, frame, [])
    else if s.InRegister(vn) then
      Emitted(Rebook(Rebook(s, tenant, from), vn, register), frame, [Xchg(from, register)])
    else if s.available != [] then
      var aside := NextAvailable(s);
      Emitted(Rebook(Allocate(s, aside, tenant), vn, register), frame,
              [MovRegReg(aside, register)] + FetchFromSlot(s, sizes, register, vn))
    else
      Spill(s, sizes, frame, newSlots, register, vn)
  }

  /** Nothing located is lost, unless the tenant must be spilled and may not be given a slot. */
  predicate LosesTenant(s: VarState, newSlots: bool, register: Reg, vn: int)
    requires Consistent(s) && s.IsVar(vn)
  {
    Spills(s, register, vn) && !newSlots && !s.HasStackStorage(s.occupiedBy[register])
  }

  ghost predicate CanLoad(s: VarState, sizes: seq<nat>, frame: nat, vn: int) {
    Valid(s, sizes, frame) && s.IsVar(vn) && !s.Decommissioned(vn) && PerfectSize(sizes[vn])
  }

  lemma RebookMovesValid(s: VarState, sizes: seq<nat>, frame: nat, a: int, b: int)
    requires Valid(s, sizes, frame)
    requires s.IsVar(a) && s.IsVar(b) && a != b && s.InRegister(a) && s.InRegister(b)
    ensures var ra: Reg, rb: Reg := s.varStorage[a].currentRegister, s.varStorage[b].currentRegister;
            Valid(Rebook(Rebook(s, b, ra), a, rb), sizes, frame)
  {
    var ra: Reg, rb: Reg := s.varStorage[a].currentRegister, s.varStorage[b].currentRegister;
    var s' := Rebook(Rebook(s, b, ra), a, rb);
    assert Consistent(s') by {
      forall v | s'.IsVar(v) && s'.Decommissioned(v) ensures !s'.Located(v) {
        assert s.Decommissioned(v);
      }
    }
  }

  lemma LoadRegisterValid(s: VarState, sizes: seq<nat>, frame: nat, newSlots: bool, register: Reg, vn: int)
    requires CanLoad(s, sizes, frame, vn)
    ensures var e := LoadRegister(s, sizes, frame, newSlots, register, vn);
            && Valid(e.state, sizes, e.frame)
            && |e.state.varStorage| == |s.varStorage|
            && e.state.occupiedBy[register] == vn
  {
    var tenant := s.occupiedBy[register];
    if tenant == INVALID {
      if s.InRegister(vn) {
        var from: Reg := s.varStorage[vn].currentRegister;
        ReleaseValid(s, sizes, frame, from);
        AllocateValid(Release(s, from), sizes, frame, register, vn);
      } else {
        AllocateValid(s, sizes, frame, register, vn);
      }
    } else if tenant == vn {
    } else if s.InRegister(vn) {
      RebookMovesValid(s, sizes, frame, vn, tenant);
    } else if s.available != [] {
      AsideValid(s, sizes, frame, register, vn);
    } else {
      SpillValid(s, sizes, frame, newSlots, register, vn);
    }
  }

  lemma AsideValid(s: VarState, sizes: seq<nat>, frame: nat, register: Reg, vn: int)
    requires CanLoad(s, sizes, frame, vn)
    requires s.occupiedBy[register] != INVALID && s.occupiedBy[register] != vn && !s.InRegister(vn)
    requires s.available != []
    ensures Valid(Rebook(Allocate(s, NextAvailable(s), s.occupiedBy[register]), vn, register), sizes, frame)
  {
    var aside := NextAvailable(s);
    assert s.occupiedBy[aside] == INVALID;
    WithoutMembers(s.available, aside);
    var s' := Rebook(Allocate(s, aside, s.occupiedBy[register]), vn, register);
    assert Consistent(s') by {
      forall v | s'.IsVar(v) && s'.Decommissioned(v) ensures !s'.Located(v) {
        assert s.Decommissioned(v);
      }
    }
  }

  lemma DisplaceValid(s: VarState, sizes: seq<nat>, frame: nat, register: Reg, vn: int)
    requires CanLoad(s, sizes, frame, vn) && Spills(s, register, vn)
    ensures Valid(Displace(s, register, vn), sizes, frame)
  {
    var s' := Displace(s, register, vn);
    forall v | s'.IsVar(v) && s'.Decommissioned(v) ensures !s'.Located(v) {
      assert s.Decommissioned(v);
    }
  }

  lemma SpillValid(s: VarState, sizes: seq<nat>, frame: nat, newSlots: bool, register: Reg, vn: int)
    requires CanLoad(s, sizes, frame, vn) && Spills(s, register, vn)
    ensures var e := Spill(s, sizes, frame, newSlots, register, vn); Valid(e.state, sizes, e.frame)
  {
    var tenant := s.occupiedBy[register];
    if newSlots {
      var g := GiveSlot(s, sizes, frame, tenant);
      GiveSlotValid(s, sizes, frame, tenant);
      DisplaceValid(g.state, sizes, g.frame, register, vn);
    } else {
      DisplaceValid(s, sizes, frame, register, vn);
    }
  }

  /** Where everything is afterwards: vn in the register, nobody else's slot moved, and only the tenant displaced. */
  lemma LoadRegisterPlaces(s: VarState, sizes: seq<nat>, frame: nat, newSlots: bool, register: Reg, vn: int)
    requires CanLoad(s, sizes, frame, vn)
    ensures var e := LoadRegister(s, sizes, frame, newSlots, register, vn);
            && |e.state.varStorage| == |s.varStorage|
            && e.state.varStorage[vn].currentRegister == register
            && SlotsGrow(s, frame, e.state, e.frame, sizes)
            && (forall v :: s.IsVar(v) && v != vn && v != s.occupiedBy[register] ==>
                e.state.varStorage[v] == s.varStorage[v])
            && (forall v :: s.IsVar(v) ==> e.state.Decommissioned(v) == s.Decommissioned(v))
            && e.state.varStorage[vn].rbpOffset == s.varStorage[vn].rbpOffset
            && e.state.dontSwap == s.dontSwap && e.state.nextRegToBeSwapped == s.nextRegToBeSwapped
  {
    hide SlotsSeparate, SlotsInFrame, Without;
    var tenant := s.occupiedBy[register];
    if Spills(s, register, vn) {
      SpillPlaces(s, sizes, frame, newSlots, register, vn);
    } else if tenant == INVALID {
      if s.InRegister(vn) {
        assert Release(s, s.varStorage[vn].currentRegister).varStorage ==
            s.varStorage[vn := s.varStorage[vn].(currentRegister := INVALID)];
      }
    } else if tenant == vn {
    } else if s.InRegister(vn) {
    } else {
      assert NextAvailable(s) in s.available;
    }
  }

  lemma LoadRegisterKeeps(s: VarState, sizes: seq<nat>, frame: nat, newSlots: bool, register: Reg, vn: int)
    requires CanLoad(s, sizes, frame, vn)
    requires !LosesTenant(s, newSlots, register, vn)
    ensures var e := LoadRegister(s, sizes, frame, newSlots, register, vn);
            && Valid(e.state, sizes, e.frame)
            && Keeps(s, e.state, sizes, e.code)
  {
    LoadRegisterValid(s, sizes, frame, newSlots, register, vn);
    var e := LoadRegister(s, sizes, frame, newSlots, register, vn);
    forall callee: Callee, m: Machine ensures Carries(s, e.state, sizes, m, Run(callee, m, e.code)) {
      LoadRegisterCarries(s, sizes, frame, newSlots, register, vn, callee, m);
    }
  }

  lemma LoadRegisterCarries(s: VarState, sizes: seq<nat>, frame: nat, newSlots: bool, register: Reg, vn: int,
                            callee: Callee, m: Machine)
    requires CanLoad(s, sizes, frame, vn)
    requires !LosesTenant(s, newSlots, register, vn)
    requires var e := LoadRegister(s, sizes, frame, newSlots, register, vn); Valid(e.state, sizes, e.frame)
    ensures var e := LoadRegister(s, sizes, frame, newSlots, register, vn);
            Carries(s, e.state, sizes, m, Run(callee, m, e.code))
  {
    hide SlotsSeparate, SlotsInFrame, SlotsGrow;
    var e := LoadRegister(s, sizes, frame, newSlots, register, vn);
    var tenant := s.occupiedBy[register];
    if tenant == vn {
    } else if s.InRegister(vn) {
      RunOne(callee, m, e.code[0]);
    } else if tenant == INVALID {
      FetchRuns(s, sizes, register, vn, callee, m);
    } else if s.available != [] {
      AsideCarries(s, sizes, frame, register, vn, e.state, callee, m);
    } else {
      SpillCarries(s, sizes, frame, newSlots, register, vn, callee, m);
    }
  }

  lemma AsideCarries(s: VarState, sizes: seq<nat>, frame: nat, register: Reg, vn: int, s': VarState,
                     callee: Callee, m: Machine)
    requires CanLoad(s, sizes, frame, vn) && s.available != []
    requires s.occupiedBy[register] != INVALID && s.occupiedBy[register] != vn && !s.InRegister(vn)
    requires s' == Rebook(Allocate(s, NextAvailable(s), s.occupiedBy[register]), vn, register)
    requires Consistent(s') && SizesFit(s', sizes)
    ensures Carries(s, s', sizes, m,
                    Run(callee, m, [MovRegReg(NextAvailable(s), register)] + FetchFromSlot(s, sizes, register, vn)))
  {
    hide SlotsSeparate, SlotsInFrame, Run, Read, Write, LoadInto, FetchFromSlot, Without;
    var move := MovRegReg(NextAvailable(s), register);
    var fetch := FetchFromSlot(s, sizes, register, vn);
    RunOne(callee, m, move);
    RunAppend(callee, m, [move], fetch);
    FetchRuns(s, sizes, register, vn, callee, Exec(callee, m, move));
    assert s.occupiedBy[NextAvailable(s)] == INVALID;
  }

  lemma FetchRuns(s: VarState, sizes: seq<nat>, register: Reg, vn: int, callee: Callee, m: Machine)
    requires s.IsVar(vn) && |sizes| == |s.varStorage| && PerfectSize(sizes[vn])
    ensures var m' := Run(callee, m, FetchFromSlot(s, sizes, register, vn));
            && m'.mem == m.mem
            && (forall r: Reg :: r != register ==> m'.regs[r] == m.regs[r])
            && (s.HasStackStorage(vn) ==>
                  m'.regs[register][..sizes[vn]] == Read(m.mem, -s.varStorage[vn].rbpOffset, sizes[vn]))
  {
    if s.HasStackStorage(vn) {
      RunOne(callee, m, FetchFromSlot(s, sizes, register, vn)[0]);
    }
  }

  lemma ReadElsewhere(mem: Memory, offset: int, bytes: seq<Byte>, offset': int, n: nat)
    requires Disjoint(offset, |bytes|, offset', n)
    ensures Read(Write(mem, -offset, bytes), -offset', n) == Read(mem, -offset', n)
  {
  }

  lemma ReadBack(mem: Memory, address: int, bytes: seq<Byte>)
    ensures Read(Write(mem, address, bytes), address, |bytes|) == bytes
  {
  }

  /** What a store writes, as far as slots can tell. */
  ghost predicate Stored(s: VarState, sizes: seq<nat>, vn: int, bytes: seq<Byte>, mem: Memory, mem': Memory)
    requires s.IsVar(vn) && |sizes| == |s.varStorage|
  {
    && Read(mem', -s.varStorage[vn].rbpOffset, sizes[vn]) == bytes
    && forall v :: s.IsVar(v) && v != vn && s.HasStackStorage(v) ==>
         Read(mem', -s.varStorage[v].rbpOffset, sizes[v]) == Read(mem, -s.varStorage[v].rbpOffset, sizes[v])
  }

  lemma WriteStores(s: VarState, sizes: seq<nat>, vn: int, bytes: seq<Byte>, mem: Memory)
    requires |sizes| == |s.varStorage| && SlotsSeparate(s, sizes) && s.IsVar(vn) && s.HasStackStorage(vn)
        && |bytes| == sizes[vn]
    ensures Stored(s, sizes, vn, bytes, mem, Write(mem, -s.varStorage[vn].rbpOffset, bytes))
  {
    hide Read, Write;
    var offset := s.varStorage[vn].rbpOffset;
    ReadBack(mem, -offset, bytes);
    forall v | s.IsVar(v) && v != vn && s.HasStackStorage(v)
      ensures Read(Write(mem, -offset, bytes), -s.varStorage[v].rbpOffset, sizes[v]) ==
          Read(mem, -s.varStorage[v].rbpOffset, sizes[v])
    {
      ReadElsewhere(mem, offset, bytes, s.varStorage[v].rbpOffset, sizes[v]);
    }
  }

  lemma StoredMeans(s: VarState, sizes: seq<nat>, vn: int, bytes: seq<Byte>, mem: Memory, mem': Memory)
    requires s.IsVar(vn) && |sizes| == |s.varStorage| && Stored(s, sizes, vn, bytes, mem, mem')
    ensures Read(mem', -s.varStorage[vn].rbpOffset, sizes[vn]) == bytes
    ensures forall v :: s.IsVar(v) && v != vn && s.HasStackStorage(v) ==>
              Read(mem', -s.varStorage[v].rbpOffset, sizes[v]) == Read(mem, -s.varStorage[v].rbpOffset, sizes[v])
  {
    hide Read;
  }

  lemma StoreSteps(callee: Callee, m: Machine, offset: int, size: nat, register: Reg)
    requires PerfectSize(size)
    ensures var m' := Run(callee, m, [MovMemReg(offset, size, register)]);
            m'.regs == m.regs && m'.mem == Write(m.mem, -offset, m.regs[register][..size])
  {
    hide Run, Read, Write, LoadInto;
    RunOne(callee, m, MovMemReg(offset, size, register));
  }

  /** The parts of validity a store relies on. */
  lemma TenantFits(s: VarState, sizes: seq<nat>, frame: nat, register: Reg, vn: int)
    requires Valid(s, sizes, frame) && s.IsVar(vn) && s.occupiedBy[register] == vn
    ensures |sizes| == |s.varStorage| && PerfectSize(sizes[vn]) && sizes[vn] <= 8 && SlotsSeparate(s, sizes)
  {
    hide AvailableExact, SlotsInFrame;
  }

  /** Storing a register variable into its slot puts its value there and disturbs no other slot. */
  lemma StoreRuns(s: VarState, sizes: seq<nat>, frame: nat, register: Reg, vn: int, callee: Callee, m: Machine)
    requires Valid(s, sizes, frame) && s.IsVar(vn) && s.occupiedBy[register] == vn && s.HasStackStorage(vn)
    ensures var offset := s.varStorage[vn].rbpOffset;
            var m' := Run(callee, m, [MovMemReg(offset, sizes[vn], register)]);
            && m'.regs == m.regs
            && Read(m'.mem, -offset, sizes[vn]) == m.regs[register][..sizes[vn]]
            && (forall v :: s.IsVar(v) && v != vn && s.HasStackStorage(v) ==>
                  Read(m'.mem, -s.varStorage[v].rbpOffset, sizes[v]) ==
                      Read(m.mem, -s.varStorage[v].rbpOffset, sizes[v]))
  {
    hide Run, Read, Write, Valid, Stored, SlotsSeparate;
    TenantFits(s, sizes, frame, register, vn);
    var offset, bytes := s.varStorage[vn].rbpOffset, m.regs[register][..sizes[vn]];
    StoreSteps(callee, m, offset, sizes[vn], register);
    WriteStores(s, sizes, vn, bytes, m.mem);
    StoredMeans(s, sizes, vn, bytes, m.mem, Write(m.mem, -offset, bytes));
  }

  lemma SpillPlaces(s: VarState, sizes: seq<nat>, frame: nat, newSlots: bool, register: Reg, vn: int)
    requires CanLoad(s, sizes, frame, vn) && Spills(s, register, vn)
    ensures var tenant := s.occupiedBy[register];
            var g := if newSlots then GiveSlot(s, sizes, frame, tenant) else Framed(s, frame);
            var e := Spill(s, sizes, frame, newSlots, register, vn);
            && e.state.varStorage[tenant] == VarStorage(g.state.varStorage[tenant].rbpOffset, INVALID, false)
            && e.state.varStorage[vn] == s.varStorage[vn].(currentRegister := register)
            && (forall v :: s.IsVar(v) && v != vn && v != tenant ==>
                e.state.varStorage[v] == g.state.varStorage[v] == s.varStorage[v])
            && g.state.varStorage[vn] == s.varStorage[vn]
            && g.state.occupiedBy == s.occupiedBy
  {
    assert !s.Decommissioned(s.occupiedBy[register]);
  }

  lemma SpillCarries(s: VarState, sizes: seq<nat>, frame: nat, newSlots: bool, register: Reg, vn: int,
                     callee: Callee, m: Machine)
    requires CanLoad(s, sizes, frame, vn) && Spills(s, register, vn)
    requires !LosesTenant(s, newSlots, register, vn)
    requires var e := Spill(s, sizes, frame, newSlots, register, vn); Valid(e.state, sizes, e.frame)
    ensures var e := Spill(s, sizes, frame, newSlots, register, vn);
            Carries(s, e.state, sizes, m, Run(callee, m, e.code))
  {
    hide SlotsSeparate, SlotsInFrame, AvailableExact, SlotsGrow, Run, Read, Exec, FetchFromSlot, Carries;
    var tenant := s.occupiedBy[register];
    var g := if newSlots then GiveSlot(s, sizes, frame, tenant) else Framed(s, frame);
    if newSlots {
      GiveSlotValid(s, sizes, frame, tenant);
    }
    var fetch := FetchFromSlot(s, sizes, register, vn);
    var e := Spill(s, sizes, frame, newSlots, register, vn);
    SpillPlaces(s, sizes, frame, newSlots, register, vn);
    assert g.state.HasStackStorage(tenant);
    var store := [MovMemReg(g.state.varStorage[tenant].rbpOffset, sizes[tenant], register)];
    assert e.code == store + fetch;
    StoreRuns(g.state, sizes, g.frame, register, tenant, callee, m);
    RunAppend(callee, m, store, fetch);
    var m1 := Run(callee, m, store);
    FetchRuns(s, sizes, register, vn, callee, m1);
    SpilledCarries(s, g.state, e.state, sizes, register, vn, m, m1, Run(callee, m1, fetch));
  }

  /** The tenant's bytes are in its slot after the store (m1), and vn's in the register after the fetch (m2). */
  lemma SpilledCarries(s: VarState, g: VarState, s': VarState, sizes: seq<nat>, register: Reg, vn: int,
                       m: Machine, m1: Machine, m2: Machine)
    requires Consistent(s) && SizesFit(s, sizes) && Consistent(s') && SizesFit(s', sizes)
    requires |g.varStorage| == |s.varStorage| == |s'.varStorage|
    requires s.IsVar(vn) && !s.InRegister(vn) && s.IsVar(s.occupiedBy[register]) && s.occupiedBy[register] != vn
    requires var tenant := s.occupiedBy[register];
             && g.HasStackStorage(tenant)
             && s'.varStorage[tenant] == VarStorage(g.varStorage[tenant].rbpOffset, INVALID, false)
             && Read(m1.mem, -g.varStorage[tenant].rbpOffset, sizes[tenant]) == m.regs[register][..sizes[tenant]]
             && (forall v :: s.IsVar(v) && v != tenant && s.HasStackStorage(v) ==>
                   Read(m1.mem, -s.varStorage[v].rbpOffset, sizes[v]) ==
                       Read(m.mem, -s.varStorage[v].rbpOffset, sizes[v]))
             && (forall v :: s.IsVar(v) && v != vn && v != tenant ==> s'.varStorage[v] == s.varStorage[v])
    requires s'.varStorage[vn] == s.varStorage[vn].(currentRegister := register)
    requires m1.regs == m.regs && m2.mem == m1.mem
    requires forall r: Reg :: r != register ==> m2.regs[r] == m1.regs[r]
    requires s.HasStackStorage(vn) ==>
               m2.regs[register][..sizes[vn]] == Read(m1.mem, -s.varStorage[vn].rbpOffset, sizes[vn])
    ensures Carries(s, s', sizes, m, m2)
  {
    var tenant := s.occupiedBy[register];
    forall v | s.IsVar(v) && s.Located(v)
      ensures s'.Located(v) && ValueOf(s', sizes, m2, v) == ValueOf(s, sizes, m, v)
    {
      if v == tenant {
      } else if v == vn {
      } else if s.InRegister(v) {
        assert s.varStorage[v].currentRegister != register;
      }
    }
  }

  // ----- Evicting a tenant to its slot -----

  /** Give the tenant a slot if allowed, store it there if it has one, and release the register. */
  function Evict(s: VarState, sizes: seq<nat>, frame: nat, newSlots: bool, register: Reg): Emitted
    requires Valid(s, sizes, frame) && s.occupiedBy[register] != INVALID
  {
    var tenant := s.occupiedBy[register];
    var g := if newSlots then GiveSlot(s, sizes, frame, tenant) else Framed(s, frame);
    GiveSlotValid(s, sizes, frame, tenant);
    var store := if g.state.HasStackStorage(tenant)
                 then [MovMemReg(g.state.varStorage[tenant].rbpOffset, sizes[tenant], register)] else [];
    Emitted(Release(g.state, register), g.frame, store)
  }

  lemma SlotUnchanged(s: VarState, sizes: seq<nat>, frame: nat, newSlots: bool, tenant: int)
    requires s.IsVar(tenant) && |sizes| == |s.varStorage|
    ensures var g := if newSlots then GiveSlot(s, sizes, frame, tenant) else Framed(s, frame);
            && |g.state.varStorage| == |s.varStorage| && g.state.occupiedBy == s.occupiedBy
            && forall v :: s.IsVar(v) && v != tenant ==> g.state.varStorage[v] == s.varStorage[v]
  {
  }

  lemma EvictPlaces(s: VarState, sizes: seq<nat>, frame: nat, newSlots: bool, register: Reg)
    requires Valid(s, sizes, frame) && s.occupiedBy[register] != INVALID
    ensures var e := Evict(s, sizes, frame, newSlots, register);
            var tenant := s.occupiedBy[register];
            && Valid(e.state, sizes, e.frame)
            && SlotsGrow(s, frame, e.state, e.frame, sizes)
            && e.state.occupiedBy == s.occupiedBy[register := INVALID]
            && e.state.available == s.available + [register]
            && e.state.dontSwap == s.dontSwap && e.state.nextRegToBeSwapped == s.nextRegToBeSwapped
            && |e.state.varStorage| == |s.varStorage|
            && (forall v :: s.IsVar(v) && v != tenant ==> e.state.varStorage[v] == s.varStorage[v])
            && !e.state.InRegister(tenant) && !e.state.Decommissioned(tenant)
            && (newSlots || s.HasStackStorage(tenant) ==> e.state.HasStackStorage(tenant))
  {
    var tenant := s.occupiedBy[register];
    var g := if newSlots then GiveSlot(s, sizes, frame, tenant) else Framed(s, frame);
    assert !s.Decommissioned(tenant);
    GiveSlotValid(s, sizes, frame, tenant);
    ReleaseValid(g.state, sizes, g.frame, register);
  }

  lemma EvictKeeps(s: VarState, sizes: seq<nat>, frame: nat, newSlots: bool, register: Reg)
    requires Valid(s, sizes, frame) && s.occupiedBy[register] != INVALID
    requires newSlots || s.HasStackStorage(s.occupiedBy[register])
    ensures var e := Evict(s, sizes, frame, newSlots, register);
            Valid(e.state, sizes, e.frame) && Keeps(s, e.state, sizes, e.code)
  {
    hide SlotsSeparate, SlotsInFrame, AvailableExact, SlotsGrow, Evict;
    var e := Evict(s, sizes, frame, newSlots, register);
    EvictPlaces(s, sizes, frame, newSlots, register);
    forall callee: Callee, m: Machine ensures Carries(s, e.state, sizes, m, Run(callee, m, e.code)) {
      EvictRuns(s, sizes, frame, newSlots, register, callee, m);
      EvictedCarries(s, e.state, sizes, register, m, Run(callee, m, e.code));
    }
  }

  /** A tenant that has no slot and may not be given one loses its value. */
  lemma EvictLoses(s: VarState, sizes: seq<nat>, frame: nat, register: Reg)
    requires Valid(s, sizes, frame) && s.occupiedBy[register] != INVALID && !s.HasStackStorage(s.occupiedBy[register])
    ensures var e := Evict(s, sizes, frame, false, register);
            && e.code == [] && !e.state.Located(s.occupiedBy[register])
            && Valid(e.state, sizes, e.frame) && KeepsRest(s, e.state, sizes, e.code)
  {
    hide SlotsSeparate, SlotsInFrame, AvailableExact, SlotsGrow, KeepsRest;
    EvictPlaces(s, sizes, frame, false, register);
    LosingKeepsRest(s, Evict(s, sizes, frame, false, register).state, sizes, s.occupiedBy[register]);
  }

  /** The tenant's slot afterwards, and the one store that the code is. */
  lemma EvictIs(s: VarState, sizes: seq<nat>, frame: nat, newSlots: bool, register: Reg)
    requires Valid(s, sizes, frame) && s.occupiedBy[register] != INVALID
    requires newSlots || s.HasStackStorage(s.occupiedBy[register])
    ensures var tenant := s.occupiedBy[register];
            var g := if newSlots then GiveSlot(s, sizes, frame, tenant) else Framed(s, frame);
            var e := Evict(s, sizes, frame, newSlots, register);
            && Valid(g.state, sizes, g.frame) && |g.state.varStorage| == |e.state.varStorage| == |s.varStorage|
            && g.state.occupiedBy[register] == tenant && g.state.HasStackStorage(tenant)
            && e.state.varStorage[tenant].rbpOffset == g.state.varStorage[tenant].rbpOffset
            && e.code == [MovMemReg(g.state.varStorage[tenant].rbpOffset, sizes[tenant], register)]
  {
    hide SlotsSeparate, SlotsInFrame, AvailableExact;
    var tenant := s.occupiedBy[register];
    assert !s.Decommissioned(tenant);
    GiveSlotValid(s, sizes, frame, tenant);
  }

  lemma EvictRuns(s: VarState, sizes: seq<nat>, frame: nat, newSlots: bool, register: Reg, callee: Callee, m: Machine)
    requires Valid(s, sizes, frame) && s.occupiedBy[register] != INVALID
    requires newSlots || s.HasStackStorage(s.occupiedBy[register])
    ensures var e := Evict(s, sizes, frame, newSlots, register);
            var tenant := s.occupiedBy[register];
            var m' := Run(callee, m, e.code);
            && m'.regs == m.regs
            && |e.state.varStorage| == |s.varStorage|
            && Read(m'.mem, -e.state.varStorage[tenant].rbpOffset, sizes[tenant]) == m.regs[register][..sizes[tenant]]
            && (forall v :: s.IsVar(v) && v != tenant && s.HasStackStorage(v) ==>
                  Read(m'.mem, -s.varStorage[v].rbpOffset, sizes[v]) ==
                      Read(m.mem, -s.varStorage[v].rbpOffset, sizes[v]))
  {
    hide Evict, GiveSlot, SlotsSeparate, SlotsInFrame, AvailableExact, Read, Run;
    var tenant := s.occupiedBy[register];
    var g := if newSlots then GiveSlot(s, sizes, frame, tenant) else Framed(s, frame);
    EvictIs(s, sizes, frame, newSlots, register);
    SlotUnchanged(s, sizes, frame, newSlots, tenant);
    StoreRuns(g.state, sizes, g.frame, register, tenant, callee, m);
    var m' := Run(callee, m, [MovMemReg(g.state.varStorage[tenant].rbpOffset, sizes[tenant], register)]);
    forall v | s.IsVar(v) && v != tenant && s.HasStackStorage(v)
      ensures Read(m'.mem, -s.varStorage[v].rbpOffset, sizes[v]) == Read(m.mem, -s.varStorage[v].rbpOffset, sizes[v])
    {
      assert g.state.varStorage[v] == s.varStorage[v];
    }
  }

  lemma EvictedCarries(s: VarState, s': VarState, sizes: seq<nat>, register: Reg, m: Machine, m': Machine)
    requires Consistent(s) && SizesFit(s, sizes) && Consistent(s') && SizesFit(s', sizes)
    requires |s.varStorage| == |s'.varStorage| && s.occupiedBy[register] != INVALID
    requires m'.regs == m.regs
    requires var tenant := s.occupiedBy[register];
             && s'.StackOnly(tenant)
             && Read(m'.mem, -s'.varStorage[tenant].rbpOffset, sizes[tenant]) == m.regs[register][..sizes[tenant]]
             && (forall v :: s.IsVar(v) && v != tenant ==> s'.varStorage[v] == s.varStorage[v])
             && (forall v :: s.IsVar(v) && v != tenant && s.HasStackStorage(v) ==>
                   Read(m'.mem, -s.varStorage[v].rbpOffset, sizes[v]) ==
                       Read(m.mem, -s.varStorage[v].rbpOffset, sizes[v]))
    ensures Carries(s, s', sizes, m, m')
  {
  }

  // ----- Operands that must stay in registers together -----

  /** The choice of register: where vn already is, or a free one, or any that is not marked. */
  ghost predicate GoodChoice(s: VarState, register: Reg, vn: int)
    requires Consistent(s) && s.IsVar(vn)
  {
    if s.InRegister(vn) then register == s.varStorage[vn].currentRegister
    else if s.available != [] then register == NextAvailable(s)
    else !s.dontSwap[register]
  }

  lemma EnsuredKeeps(s: VarState, sizes: seq<nat>, frame: nat, register: Reg, vn: int, next: Reg)
    requires CanLoad(s, sizes, frame, vn) && GoodChoice(s, register, vn)
    ensures var e := LoadRegister(s, sizes, frame, true, register, vn);
            var s' := e.state.(dontSwap := s.dontSwap[register := true], nextRegToBeSwapped := next);
            && Valid(s', sizes, e.frame) && Keeps(s, s', sizes, e.code)
            && SlotsGrow(s, frame, s', e.frame, sizes)
            && s'.varStorage[vn].currentRegister == register
            && (forall r: Reg :: s.dontSwap[r] && s.occupiedBy[r] != INVALID ==> s'.occupiedBy[r] == s.occupiedBy[r])
            && (forall v :: s.IsVar(v) ==> s'.Decommissioned(v) == s.Decommissioned(v))
  {
    var e := LoadRegister(s, sizes, frame, true, register, vn);
    var s' := e.state.(dontSwap := s.dontSwap[register := true], nextRegToBeSwapped := next);
    if s.InRegister(vn) {
      KeepsNothingMoved(s, s, sizes);
    } else {
      LoadRegisterKeeps(s, sizes, frame, true, register, vn);
      LoadRegisterPlaces(s, sizes, frame, true, register, vn);
    }
    MarksDoNotMatter(s, e.state, s', sizes, e.frame, e.code);
  }
}
