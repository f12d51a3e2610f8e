/** Rearranging storage from one state to another: the invariant of the parallel move. */
module Morphs {
  import opened Machine
  import opened VarStates
  import opened LoadRegisters

  /** Both states place the variable somewhere. */
  ghost predicate Live(s: VarState, t: VarState, vn: int) {
    s.IsVar(vn) && t.IsVar(vn) && s.Located(vn) && t.Located(vn)
  }

  /** On the stack only in both states, but in different slots: nothing ever moves such a variable. */
  ghost predicate Stranded(s: VarState, t: VarState, vn: int) {
    && s.IsVar(vn) && t.IsVar(vn) && s.StackOnly(vn) && t.StackOnly(vn)
    && s.varStorage[vn].rbpOffset != t.varStorage[vn].rbpOffset
  }

  /** Slots of different variables do not overlap across the two states either. */
  ghost predicate CrossSeparate(s: VarState, t: VarState, sizes: seq<nat>)
    requires |sizes| == |s.varStorage| == |t.varStorage|
  {
    forall u, v :: s.IsVar(u) && t.IsVar(v) && u != v && s.HasStackStorage(u) && t.HasStackStorage(v) ==>
      Disjoint(s.varStorage[u].rbpOffset, sizes[u], t.varStorage[v].rbpOffset, sizes[v])
  }

  ghost predicate Morphable(s: VarState, t: VarState, sizes: seq<nat>, frame: nat) {
    && Valid(s, sizes, frame) && Valid(t, sizes, frame)
    && CrossSeparate(s, t, sizes)
  }

  /** Occupied registers whose tenant is not the target's: each turn of the inner loop shrinks this set. */
  ghost function Misplaced(s: VarState, t: VarState): set<int>
    requires |s.occupiedBy| == |t.occupiedBy| == NUM_REGISTERS
  {
    set r | 0 <= r < NUM_REGISTERS && s.occupiedBy[r] != INVALID && s.occupiedBy[r] != t.occupiedBy[r]
  }

  /** Register r needs no more work: it has the target's tenant, or is empty because that tenant is dead. */
  ghost predicate Settled(s: VarState, t: VarState, r: Reg)
    requires Consistent(s) && Consistent(t) && |s.varStorage| == |t.varStorage|
  {
    || s.occupiedBy[r] == t.occupiedBy[r]
    || (s.occupiedBy[r] == INVALID && s.Decommissioned(t.occupiedBy[r]))
  }

  /** The bookkeeping half of the invariant, from the initial state s0 to the current s. */
  ghost predicate Placed(s0: VarState, s: VarState, t: VarState, sizes: seq<nat>, frame: nat) {
    && Valid(s, sizes, frame)
    && |s.varStorage| == |s0.varStorage| == |t.varStorage|
    && (forall v :: s.IsVar(v) ==> s.Decommissioned(v) == s0.Decommissioned(v))
    && (forall v :: s.IsVar(v) ==>
          s.varStorage[v].rbpOffset == s0.varStorage[v].rbpOffset
              || s.varStorage[v].rbpOffset == t.varStorage[v].rbpOffset)
    && (forall v :: s.IsVar(v) && s.InRegister(v) ==> s0.InRegister(v) || t.InRegister(v))
    && (forall v :: s.IsVar(v) && Live(s0, t, v) ==> s.Located(v))
    && (forall v :: s.IsVar(v) && Live(s0, t, v) && s.StackOnly(v) && t.StackOnly(v) && !Stranded(s0, t, v) ==>
          s.varStorage[v].rbpOffset == t.varStorage[v].rbpOffset)
  }

  /** The value half, on one machine: m before the emitted code and m' after it. */
  ghost predicate Moved(s0: VarState, s: VarState, t: VarState, sizes: seq<nat>, m: Machine, m': Machine)
    requires Consistent(s0) && SizesFit(s0, sizes) && Consistent(s) && SizesFit(s, sizes)
    requires |s.varStorage| == |s0.varStorage| == |t.varStorage|
  {
    && (forall v :: s.IsVar(v) && Live(s0, t, v) ==> ValueOf(s, sizes, m', v) == ValueOf(s0, sizes, m, v))
    && (forall v :: s.IsVar(v) && Stranded(s0, t, v) ==>
          Read(m'.mem, -t.varStorage[v].rbpOffset, sizes[v]) == Read(m.mem, -t.varStorage[v].rbpOffset, sizes[v]))
  }

  ghost predicate MovedBy(s0: VarState, s: VarState, t: VarState, sizes: seq<nat>, code: seq<Instr>)
    requires Consistent(s0) && SizesFit(s0, sizes) && Consistent(s) && SizesFit(s, sizes)
    requires |s.varStorage| == |s0.varStorage| == |t.varStorage|
  {
    forall callee: Callee, m: Machine :: Moved(s0, s, t, sizes, m, Run(callee, m, code))
  }

  /** The whole invariant: the emitted code accounts for the moves so far, and registers below n are settled. */
  ghost predicate Progress(s0: VarState, s: VarState, t: VarState, sizes: seq<nat>, frame: nat, code: seq<Instr>,
                           n: int)
  {
    && Morphable(s0, t, sizes, frame)
    && Placed(s0, s, t, sizes, frame)
    && MovedBy(s0, s, t, sizes, code)
    && (forall r: Reg :: r < n ==> Settled(s, t, r))
  }

  /** The value of vn reaches its place in t, whatever the machine holds. */
  ghost predicate Arrives(s: VarState, t: VarState, sizes: seq<nat>, code: seq<Instr>, vn: int)
    requires Consistent(s) && SizesFit(s, sizes) && Consistent(t) && SizesFit(t, sizes)
    requires s.IsVar(vn)
  {
    forall callee: Callee, m: Machine :: ValueOf(t, sizes, Run(callee, m, code), vn) == ValueOf(s, sizes, m, vn)
  }

  lemma StartPlaced(s0: VarState, t: VarState, sizes: seq<nat>, frame: nat)
    requires Morphable(s0, t, sizes, frame)
    ensures Placed(s0, s0, t, sizes, frame) && MovedBy(s0, s0, t, sizes, [])
  {
  }

  // ----- Releasing a register whose tenant the target does not want -----

  lemma DropPlaced(s0: VarState, s: VarState, t: VarState, sizes: seq<nat>, frame: nat, register: Reg)
    requires Morphable(s0, t, sizes, frame) && Placed(s0, s, t, sizes, frame)
    requires s.occupiedBy[register] != INVALID && !t.Located(s.occupiedBy[register])
    ensures Placed(s0, Release(s, register), t, sizes, frame)
  {
    ReleaseValid(s, sizes, frame, register);
  }

  lemma DropStep(s0: VarState, s: VarState, t: VarState, sizes: seq<nat>, frame: nat, register: Reg, code: seq<Instr>)
    requires Morphable(s0, t, sizes, frame) && Placed(s0, s, t, sizes, frame) && MovedBy(s0, s, t, sizes, code)
    requires s.occupiedBy[register] != INVALID && !t.Located(s.occupiedBy[register])
    ensures var s' := Release(s, register);
            && Placed(s0, s', t, sizes, frame) && MovedBy(s0, s', t, sizes, code)
            && Misplaced(s', t) < Misplaced(s, t)
  {
    var s' := Release(s, register);
    DropPlaced(s0, s, t, sizes, frame, register);
    assert register in Misplaced(s, t) && register !in Misplaced(s', t);
    assert forall v :: s.IsVar(v) && v != s.occupiedBy[register] ==> s'.varStorage[v] == s.varStorage[v];
    forall callee: Callee, m: Machine ensures Moved(s0, s', t, sizes, m, Run(callee, m, code)) {
      DropMoves(s0, s, s', t, sizes, register, m, Run(callee, m, code));
    }
  }

  lemma DropMoves(s0: VarState, s: VarState, s': VarState, t: VarState, sizes: seq<nat>, register: Reg, m: Machine,
                  m': Machine)
    requires Consistent(s0) && SizesFit(s0, sizes) && Consistent(s) && SizesFit(s, sizes)
    requires Consistent(s') && SizesFit(s', sizes)
    requires |s.varStorage| == |s0.varStorage| == |t.varStorage| == |s'.varStorage|
    requires s.occupiedBy[register] != INVALID && !t.Located(s.occupiedBy[register])
    requires forall v :: s.IsVar(v) && v != s.occupiedBy[register] ==> s'.varStorage[v] == s.varStorage[v]
    requires Moved(s0, s, t, sizes, m, m')
    ensures Moved(s0, s', t, sizes, m, m')
  {
  }

  // ----- Loading a register without evicting anybody -----

  lemma LoadStep(s0: VarState, s: VarState, t: VarState, sizes: seq<nat>, frame: nat, register: Reg, vn: int,
                 code: seq<Instr>)
    requires Morphable(s0, t, sizes, frame) && Placed(s0, s, t, sizes, frame) && MovedBy(s0, s, t, sizes, code)
    requires CanLoad(s, sizes, frame, vn) && t.IsVar(vn) && t.varStorage[vn].currentRegister == register
    requires s.occupiedBy[register] == INVALID || s.InRegister(vn)
    ensures var e := LoadRegister(s, sizes, frame, false, register, vn);
            && e.frame == frame
            && Placed(s0, e.state, t, sizes, frame) && MovedBy(s0, e.state, t, sizes, code + e.code)
            && e.state.occupiedBy[register] == vn
            && (forall r: Reg :: r != register && s.occupiedBy[r] != vn ==> e.state.occupiedBy[r] == s.occupiedBy[r])
  {
    hide LoadRegister, SlotsSeparate, SlotsInFrame, AvailableExact, CrossSeparate;
    var e := LoadRegister(s, sizes, frame, false, register, vn);
    LoadRegisterKeeps(s, sizes, frame, false, register, vn);
    LoadRegisterPlaces(s, sizes, frame, false, register, vn);
    NobodyEvicted(s, sizes, frame, register, vn);
    forall callee: Callee, m: Machine ensures Moved(s0, e.state, t, sizes, m, Run(callee, m, code + e.code)) {
      RunAppend(callee, m, code, e.code);
      var m1 := Run(callee, m, code);
      assert Moved(s0, s, t, sizes, m, m1);
      assert Carries(s, e.state, sizes, m1, Run(callee, m1, e.code));
      forall v | s.IsVar(v) && Live(s0, t, v) ensures ValueOf(e.state, sizes, Run(callee, m1, e.code), v) ==
          ValueOf(s0, sizes, m, v) {
        assert s.Located(v);
      }
      LoadWritesNoMemory(s, sizes, frame, register, vn, callee, m1);
    }
  }

  lemma NobodyEvicted(s: VarState, sizes: seq<nat>, frame: nat, register: Reg, vn: int)
    requires CanLoad(s, sizes, frame, vn)
    requires s.occupiedBy[register] == INVALID || s.InRegister(vn)
    ensures var e := LoadRegister(s, sizes, frame, false, register, vn);
            && e.frame == frame && |e.state.varStorage| == |s.varStorage|
            && (forall v :: s.IsVar(v) ==> e.state.varStorage[v].rbpOffset == s.varStorage[v].rbpOffset)
            && (forall v :: s.IsVar(v) ==> (e.state.InRegister(v) <==> s.InRegister(v) || v == vn))
            && (forall r: Reg :: r != register && s.occupiedBy[r] != vn ==> e.state.occupiedBy[r] == s.occupiedBy[r])
            && (forall r: Reg :: r != register && s.occupiedBy[r] == vn ==>
                e.state.occupiedBy[r] == s.occupiedBy[register])
            && e.state.occupiedBy[register] == vn
  {
  }

  lemma LoadWritesNoMemory(s: VarState, sizes: seq<nat>, frame: nat, register: Reg, vn: int, callee: Callee, m: Machine)
    requires CanLoad(s, sizes, frame, vn)
    requires s.occupiedBy[register] == INVALID || s.InRegister(vn)
    ensures Run(callee, m, LoadRegister(s, sizes, frame, false, register, vn).code).mem == m.mem
  {
    var code := LoadRegister(s, sizes, frame, false, register, vn).code;
    if code != [] {
      assert code == [code[0]];
      RunOne(callee, m, code[0]);
    }
  }

  /** Moving a tenant to its own target register puts one register right and none wrong. */
  lemma LoadShrinks(s: VarState, t: VarState, sizes: seq<nat>, frame: nat, from: Reg)
    requires Valid(s, sizes, frame) && Valid(t, sizes, frame)
    requires var vn := s.occupiedBy[from];
             vn != INVALID && t.InRegister(vn) && t.occupiedBy[from] != vn
    ensures var vn := s.occupiedBy[from];
            var e := LoadRegister(s, sizes, frame, false, t.varStorage[vn].currentRegister, vn);
            |e.state.occupiedBy| == NUM_REGISTERS && Misplaced(e.state, t) < Misplaced(s, t)
  {
    var vn := s.occupiedBy[from];
    var to: Reg := t.varStorage[vn].currentRegister;
    var e := LoadRegister(s, sizes, frame, false, to, vn);
    LoadRegisterValid(s, sizes, frame, false, to, vn);
    NobodyEvicted(s, sizes, frame, to, vn);
    assert forall r: Reg :: r in Misplaced(e.state, t) ==> r in Misplaced(s, t);
    if s.occupiedBy[to] == INVALID {
      assert from in Misplaced(s, t) && from !in Misplaced(e.state, t);
    } else {
      assert to in Misplaced(s, t) && to !in Misplaced(e.state, t);
    }
  }

  // ----- Storing a tenant to the target's slot -----

  function TakeSlot(s: VarState, t: VarState, vn: int): VarState
    requires s.IsVar(vn) && t.IsVar(vn)
  {
    s.(varStorage := s.varStorage[vn := s.varStorage[vn].(rbpOffset := t.varStorage[vn].rbpOffset)])
  }

  lemma TakeSlotValid(s0: VarState, s: VarState, t: VarState, sizes: seq<nat>, frame: nat, vn: int)
    requires Morphable(s0, t, sizes, frame) && Placed(s0, s, t, sizes, frame)
    requires s.IsVar(vn) && s.InRegister(vn) && t.StackOnly(vn)
    ensures Valid(TakeSlot(s, t, vn), sizes, frame)
  {
    var s' := TakeSlot(s, t, vn);
    assert !s.Decommissioned(vn);
    forall v | s'.IsVar(v) && s'.Decommissioned(v) ensures !s'.Located(v) {
      assert s.Decommissioned(v);
    }
  }

  lemma StorePlaced(s0: VarState, s: VarState, t: VarState, sizes: seq<nat>, frame: nat, register: Reg)
    requires Morphable(s0, t, sizes, frame) && Placed(s0, s, t, sizes, frame)
    requires s.occupiedBy[register] != INVALID && t.StackOnly(s.occupiedBy[register])
    ensures var s' := Release(TakeSlot(s, t, s.occupiedBy[register]), register);
            Placed(s0, s', t, sizes, frame) && Misplaced(s', t) < Misplaced(s, t)
  {
    hide SlotsSeparate, SlotsInFrame, AvailableExact, CrossSeparate;
    var vn := s.occupiedBy[register];
    var g := TakeSlot(s, t, vn);
    var s' := Release(g, register);
    TakeSlotValid(s0, s, t, sizes, frame, vn);
    ReleaseValid(g, sizes, frame, register);
    assert s'.varStorage == g.varStorage[vn := g.varStorage[vn].(currentRegister := INVALID)];
    assert register in Misplaced(s, t) && register !in Misplaced(s', t);
  }

  lemma StoreStep(s0: VarState, s: VarState, t: VarState, sizes: seq<nat>, frame: nat, register: Reg, code: seq<Instr>)
    requires Morphable(s0, t, sizes, frame) && Placed(s0, s, t, sizes, frame) && MovedBy(s0, s, t, sizes, code)
    requires Valid(s, sizes, frame) && |s.varStorage| == |s0.varStorage| == |t.varStorage|
    requires s.occupiedBy[register] != INVALID && t.StackOnly(s.occupiedBy[register])
    ensures var vn := s.occupiedBy[register];
            var s' := Release(TakeSlot(s, t, vn), register);
            && Placed(s0, s', t, sizes, frame) && Valid(s', sizes, frame) && |s'.varStorage| == |s0.varStorage|
            && MovedBy(s0, s', t, sizes, code + [MovMemReg(t.varStorage[vn].rbpOffset, sizes[vn], register)])
            && Misplaced(s', t) < Misplaced(s, t)
  {
    hide Misplaced, Moved, Placed;
    var vn := s.occupiedBy[register];
    var s' := Release(TakeSlot(s, t, vn), register);
    var store := [MovMemReg(t.varStorage[vn].rbpOffset, sizes[vn], register)];
    StorePlaced(s0, s, t, sizes, frame, register);
    PlacedFacts(s0, s, t, sizes, frame);
    PlacedFacts(s0, s', t, sizes, frame);
    forall callee: Callee, m: Machine ensures Moved(s0, s', t, sizes, m, Run(callee, m, code + store)) {
      RunAppend(callee, m, code, store);
      var m1 := Run(callee, m, code);
      assert Moved(s0, s, t, sizes, m, m1);
      StoreMoves(s0, s, t, sizes, frame, register, callee, m, m1);
    }
  }

  lemma PlacedFacts(s0: VarState, s: VarState, t: VarState, sizes: seq<nat>, frame: nat)
    requires Placed(s0, s, t, sizes, frame)
    ensures Valid(s, sizes, frame) && |s.varStorage| == |s0.varStorage| == |t.varStorage|
  {
  }

  lemma StoreMoves(s0: VarState, s: VarState, t: VarState, sizes: seq<nat>, frame: nat, register: Reg,
                   callee: Callee, m: Machine, m1: Machine)
    requires Morphable(s0, t, sizes, frame) && Placed(s0, s, t, sizes, frame)
    requires Valid(s, sizes, frame) && |s.varStorage| == |s0.varStorage| == |t.varStorage|
    requires s.occupiedBy[register] != INVALID && t.StackOnly(s.occupiedBy[register])
    requires Moved(s0, s, t, sizes, m, m1)
    ensures var vn := s.occupiedBy[register];
            var s' := Release(TakeSlot(s, t, vn), register);
            var m2 := Run(callee, m1, [MovMemReg(t.varStorage[vn].rbpOffset, sizes[vn], register)]);
            Valid(s', sizes, frame) && |s'.varStorage| == |s0.varStorage| && Moved(s0, s', t, sizes, m, m2)
  {
    hide Moved, Placed;
    PlacedFacts(s0, s, t, sizes, frame);
    var vn := s.occupiedBy[register];
    var g := TakeSlot(s, t, vn);
    var s' := Release(g, register);
    StorePlaced(s0, s, t, sizes, frame, register);
    PlacedFacts(s0, s', t, sizes, frame);
    TakeSlotValid(s0, s, t, sizes, frame, vn);
    StoreRuns(g, sizes, frame, register, vn, callee, m1);
    StoreSparesTargetSlots(t, sizes, frame, register, vn, callee, m1);
    assert s'.varStorage == g.varStorage[vn := g.varStorage[vn].(currentRegister := INVALID)];
    var m2 := Run(callee, m1, [MovMemReg(t.varStorage[vn].rbpOffset, sizes[vn], register)]);
    StoredMoves(s0, s, s', t, sizes, frame, vn, m, m1, m2);
  }

  /** The store wrote vn's target slot and left every other slot alone. */
  lemma StoredMoves(s0: VarState, s: VarState, s': VarState, t: VarState, sizes: seq<nat>, frame: nat, vn: int,
                    m: Machine, m1: Machine, m2: Machine)
    requires Morphable(s0, t, sizes, frame) && Placed(s0, s, t, sizes, frame)
    requires Consistent(s') && SizesFit(s', sizes) && |s.varStorage| == |s'.varStorage|
    requires Moved(s0, s, t, sizes, m, m1)
    requires s.IsVar(vn) && s.InRegister(vn) && t.StackOnly(vn)
    requires s'.varStorage[vn] == VarStorage(t.varStorage[vn].rbpOffset, INVALID, s.varStorage[vn].decommissioned)
    requires forall v :: s.IsVar(v) && v != vn ==> s'.varStorage[v] == s.varStorage[v]
    requires m2.regs == m1.regs
    requires Read(m2.mem, -t.varStorage[vn].rbpOffset, sizes[vn]) ==
        m1.regs[s.varStorage[vn].currentRegister][..sizes[vn]]
    requires forall v :: s.IsVar(v) && v != vn && s.HasStackStorage(v) ==>
               Read(m2.mem, -s.varStorage[v].rbpOffset, sizes[v]) == Read(m1.mem, -s.varStorage[v].rbpOffset, sizes[v])
    requires forall v :: s.IsVar(v) && v != vn && t.HasStackStorage(v) ==>
               Read(m2.mem, -t.varStorage[v].rbpOffset, sizes[v]) == Read(m1.mem, -t.varStorage[v].rbpOffset, sizes[v])
    ensures Moved(s0, s', t, sizes, m, m2)
  {
    hide SlotsSeparate, SlotsInFrame, AvailableExact, CrossSeparate;
    forall v | s'.IsVar(v) && Live(s0, t, v) ensures ValueOf(s', sizes, m2, v) == ValueOf(s0, sizes, m, v) {
      assert ValueOf(s, sizes, m1, v) == ValueOf(s0, sizes, m, v);
      assert s.Located(v);
    }
    forall v | s'.IsVar(v) && Stranded(s0, t, v)
      ensures Read(m2.mem, -t.varStorage[v].rbpOffset, sizes[v]) == Read(m.mem, -t.varStorage[v].rbpOffset, sizes[v])
    {
      assert !s.InRegister(v);
    }
  }

  lemma StoreSparesTargetSlots(t: VarState, sizes: seq<nat>, frame: nat, register: Reg, vn: int, callee: Callee,
                               m1: Machine)
    requires Valid(t, sizes, frame) && t.IsVar(vn) && t.StackOnly(vn) && PerfectSize(sizes[vn])
    ensures var m2 := Run(callee, m1, [MovMemReg(t.varStorage[vn].rbpOffset, sizes[vn], register)]);
            forall v :: t.IsVar(v) && v != vn && t.HasStackStorage(v) ==>
              Read(m2.mem, -t.varStorage[v].rbpOffset, sizes[v]) == Read(m1.mem, -t.varStorage[v].rbpOffset, sizes[v])
  {
    var offset := t.varStorage[vn].rbpOffset;
    RunOne(callee, m1, MovMemReg(offset, sizes[vn], register));
    var m2 := Run(callee, m1, [MovMemReg(offset, sizes[vn], register)]);
    forall v | t.IsVar(v) && v != vn && t.HasStackStorage(v)
      ensures Read(m2.mem, -t.varStorage[v].rbpOffset, sizes[v]) == Read(m1.mem, -t.varStorage[v].rbpOffset, sizes[v])
    {
      ReadElsewhere(m1.mem, offset, m1.regs[register][..sizes[vn]], t.varStorage[v].rbpOffset, sizes[v]);
    }
  }

  // ----- The end of the move -----

  lemma AllSettled(s0: VarState, s: VarState, t: VarState, sizes: seq<nat>, frame: nat, code: seq<Instr>, vn: int)
    requires Morphable(s0, t, sizes, frame) && Placed(s0, s, t, sizes, frame) && MovedBy(s0, s, t, sizes, code)
    requires forall r: Reg :: Settled(s, t, r)
    requires Live(s0, t, vn) && !Stranded(s0, t, vn)
    ensures Arrives(s0, t, sizes, code, vn)
  {
    if t.InRegister(vn) {
      assert Settled(s, t, t.varStorage[vn].currentRegister);
      assert !s0.Decommissioned(vn);
    } else {
      assert s.InRegister(vn) ==> Settled(s, t, s.varStorage[vn].currentRegister);
      assert s.StackOnly(vn);
    }
    forall callee: Callee, m: Machine
      ensures ValueOf(t, sizes, Run(callee, m, code), vn) == ValueOf(s0, sizes, m, vn)
    {
      assert Moved(s0, s, t, sizes, m, Run(callee, m, code));
      assert ValueOf(s, sizes, Run(callee, m, code), vn) == ValueOf(s0, sizes, m, vn);
    }
  }

  /** A machine on which a stranded variable's value does not arrive: only the first byte of its old slot is 1. */
  lemma StrandedIsLost(s0: VarState, s: VarState, t: VarState, sizes: seq<nat>, frame: nat, code: seq<Instr>, vn: int)
    requires Morphable(s0, t, sizes, frame) && Placed(s0, s, t, sizes, frame) && MovedBy(s0, s, t, sizes, code)
    requires Live(s0, t, vn) && Stranded(s0, t, vn) && sizes[vn] > 0
    ensures !Arrives(s0, t, sizes, code, vn)
  {
    hide SlotsSeparate, SlotsInFrame, AvailableExact, CrossSeparate;
    var from := -s0.varStorage[vn].rbpOffset;
    var to := -t.varStorage[vn].rbpOffset;
    var m := Machine(seq<Word>(NUM_REGISTERS, _ => ZERO_WORD), a => if a == from then 1 else 0);
    var callee: Callee := (name, before) => before;
    var m' := Run(callee, m, code);
    assert Moved(s0, s, t, sizes, m, m');
    assert Read(m'.mem, to, sizes[vn])[0] == Read(m.mem, to, sizes[vn])[0] == 0;
    assert Read(m.mem, from, sizes[vn])[0] == 1;
    assert ValueOf(t, sizes, Run(callee, m, code), vn) != ValueOf(s0, sizes, m, vn);
  }

  // ----- The turns of the loop, as they act on the whole invariant -----

  lemma DropProgress(s0: VarState, s: VarState, t: VarState, sizes: seq<nat>, frame: nat, n: Reg, code: seq<Instr>)
    requires Progress(s0, s, t, sizes, frame, code, n)
    requires s.occupiedBy[n] != INVALID && !t.Located(s.occupiedBy[n])
    ensures Progress(s0, Release(s, n), t, sizes, frame, code, n)
    ensures Misplaced(Release(s, n), t) < Misplaced(s, t)
  {
    DropStep(s0, s, t, sizes, frame, n, code);
    SettledSurvives(s, Release(s, n), t, n);
  }

  lemma StoreProgress(s0: VarState, s: VarState, t: VarState, sizes: seq<nat>, frame: nat, n: Reg, code: seq<Instr>)
    requires Progress(s0, s, t, sizes, frame, code, n)
    requires s.occupiedBy[n] != INVALID && t.StackOnly(s.occupiedBy[n])
    ensures var vn := s.occupiedBy[n];
            var s' := Release(TakeSlot(s, t, vn), n);
            && Progress(s0, s', t, sizes, frame, code + [MovMemReg(t.varStorage[vn].rbpOffset, sizes[vn], n)], n)
            && Misplaced(s', t) < Misplaced(s, t)
  {
    StoreStep(s0, s, t, sizes, frame, n, code);
    SettledSurvives(s, Release(TakeSlot(s, t, s.occupiedBy[n]), n), t, n);
  }

  /** The tenant of register n goes to its target register. */
  lemma SendProgress(s0: VarState, s: VarState, t: VarState, sizes: seq<nat>, frame: nat, n: Reg, code: seq<Instr>)
    requires Progress(s0, s, t, sizes, frame, code, n)
    requires s.occupiedBy[n] != INVALID && s.occupiedBy[n] != t.occupiedBy[n] && t.InRegister(s.occupiedBy[n])
    ensures var vn := s.occupiedBy[n];
            var e := LoadRegister(s, sizes, frame, false, t.varStorage[vn].currentRegister, vn);
            && CanLoad(s, sizes, frame, vn) && e.frame == frame
            && Progress(s0, e.state, t, sizes, frame, code + e.code, n)
            && Misplaced(e.state, t) < Misplaced(s, t)
  {
    var vn := s.occupiedBy[n];
    var to: Reg := t.varStorage[vn].currentRegister;
    assert !s.Decommissioned(vn);
    LoadStep(s0, s, t, sizes, frame, to, vn, code);
    LoadShrinks(s, t, sizes, frame, n);
    assert to < n ==> Settled(s, t, to);
    SettledSurvives(s, LoadRegister(s, sizes, frame, false, to, vn).state, t, n);
  }

  /** One turn for register n: drop its tenant, send it to its target register, or store it in its target slot. */
  function Turn(s: VarState, t: VarState, sizes: seq<nat>, frame: nat, n: Reg): Emitted
    requires Valid(s, sizes, frame) && |t.varStorage| == |s.varStorage|
    requires s.occupiedBy[n] != INVALID
    requires t.varStorage[s.occupiedBy[n]].currentRegister < NUM_REGISTERS
  {
    var vn := s.occupiedBy[n];
    if t.Decommissioned(vn) || !t.Located(vn) then
      Emitted(Release(s, n), frame, [])
    else if t.InRegister(vn) then
      LoadRegister(s, sizes, frame, false, t.varStorage[vn].currentRegister, vn)
    else
      Emitted(Release(TakeSlot(s, t, vn), n), frame, [MovMemReg(t.varStorage[vn].rbpOffset, sizes[vn], n)])
  }

  lemma TurnProgress(s0: VarState, s: VarState, t: VarState, sizes: seq<nat>, frame: nat, n: Reg, code: seq<Instr>)
    requires |s.occupiedBy| == |t.occupiedBy| == NUM_REGISTERS
    requires Progress(s0, s, t, sizes, frame, code, n)
    requires s.occupiedBy[n] != INVALID && s.occupiedBy[n] != t.occupiedBy[n]
    ensures CanLoad(s, sizes, frame, s.occupiedBy[n]) && |t.varStorage| == |s.varStorage|
    ensures t.varStorage[s.occupiedBy[n]].currentRegister < NUM_REGISTERS
    ensures var e := Turn(s, t, sizes, frame, n);
            && e.frame == frame && |e.state.occupiedBy| == NUM_REGISTERS
            && Progress(s0, e.state, t, sizes, frame, code + e.code, n)
            && Misplaced(e.state, t) < Misplaced(s, t)
  {
    var vn := s.occupiedBy[n];
    assert !s.Decommissioned(vn);
    if t.Decommissioned(vn) || !t.Located(vn) {
      DropProgress(s0, s, t, sizes, frame, n, code);
      assert code + [] == code;
    } else if t.InRegister(vn) {
      SendProgress(s0, s, t, sizes, frame, n, code);
    } else {
      StoreProgress(s0, s, t, sizes, frame, n, code);
    }
  }

  /** The empty register n fetches the tenant the target wants there. */
  lemma FetchProgress(s0: VarState, s: VarState, t: VarState, sizes: seq<nat>, frame: nat, n: Reg, code: seq<Instr>)
    requires Progress(s0, s, t, sizes, frame, code, n)
    requires s.occupiedBy[n] == INVALID && t.occupiedBy[n] != INVALID && !s.Decommissioned(t.occupiedBy[n])
    ensures var vn := t.occupiedBy[n];
            var e := LoadRegister(s, sizes, frame, false, n, vn);
            && CanLoad(s, sizes, frame, vn) && e.frame == frame
            && Progress(s0, e.state, t, sizes, frame, code + e.code, n + 1)
  {
    var vn := t.occupiedBy[n];
    LoadStep(s0, s, t, sizes, frame, n, vn, code);
    forall r: Reg | r < n ensures s.occupiedBy[r] != vn {
      assert Settled(s, t, r);
    }
    SettledSurvives(s, LoadRegister(s, sizes, frame, false, n, vn).state, t, n);
  }

  lemma SettledSurvives(s: VarState, s': VarState, t: VarState, n: int)
    requires Consistent(s) && Consistent(s') && Consistent(t)
    requires |s.varStorage| == |s'.varStorage| == |t.varStorage|
    requires forall r: Reg :: r < n ==> Settled(s, t, r)
    requires forall r: Reg :: r < n ==> s'.occupiedBy[r] == s.occupiedBy[r]
    requires forall v :: s.IsVar(v) ==> s'.Decommissioned(v) == s.Decommissioned(v)
    ensures forall r: Reg :: r < n ==> Settled(s', t, r)
  {
    forall r: Reg | r < n ensures Settled(s', t, r) {
      assert Settled(s, t, r);
    }
  }

  /** Once every register is settled, a variable arrives exactly when it is not stranded. */
  lemma MorphDone(s0: VarState, s: VarState, t: VarState, sizes: seq<nat>, frame: nat, code: seq<Instr>, vn: int)
    requires Progress(s0, s, t, sizes, frame, code, NUM_REGISTERS)
    requires Live(s0, t, vn) && sizes[vn] > 0
    ensures Arrives(s0, t, sizes, code, vn) <==> !Stranded(s0, t, vn)
  {
    if Stranded(s0, t, vn) {
      StrandedIsLost(s0, s, t, sizes, frame, code, vn);
    } else {
      AllSettled(s0, s, t, sizes, frame, code, vn);
    }
  }

  /** What is left to do for register n once no wrong tenant is in it. */
  function Finish(s: VarState, t: VarState, sizes: seq<nat>, frame: nat, n: Reg): Emitted
    requires Valid(s, sizes, frame) && |s.varStorage| == |t.varStorage| && |t.occupiedBy| == NUM_REGISTERS
    requires s.occupiedBy[n] == t.occupiedBy[n] || (s.occupiedBy[n] == INVALID && s.IsVar(t.occupiedBy[n]))
  {
    if s.occupiedBy[n] != t.occupiedBy[n] && !s.Decommissioned(t.occupiedBy[n])
    then LoadRegister(s, sizes, frame, false, n, t.occupiedBy[n])
    else Emitted(s, frame, [])
  }

  lemma FinishProgress(s0: VarState, s: VarState, t: VarState, sizes: seq<nat>, frame: nat, n: Reg, code: seq<Instr>)
    requires |s.occupiedBy| == |t.occupiedBy| == NUM_REGISTERS
    requires Progress(s0, s, t, sizes, frame, code, n)
    requires s.occupiedBy[n] == t.occupiedBy[n] || s.occupiedBy[n] == INVALID
    ensures Valid(s, sizes, frame) && |s.varStorage| == |t.varStorage|
    ensures s.occupiedBy[n] != t.occupiedBy[n] ==> s.IsVar(t.occupiedBy[n])
    ensures s.occupiedBy[n] != t.occupiedBy[n] && !s.Decommissioned(t.occupiedBy[n]) ==>
              CanLoad(s, sizes, frame, t.occupiedBy[n])
    ensures var e := Finish(s, t, sizes, frame, n);
            && e.frame == frame && |e.state.occupiedBy| == NUM_REGISTERS
            && Progress(s0, e.state, t, sizes, frame, code + e.code, n + 1)
  {
    hide LoadRegister;
    assert Consistent(s) && Consistent(t);
    var e := Finish(s, t, sizes, frame, n);
    if s.occupiedBy[n] != t.occupiedBy[n] && !s.Decommissioned(t.occupiedBy[n]) {
      FetchProgress(s0, s, t, sizes, frame, n, code);
    } else {
      assert code + [] == code;
      assert Settled(s, t, n);
    }
  }
}
