/** Where each variable lives: the values the register bookkeeping passes around, and what they mean. */
module VarStates {
  import opened Machine

  const INVALID := -1

  const NO_MARKS: seq<bool> := seq(NUM_REGISTERS, _ => false)

  /** `rbpOffset` is 0 when the variable has no slot, `currentRegister` is INVALID when it is in no register. */
  datatype VarStorage = VarStorage(rbpOffset: int, currentRegister: int, decommissioned: bool)

  datatype VarState = VarState(
    varStorage: seq<VarStorage>,
    occupiedBy: seq<int>,
    available: seq<Reg>,
    dontSwap: seq<bool>,
    nextRegToBeSwapped: Reg)
  {
    predicate IsVar(vn: int) {
      0 <= vn < |varStorage|
    }

    predicate InRegister(vn: int)
      requires IsVar(vn)
    {
      varStorage[vn].currentRegister > INVALID
    }

    predicate HasStackStorage(vn: int)
      requires IsVar(vn)
    {
      varStorage[vn].rbpOffset != 0
    }

    predicate Decommissioned(vn: int)
      requires IsVar(vn)
    {
      varStorage[vn].decommissioned
    }

    predicate Located(vn: int)
      requires IsVar(vn)
    {
      InRegister(vn) || HasStackStorage(vn)
    }

    predicate StackOnly(vn: int)
      requires IsVar(vn)
    {
      !InRegister(vn) && HasStackStorage(vn)
    }
  }

  /** The three views of tenancy agree, and decommissioned variables hold nothing. */
  ghost predicate Consistent(s: VarState) {
    && |s.occupiedBy| == NUM_REGISTERS
    && |s.dontSwap| == NUM_REGISTERS
    && (forall r: Reg :: s.occupiedBy[r] != INVALID ==>
          s.IsVar(s.occupiedBy[r]) && s.varStorage[s.occupiedBy[r]].currentRegister == r)
    && (forall v :: s.IsVar(v) ==> INVALID <= s.varStorage[v].currentRegister < NUM_REGISTERS)
    && (forall v :: s.IsVar(v) && s.InRegister(v) ==> s.occupiedBy[s.varStorage[v].currentRegister] == v)
    && (forall v :: s.IsVar(v) && s.Decommissioned(v) ==> !s.Located(v))
  }

  /** `available` lists every untenanted register exactly once. */
  ghost predicate AvailableExact(s: VarState)
    requires |s.occupiedBy| == NUM_REGISTERS
  {
    && (forall i, j :: 0 <= i < j < |s.available| ==> s.available[i] != s.available[j])
    && (forall r: Reg :: r in s.available <==> s.occupiedBy[r] == INVALID)
  }

  /** Only variables with a register name of their size are ever put in registers. */
  ghost predicate SizesFit(s: VarState, sizes: seq<nat>) {
    && |sizes| == |s.varStorage|
    && (forall v :: s.IsVar(v) && s.InRegister(v) ==> PerfectSize(sizes[v]))
  }

  predicate Disjoint(offset: int, size: nat, offset': int, size': nat) {
    -offset + size <= -offset' || -offset' + size' <= -offset
  }

  /** Slots of different variables never overlap; a slot below rbp is inside the frame. */
  ghost predicate SlotsSeparate(s: VarState, sizes: seq<nat>)
    requires |sizes| == |s.varStorage|
  {
    forall u, v :: s.IsVar(u) && s.IsVar(v) && u != v && s.HasStackStorage(u) && s.HasStackStorage(v) ==>
      Disjoint(s.varStorage[u].rbpOffset, sizes[u], s.varStorage[v].rbpOffset, sizes[v])
  }

  ghost predicate SlotsInFrame(s: VarState, sizes: seq<nat>, frame: nat)
    requires |sizes| == |s.varStorage|
  {
    forall v :: s.IsVar(v) && s.varStorage[v].rbpOffset > 0 ==> sizes[v] <= s.varStorage[v].rbpOffset <= frame
  }

  ghost predicate Valid(s: VarState, sizes: seq<nat>, frame: nat) {
    && Consistent(s)
    && AvailableExact(s)
    && SizesFit(s, sizes)
    && SlotsSeparate(s, sizes)
    && SlotsInFrame(s, sizes, frame)
  }

  /** The value of a located variable: the low bytes of its register, or else its slot. */
  ghost function ValueOf(s: VarState, sizes: seq<nat>, m: Machine, vn: int): seq<Byte>
    requires Consistent(s) && SizesFit(s, sizes)
    requires s.IsVar(vn)
  {
    if s.InRegister(vn) then m.regs[s.varStorage[vn].currentRegister][..sizes[vn]]
    else Read(m.mem, -s.varStorage[vn].rbpOffset, sizes[vn])
  }

  /** From state s on machine m to state s' on machine m', every located variable keeps its value. */
  ghost predicate Carries(s: VarState, s': VarState, sizes: seq<nat>, m: Machine, m': Machine)
    requires Consistent(s) && SizesFit(s, sizes)
    requires Consistent(s') && SizesFit(s', sizes)
  {
    forall v :: s.IsVar(v) && s.Located(v) ==>
      s'.Located(v) && ValueOf(s', sizes, m', v) == ValueOf(s, sizes, m, v)
  }

  /** Whatever the machine holds, running `code` takes every located variable of s to its place in s'. */
  ghost predicate Keeps(s: VarState, s': VarState, sizes: seq<nat>, code: seq<Instr>)
    requires Consistent(s) && SizesFit(s, sizes)
    requires Consistent(s') && SizesFit(s', sizes)
  {
    forall callee: Callee, m: Machine :: Carries(s, s', sizes, m, Run(callee, m, code))
  }

  lemma KeepsChain(s: VarState, s': VarState, s'': VarState, sizes: seq<nat>, a: seq<Instr>, b: seq<Instr>)
    requires Consistent(s) && SizesFit(s, sizes)
    requires Consistent(s') && SizesFit(s', sizes)
    requires Consistent(s'') && SizesFit(s'', sizes)
    requires Keeps(s, s', sizes, a) && Keeps(s', s'', sizes, b)
    ensures Keeps(s, s'', sizes, a + b)
  {
    forall callee: Callee, m: Machine ensures Carries(s, s'', sizes, m, Run(callee, m, a + b)) {
      RunAppend(callee, m, a, b);
      var m' := Run(callee, m, a);
      assert Carries(s, s', sizes, m, m');
      assert Carries(s', s'', sizes, m', Run(callee, m', b));
    }
  }

  /** Variables may be left without a place and none gets one; those that have one still have their value. */
  ghost predicate KeepsRest(s: VarState, s': VarState, sizes: seq<nat>, code: seq<Instr>)
    requires Consistent(s) && SizesFit(s, sizes)
    requires Consistent(s') && SizesFit(s', sizes)
  {
    && |s'.varStorage| == |s.varStorage|
    && (forall v :: s.IsVar(v) && s'.Located(v) ==> s.Located(v))
    && forall callee: Callee, m: Machine :: CarriesRest(s, s', sizes, m, Run(callee, m, code))
  }

  ghost predicate CarriesRest(s: VarState, s': VarState, sizes: seq<nat>, m: Machine, m': Machine)
    requires Consistent(s) && SizesFit(s, sizes)
    requires Consistent(s') && SizesFit(s', sizes)
  {
    forall v :: s.IsVar(v) && s'.IsVar(v) && s.Located(v) && s'.Located(v) ==>
        ValueOf(s', sizes, m', v) == ValueOf(s, sizes, m, v)
  }

  lemma KeepsRestChain(s: VarState, s': VarState, s'': VarState, sizes: seq<nat>, a: seq<Instr>, b: seq<Instr>)
    requires Consistent(s) && SizesFit(s, sizes)
    requires Consistent(s') && SizesFit(s', sizes)
    requires Consistent(s'') && SizesFit(s'', sizes)
    requires KeepsRest(s, s', sizes, a) && KeepsRest(s', s'', sizes, b)
    ensures KeepsRest(s, s'', sizes, a + b)
  {
    hide ValueOf;
    forall callee: Callee, m: Machine ensures CarriesRest(s, s'', sizes, m, Run(callee, m, a + b)) {
      RunAppend(callee, m, a, b);
      var m' := Run(callee, m, a);
      assert CarriesRest(s, s', sizes, m, m');
      assert CarriesRest(s', s'', sizes, m', Run(callee, m', b));
    }
  }

  lemma KeepsIsRest(s: VarState, s': VarState, sizes: seq<nat>, code: seq<Instr>)
    requires Consistent(s) && SizesFit(s, sizes)
    requires Consistent(s') && SizesFit(s', sizes)
    requires |s'.varStorage| == |s.varStorage| && Keeps(s, s', sizes, code)
    requires forall v :: s.IsVar(v) && s'.Located(v) ==> s.Located(v)
    ensures KeepsRest(s, s', sizes, code)
  {
    hide ValueOf;
    forall callee: Callee, m: Machine ensures CarriesRest(s, s', sizes, m, Run(callee, m, code)) {
      assert Carries(s, s', sizes, m, Run(callee, m, code));
    }
  }

  /** A variable loses its place and nothing else happens. */
  lemma LosingKeepsRest(s: VarState, s': VarState, sizes: seq<nat>, lost: int)
    requires Consistent(s) && SizesFit(s, sizes)
    requires Consistent(s') && SizesFit(s', sizes)
    requires |s'.varStorage| == |s.varStorage| && s.IsVar(lost) && !s'.Located(lost)
    requires forall v :: s.IsVar(v) && v != lost ==> s'.varStorage[v] == s.varStorage[v]
    ensures KeepsRest(s, s', sizes, [])
  {
  }

  lemma KeepsNothingMoved(s: VarState, s': VarState, sizes: seq<nat>)
    requires Consistent(s) && SizesFit(s, sizes)
    requires Consistent(s') && SizesFit(s', sizes)
    requires |s.varStorage| == |s'.varStorage|
    requires forall v :: s.IsVar(v) && s.Located(v) ==>
               && s'.varStorage[v].currentRegister == s.varStorage[v].currentRegister
               && (s.HasStackStorage(v) ==> s'.varStorage[v].rbpOffset == s.varStorage[v].rbpOffset)
    ensures Keeps(s, s', sizes, [])
  {
  }

  /** The swap marks play no part in where variables live. */
  lemma MarksDoNotMatter(s0: VarState, s: VarState, s': VarState, sizes: seq<nat>, frame: nat, code: seq<Instr>)
    requires Valid(s, sizes, frame)
    requires s' == s.(dontSwap := s'.dontSwap, nextRegToBeSwapped := s'.nextRegToBeSwapped)
    requires |s'.dontSwap| == NUM_REGISTERS
    requires Consistent(s0) && SizesFit(s0, sizes) && Keeps(s0, s, sizes, code)
    ensures Valid(s', sizes, frame) && Keeps(s0, s', sizes, code)
  {
    assert Consistent(s') by {
      forall v | s'.IsVar(v) && s'.Decommissioned(v) ensures !s'.Located(v) {
        assert s.Decommissioned(v);
      }
    }
    forall callee: Callee, m: Machine ensures Carries(s0, s', sizes, m, Run(callee, m, code)) {
      assert Carries(s0, s, sizes, m, Run(callee, m, code));
      forall v | s0.IsVar(v) && s0.Located(v)
        ensures s'.Located(v) && ValueOf(s', sizes, Run(callee, m, code), v) == ValueOf(s0, sizes, m, v)
      {
        assert s.Located(v);
      }
    }
  }

  /** A slot, once handed out, stays where it is, and a new slot lies outside the frame as it was. No variable is
      decommissioned, and none comes back. */
  ghost predicate SlotsGrow(s: VarState, frame: nat, s': VarState, frame': nat, sizes: seq<nat>)
    requires |sizes| == |s.varStorage| == |s'.varStorage|
  {
    && frame <= frame'
    && (forall v :: s.IsVar(v) ==>
          || s'.varStorage[v].rbpOffset == s.varStorage[v].rbpOffset
          || (s.varStorage[v].rbpOffset == 0 && frame + sizes[v] <= s'.varStorage[v].rbpOffset <= frame'))
    && (forall v :: s.IsVar(v) ==> s'.Decommissioned(v) == s.Decommissioned(v))
  }

  lemma SlotsGrowNowhere(s: VarState, frame: nat, sizes: seq<nat>)
    requires |sizes| == |s.varStorage|
    ensures SlotsGrow(s, frame, s, frame, sizes)
  {
  }

  lemma SlotsGrowChain(s: VarState, frame: nat, s': VarState, frame': nat, s'': VarState, frame'': nat, sizes: seq<nat>)
    requires |sizes| == |s.varStorage| == |s'.varStorage| == |s''.varStorage|
    requires SlotsGrow(s, frame, s', frame', sizes) && SlotsGrow(s', frame', s'', frame'', sizes)
    ensures SlotsGrow(s, frame, s'', frame'', sizes)
  {
  }

  // ----- The elementary updates -----

  function Rebook(s: VarState, vn: int, register: Reg): VarState
    requires |s.occupiedBy| == NUM_REGISTERS && s.IsVar(vn)
  {
    s.(occupiedBy := s.occupiedBy[register := vn],
       varStorage := s.varStorage[vn := s.varStorage[vn].(currentRegister := register)])
  }

  function IndexOf(a: seq<Reg>, r: Reg): (i: nat)
    requires r in a
    ensures i < |a| && a[i] == r && r !in a[..i]
  {
    if a[0] == r then 0 else 1 + IndexOf(a[1..], r)
  }

  function Without(a: seq<Reg>, r: Reg): seq<Reg>
    requires r in a
  {
    a[..IndexOf(a, r)] + a[IndexOf(a, r) + 1..]
  }

  lemma WithoutMembers(a: seq<Reg>, r: Reg)
    requires r in a
    requires forall i, j :: 0 <= i < j < |a| ==> a[i] != a[j]
    ensures forall i, j :: 0 <= i < j < |Without(a, r)| ==> Without(a, r)[i] != Without(a, r)[j]
    ensures forall x: Reg :: x in Without(a, r) <==> x in a && x != r
  {
    var k := IndexOf(a, r);
    forall x: Reg ensures x in Without(a, r) <==> x in a && x != r {
      if x in a && x != r {
        var i :| 0 <= i < |a| && a[i] == x;
        assert i < k ==> Without(a, r)[i] == x;
        assert i > k ==> Without(a, r)[i - 1] == x;
      }
    }
  }

  function Allocate(s: VarState, register: Reg, vn: int): VarState
    requires |s.occupiedBy| == NUM_REGISTERS && s.IsVar(vn) && register in s.available
  {
    Rebook(s.(available := Without(s.available, register)), vn, register)
  }

  predicate TenantKnown(s: VarState, register: Reg) {
    && |s.occupiedBy| == NUM_REGISTERS
    && (s.occupiedBy[register] == INVALID || s.IsVar(s.occupiedBy[register]))
  }

  function Release(s: VarState, register: Reg): VarState
    requires TenantKnown(s, register)
  {
    var owner := s.occupiedBy[register];
    var storage := if owner != INVALID
                   then s.varStorage[owner := s.varStorage[owner].(currentRegister := INVALID)]
                   else s.varStorage;
    s.(varStorage := storage, occupiedBy := s.occupiedBy[register := INVALID],
       available := s.available + [register])
  }

  datatype Framed = Framed(state: VarState, frame: nat)

  function GiveSlot(s: VarState, sizes: seq<nat>, frame: nat, vn: int): Framed
    requires s.IsVar(vn) && |sizes| == |s.varStorage|
  {
    if s.HasStackStorage(vn) then Framed(s, frame)
    else
      var frame' := frame + sizes[vn];
      Framed(s.(varStorage := s.varStorage[vn := s.varStorage[vn].(rbpOffset := frame')]), frame')
  }

  lemma AllocateValid(s: VarState, sizes: seq<nat>, frame: nat, register: Reg, vn: int)
    requires Valid(s, sizes, frame)
    requires s.IsVar(vn) && !s.InRegister(vn) && !s.Decommissioned(vn) && PerfectSize(sizes[vn])
    requires s.occupiedBy[register] == INVALID
    ensures Valid(Allocate(s, register, vn), sizes, frame)
  {
    WithoutMembers(s.available, register);
    var s' := Allocate(s, register, vn);
    assert Consistent(s') by {
      forall v | s'.IsVar(v) && s'.Decommissioned(v) ensures !s'.Located(v) {
        assert s.Decommissioned(v);
      }
    }
  }

  lemma ReleaseValid(s: VarState, sizes: seq<nat>, frame: nat, register: Reg)
    requires Valid(s, sizes, frame)
    requires s.occupiedBy[register] != INVALID
    ensures Valid(Release(s, register), sizes, frame)
  {
    var s' := Release(s, register);
    assert AvailableExact(s') by {
      forall r: Reg ensures r in s'.available <==> s'.occupiedBy[r] == INVALID {
        assert r in s.available <==> s.occupiedBy[r] == INVALID;
      }
    }
    assert Consistent(s') by {
      forall v | s'.IsVar(v) && s'.Decommissioned(v) ensures !s'.Located(v) {
        assert s.Decommissioned(v);
      }
    }
  }

  lemma TenantedIsUnavailable(s: VarState, sizes: seq<nat>, frame: nat, register: Reg)
    requires Valid(s, sizes, frame)
    ensures register in s.available <==> s.occupiedBy[register] == INVALID
  {
  }

  lemma ReleaseGrows(s: VarState, frame: nat, register: Reg, sizes: seq<nat>)
    requires Consistent(s) && |sizes| == |s.varStorage|
    ensures var s' := Release(s, register);
            && |s'.varStorage| == |s.varStorage|
            && SlotsGrow(s, frame, s', frame, sizes)
            && (forall v :: s.IsVar(v) ==> s'.Decommissioned(v) == s.Decommissioned(v))
  {
  }

  lemma GiveSlotValid(s: VarState, sizes: seq<nat>, frame: nat, vn: int)
    requires Valid(s, sizes, frame)
    requires s.IsVar(vn) && !s.Decommissioned(vn)
    ensures Valid(GiveSlot(s, sizes, frame, vn).state, sizes, GiveSlot(s, sizes, frame, vn).frame)
  {
    var s' := GiveSlot(s, sizes, frame, vn).state;
    forall v | s'.IsVar(v) && s'.Decommissioned(v) ensures !s'.Located(v) {
      assert s.Decommissioned(v);
    }
  }

  /** A new slot goes from the end of the frame as it is then to its end as it was, and only its variable has
      changed. */
  lemma SlotFillsGrowth(s: VarState, sizes: seq<nat>, frame: nat, vn: int)
    requires s.IsVar(vn) && |sizes| == |s.varStorage| && !s.HasStackStorage(vn)
    ensures var g := GiveSlot(s, sizes, frame, vn); var offset := g.state.varStorage[vn].rbpOffset;
      && offset == g.frame && offset - sizes[vn] == frame
      && g.state == s.(varStorage := g.state.varStorage) && |g.state.varStorage| == |s.varStorage|
      && g.state.varStorage[vn].currentRegister == s.varStorage[vn].currentRegister
      && forall v :: s.IsVar(v) && v != vn ==> g.state.varStorage[v] == s.varStorage[v]
  {
  }

  /** The variable gives up its register and its slot for good. */
  function Forget(s: VarState, vn: int): VarState
    requires s.IsVar(vn)
    requires s.InRegister(vn) ==>
        s.varStorage[vn].currentRegister < NUM_REGISTERS && TenantKnown(s, s.varStorage[vn].currentRegister)
  {
    var s1 := if s.InRegister(vn) then Release(s, s.varStorage[vn].currentRegister) else s;
    s1.(varStorage := s1.varStorage[vn := VarStorage(0, INVALID, true)])
  }

  lemma ForgetValid(s: VarState, sizes: seq<nat>, frame: nat, vn: int)
    requires Valid(s, sizes, frame) && s.IsVar(vn)
    ensures Valid(Forget(s, vn), sizes, frame)
    ensures |Forget(s, vn).varStorage| == |s.varStorage|
    ensures forall v :: s.IsVar(v) && v != vn ==> Forget(s, vn).varStorage[v] == s.varStorage[v]
  {
    var s' := Forget(s, vn);
    if s.InRegister(vn) {
      ReleaseValid(s, sizes, frame, s.varStorage[vn].currentRegister);
    }
    assert Consistent(s') by {
      forall v | s'.IsVar(v) && s'.Decommissioned(v) ensures !s'.Located(v) {
        assert v != vn ==> s.Decommissioned(v);
      }
    }
  }
}
