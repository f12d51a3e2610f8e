/** Storage states over a whole run of the generator. */
module Histories {
  import opened Machine
  import opened VarStates
  import opened LoadRegisters
  import opened CallConventions
  import opened Morphs
  import opened ProcGens
  import opened Legs

  /** The frame counter belongs to the generator, not to a state: a restore does not turn it back. */
  datatype History = History(current: VarState, snapshots: seq<VarState>, frame: nat)

  /** What any operation does to slots: keep one, drop one, or hand out one beyond the frame as it was. */
  ghost predicate SlotsMove(s: VarState, frame: nat, s': VarState, frame': nat, sizes: seq<nat>)
    requires |sizes| == |s.varStorage| == |s'.varStorage|
  {
    && frame <= frame'
    && forall v :: s.IsVar(v) ==>
         || s'.varStorage[v].rbpOffset == s.varStorage[v].rbpOffset
         || s'.varStorage[v].rbpOffset == 0
         || (s.varStorage[v].rbpOffset == 0 && frame + sizes[v] <= s'.varStorage[v].rbpOffset <= frame')
  }

  lemma OperationsMoveSlots(s: VarState, frame: nat, s': VarState, frame': nat, sizes: seq<nat>)
    requires |sizes| == |s.varStorage| == |s'.varStorage|
    requires SlotsGrow(s, frame, s', frame', sizes)
    ensures SlotsMove(s, frame, s', frame', sizes)
  {
  }

  lemma ForgettingMovesSlots(s: VarState, frame: nat, vn: int, sizes: seq<nat>)
    requires Valid(s, sizes, frame) && s.IsVar(vn)
    ensures |Forget(s, vn).varStorage| == |s.varStorage| && SlotsMove(s, frame, Forget(s, vn), frame, sizes)
  {
    ForgetValid(s, sizes, frame, vn);
  }

  ghost predicate Operates(h: History, h': History, sizes: seq<nat>) {
    && h'.snapshots == h.snapshots
    && |sizes| == |h.current.varStorage| == |h'.current.varStorage|
    && Valid(h'.current, sizes, h'.frame)
    && SlotsMove(h.current, h.frame, h'.current, h'.frame, sizes)
  }

  ghost predicate Step(h: History, h': History, sizes: seq<nat>) {
    || Operates(h, h', sizes)
    || h' == h.(snapshots := h.snapshots + [h.current])
    || (exists k :: 0 <= k < |h.snapshots| && h' == h.(current := h.snapshots[k]))
  }

  ghost predicate IsRun(run: seq<History>, sizes: seq<nat>) {
    && |run| > 0
    && run[0].snapshots == [] && Valid(run[0].current, sizes, run[0].frame)
    && forall i :: 0 < i < |run| ==> Step(run[i - 1], run[i], sizes)
  }

  /** The current state and every snapshot are valid in the frame as it is now, and no slot of one overlaps a slot of
      a different variable in another. */
  ghost predicate Separate(h: History, sizes: seq<nat>) {
    && Valid(h.current, sizes, h.frame)
    && (forall k :: 0 <= k < |h.snapshots| ==>
          Morphable(h.current, h.snapshots[k], sizes, h.frame) && Morphable(h.snapshots[k], h.current, sizes, h.frame))
    && (forall j, k :: 0 <= j < |h.snapshots| && 0 <= k < |h.snapshots| ==>
          Morphable(h.snapshots[j], h.snapshots[k], sizes, h.frame))
  }

  lemma SelfMorphable(s: VarState, sizes: seq<nat>, frame: nat)
    requires Valid(s, sizes, frame)
    ensures Morphable(s, s, sizes, frame)
  {
  }

  /** A state stays morphable into and from a snapshot while operations change it. */
  lemma OperationKeepsMorphable(s: VarState, frame: nat, s': VarState, frame': nat, t: VarState, sizes: seq<nat>)
    requires Morphable(s, t, sizes, frame) && Morphable(t, s, sizes, frame)
    requires |s'.varStorage| == |s.varStorage| && Valid(s', sizes, frame')
    requires SlotsMove(s, frame, s', frame', sizes)
    ensures Morphable(s', t, sizes, frame') && Morphable(t, s', sizes, frame')
  {
  }

  lemma FrameGrows(s: VarState, t: VarState, sizes: seq<nat>, frame: nat, frame': nat)
    requires Morphable(s, t, sizes, frame) && frame <= frame'
    ensures Morphable(s, t, sizes, frame')
  {
  }

  lemma StepKeepsSeparate(h: History, h': History, sizes: seq<nat>)
    requires Separate(h, sizes) && Step(h, h', sizes)
    ensures Separate(h', sizes)
  {
    hide Morphable, Valid;
    if Operates(h, h', sizes) {
      forall k | 0 <= k < |h'.snapshots|
        ensures Morphable(h'.current, h'.snapshots[k], sizes, h'.frame)
            && Morphable(h'.snapshots[k], h'.current, sizes, h'.frame)
      {
        OperationKeepsMorphable(h.current, h.frame, h'.current, h'.frame, h.snapshots[k], sizes);
      }
      forall j, k | 0 <= j < |h'.snapshots| && 0 <= k < |h'.snapshots|
        ensures Morphable(h'.snapshots[j], h'.snapshots[k], sizes, h'.frame)
      {
        FrameGrows(h.snapshots[j], h.snapshots[k], sizes, h.frame, h'.frame);
      }
    } else if h' == h.(snapshots := h.snapshots + [h.current]) {
      SelfMorphable(h.current, sizes, h.frame);
    } else {
      var k :| 0 <= k < |h.snapshots| && h' == h.(current := h.snapshots[k]);
      MorphableIsValid(h.snapshots[k], h.snapshots[k], sizes, h.frame);
    }
  }

  lemma MorphableIsValid(s: VarState, t: VarState, sizes: seq<nat>, frame: nat)
    requires Morphable(s, t, sizes, frame)
    ensures Valid(s, sizes, frame)
  {
  }

  /** On every run, whatever was snapshot can be morphed into from whatever is current. */
  lemma {:induction false} RunsStaySeparate(run: seq<History>, sizes: seq<nat>)
    requires IsRun(run, sizes)
    ensures Separate(run[|run| - 1], sizes)
  {
    if |run| > 1 {
      RunsStaySeparate(run[..|run| - 1], sizes);
      StepKeepsSeparate(run[|run| - 2], run[|run| - 1], sizes);
    }
  }

  // ----- All slots ever handed out -----

  /** At some time in the run v had the slot at this offset. */
  ghost predicate HandedOut(run: seq<History>, v: int, offset: int) {
    offset != 0 && exists i ::
        0 <= i < |run| && run[i].current.IsVar(v) && run[i].current.varStorage[v].rbpOffset == offset
  }

  lemma RunBefore(run: seq<History>, sizes: seq<nat>)
    requires IsRun(run, sizes) && |run| > 1
    ensures IsRun(run[..|run| - 1], sizes) && Step(run[|run| - 2], run[|run| - 1], sizes)
  {
    hide Step, Valid;
    var before := run[..|run| - 1];
    forall i | 0 < i < |before| ensures Step(before[i - 1], before[i], sizes) {
      assert Step(run[i - 1], run[i], sizes);
    }
    assert run[|run| - 1 - 1] == run[|run| - 2];
  }

  /** Every snapshot is a state the run was in before. */
  lemma {:induction false} SnapshotIsEarlier(run: seq<History>, sizes: seq<nat>, k: nat)
    requires IsRun(run, sizes) && k < |run[|run| - 1].snapshots|
    ensures exists i :: 0 <= i < |run| && run[i].current == run[|run| - 1].snapshots[k]
  {
    hide Valid, Operates;
    if |run| > 1 {
      RunBefore(run, sizes);
      var before, h := run[..|run| - 1], run[|run| - 2];
      assert before[|before| - 1] == h;
      SnapshotsOf(h, run[|run| - 1], sizes);
      if k < |h.snapshots| {
        SnapshotIsEarlier(before, sizes, k);
        var i :| 0 <= i < |before| && before[i].current == h.snapshots[k];
        assert run[i] == before[i];
      }
    }
  }

  lemma SnapshotsOf(h: History, h': History, sizes: seq<nat>)
    requires Step(h, h', sizes)
    ensures h'.snapshots == h.snapshots || h'.snapshots == h.snapshots + [h.current]
  {
    hide Valid, SlotsMove;
  }

  /** A slot of the last state has been handed out before, or lies beyond the frame as it was one step earlier. */
  lemma LastSlot(run: seq<History>, sizes: seq<nat>, v: int)
    requires IsRun(run, sizes) && |run| > 1
    requires var s := run[|run| - 1].current; s.IsVar(v) && s.HasStackStorage(v)
    ensures v < |sizes|
    ensures var o := run[|run| - 1].current.varStorage[v].rbpOffset;
      HandedOut(run[..|run| - 1], v, o) || run[|run| - 2].frame + sizes[v] <= o <= run[|run| - 1].frame
  {
    hide Valid, Morphable;
    RunBefore(run, sizes);
    RunsStaySeparate(run, sizes);
    ValidLength(run[|run| - 1].current, sizes, run[|run| - 1].frame);
    var before, h, h' := run[..|run| - 1], run[|run| - 2], run[|run| - 1];
    var o := h'.current.varStorage[v].rbpOffset;
    assert before[|before| - 1] == h;
    if Operates(h, h', sizes) {
      if h.current.varStorage[v].rbpOffset == o {
        assert HandedOut(before, v, o);
      }
    } else if h' == h.(snapshots := h.snapshots + [h.current]) {
      assert HandedOut(before, v, o);
    } else {
      var k :| 0 <= k < |h.snapshots| && h' == h.(current := h.snapshots[k]);
      SnapshotIsEarlier(before, sizes, k);
      var i :| 0 <= i < |before| && before[i].current == h.snapshots[k];
      assert HandedOut(before, v, o);
    }
  }

  lemma ValidLength(s: VarState, sizes: seq<nat>, frame: nat)
    requires Valid(s, sizes, frame)
    ensures |sizes| == |s.varStorage| && SlotsSeparate(s, sizes) && SlotsInFrame(s, sizes, frame)
  {
  }

  lemma FrameNeverShrinks(h: History, h': History, sizes: seq<nat>)
    requires Step(h, h', sizes)
    ensures h.frame <= h'.frame
  {
    hide Valid;
  }

  /** Every slot handed out below rbp is inside the final frame, whether it is still in use or not. */
  lemma {:induction false} AllSlotsInFrame(run: seq<History>, sizes: seq<nat>, v: int, offset: int)
    requires IsRun(run, sizes) && HandedOut(run, v, offset)
    ensures 0 <= v < |sizes| && (offset > 0 ==> sizes[v] <= offset <= run[|run| - 1].frame)
  {
    hide Valid, Step, Separate;
    var h := run[|run| - 1];
    LastIsValid(run, sizes);
    if h.current.IsVar(v) && h.current.varStorage[v].rbpOffset == offset {
    } else {
      var i :| 0 <= i < |run| && run[i].current.IsVar(v) && run[i].current.varStorage[v].rbpOffset == offset;
      var before := run[..|run| - 1];
      assert before[i] == run[i];
      RunBefore(run, sizes);
      FrameNeverShrinks(run[|run| - 2], h, sizes);
      AllSlotsInFrame(before, sizes, v, offset);
    }
  }

  lemma LastIsValid(run: seq<History>, sizes: seq<nat>)
    requires IsRun(run, sizes)
    ensures var h := run[|run| - 1];
      |sizes| == |h.current.varStorage| && SlotsSeparate(h.current, sizes) && SlotsInFrame(h.current, sizes, h.frame)
  {
    hide Valid, Step;
    RunsStaySeparate(run, sizes);
    ValidLength(run[|run| - 1].current, sizes, run[|run| - 1].frame);
  }

  /** All slots ever handed out are pairwise disjoint: those of different variables, and different ones of one
      variable. */
  lemma {:induction false} AllSlotsApart(run: seq<History>, sizes: seq<nat>, u: int, o: int, v: int, o': int)
    requires IsRun(run, sizes) && HandedOut(run, u, o) && HandedOut(run, v, o') && (u, o) != (v, o')
    ensures 0 <= u < |sizes| && 0 <= v < |sizes| && Disjoint(o, sizes[u], o', sizes[v])
  {
    hide Valid, Step, Separate, HandedOut;
    AllSlotsInFrame(run, sizes, u, o);
    AllSlotsInFrame(run, sizes, v, o');
    if |run| == 1 {
      FirstSlotsApart(run, sizes, u, o, v, o');
    } else {
      var before := run[..|run| - 1];
      RunBefore(run, sizes);
      if HandedOut(before, u, o) && HandedOut(before, v, o') {
        AllSlotsApart(before, sizes, u, o, v, o');
      } else if HandedOut(before, u, o) {
        NewSlotApart(run, sizes, u, o, v, o');
      } else if HandedOut(before, v, o') {
        NewSlotApart(run, sizes, v, o', u, o);
      } else {
        LastSlotsApart(run, sizes, u, o, v, o');
      }
    }
  }

  lemma OnlyInLast(run: seq<History>, v: int, offset: int)
    requires |run| > 0 && HandedOut(run, v, offset) && !HandedOut(run[..|run| - 1], v, offset)
    ensures var s := run[|run| - 1].current; s.IsVar(v) && s.varStorage[v].rbpOffset == offset && offset != 0
  {
    var i :| 0 <= i < |run| && run[i].current.IsVar(v) && run[i].current.varStorage[v].rbpOffset == offset;
    assert forall j :: 0 <= j < |run| - 1 ==> run[..|run| - 1][j] == run[j];
  }

  lemma FirstSlotsApart(run: seq<History>, sizes: seq<nat>, u: int, o: int, v: int, o': int)
    requires IsRun(run, sizes) && |run| == 1 && HandedOut(run, u, o) && HandedOut(run, v, o') && (u, o) != (v, o')
    ensures 0 <= u < |sizes| && 0 <= v < |sizes| && Disjoint(o, sizes[u], o', sizes[v])
  {
    hide Valid;
    assert !HandedOut(run[..0], u, o) && !HandedOut(run[..0], v, o');
    LastSlotsApart(run, sizes, u, o, v, o');
  }

  lemma LastSlotsApart(run: seq<History>, sizes: seq<nat>, u: int, o: int, v: int, o': int)
    requires IsRun(run, sizes) && HandedOut(run, u, o) && HandedOut(run, v, o') && (u, o) != (v, o')
    requires !HandedOut(run[..|run| - 1], u, o) && !HandedOut(run[..|run| - 1], v, o')
    ensures 0 <= u < |sizes| && 0 <= v < |sizes| && Disjoint(o, sizes[u], o', sizes[v])
  {
    hide Valid, Step, HandedOut;
    LastIsValid(run, sizes);
    OnlyInLast(run, u, o);
    OnlyInLast(run, v, o');
  }

  /** A slot handed out in the last step is beyond all that were handed out before. */
  lemma NewSlotApart(run: seq<History>, sizes: seq<nat>, u: int, o: int, v: int, o': int)
    requires IsRun(run, sizes) && |run| > 1 && HandedOut(run[..|run| - 1], u, o)
    requires HandedOut(run, v, o') && !HandedOut(run[..|run| - 1], v, o')
    ensures 0 <= u < |sizes| && 0 <= v < |sizes| && Disjoint(o, sizes[u], o', sizes[v])
  {
    hide Valid, IsRun, HandedOut;
    RunBefore(run, sizes);
    OnlyInLast(run, v, o');
    LastSlot(run, sizes, v);
    AllSlotsInFrame(run[..|run| - 1], sizes, u, o);
  }

  // ----- The generator's runs -----

  datatype Operation =
    | ClearMarks
    | LoadRegisterWithVar(register: Reg, vn: int)
    | EnsureInRegister(vn: int)
    | AllocateRuntimeStorage(vn: int)
    | FindOrMakeFreeReg
    | FreeUpRegisters(allocateNewStackStorage: bool, targets: seq<Reg>)
    | Decommission(vn: int)
    | Call(name: string, argVars: seq<int>, retVar: int, lastUsage: seq<nat>, optIdx: nat)
    | Snapshot
    | Restore(k: nat)
    | MorphTo(k: nat)

  /** The variables an operation may change. */
  ghost function Gone(op: Operation): set<int> {
    if op.Call? then ProcGen.UsedLast(op.lastUsage, op.optIdx) + {op.retVar} else {}
  }

  lemma KeptIsStep(s: VarState, frame: nat, s': VarState, frame': nat, snapshots: seq<VarState>, sizes: seq<nat>)
    requires Valid(s', sizes, frame') && |sizes| == |s.varStorage| == |s'.varStorage|
        && SlotsGrow(s, frame, s', frame', sizes)
    ensures Step(History(s, snapshots, frame), History(s', snapshots, frame'), sizes)
  {
    hide Valid, SlotsGrow;
    OperationsMoveSlots(s, frame, s', frame', sizes);
  }

  lemma ForgettingIsStep(s: VarState, frame: nat, vn: int, snapshots: seq<VarState>, sizes: seq<nat>)
    requires Valid(s, sizes, frame) && s.IsVar(vn) && Valid(Forget(s, vn), sizes, frame)
    ensures Step(History(s, snapshots, frame), History(Forget(s, vn), snapshots, frame), sizes)
  {
    hide Forget;
    ForgettingMovesSlots(s, frame, vn, sizes);
  }

  lemma CopyIsStep(h: History, sizes: seq<nat>)
    ensures Step(h, h.(snapshots := h.snapshots + [h.current]), sizes)
  {
  }

  lemma RestoreIsStep(h: History, k: nat, sizes: seq<nat>)
    requires k < |h.snapshots|
    ensures Step(h, h.(current := h.snapshots[k]), sizes)
  {
  }

  lemma RunGoesOn(run: seq<History>, h: History, sizes: seq<nat>)
    requires IsRun(run, sizes) && Step(run[|run| - 1], h, sizes)
    ensures IsRun(run + [h], sizes)
  {
    hide Valid, Step;
    var more := run + [h];
    forall i | 0 < i < |more| ensures Step(more[i - 1], more[i], sizes) {
      if i < |run| {
        assert more[i] == run[i] && more[i - 1] == run[i - 1];
      }
    }
  }

  /** A generator at work, with the states it has copied for jumps, labels and loops. */
  class Recorder {
    const gen: ProcGen
    var snapshots: seq<VarState>
    ghost var run: seq<History>
    // what control runs through since a state was last put back
    ghost var stretch: Stretch

    ghost function Now(): History
      reads this, gen
    {
      History(gen.State(), snapshots, gen.currentFrameSize)
    }

    ghost predicate Ready()
      reads gen
    {
      gen.Valid() && !gen.noNewStackStorage
    }

    ghost predicate Valid()
      reads this, gen
    {
      && Ready()
      && IsRun(run, gen.sizes) && run[|run| - 1] == Now()
      && Legs.Fits(stretch, gen.sizes) && stretch.State() == gen.State() && stretch.Frame() == gen.currentFrameSize
    }

    constructor (gen: ProcGen)
      requires gen.Valid() && !gen.noNewStackStorage
      ensures Valid() && this.gen == gen && snapshots == [] && run == [Now()]
      ensures stretch == Stretch(gen.State(), gen.currentFrameSize, [])
    {
      this.gen := gen;
      snapshots := [];
      run := [History(gen.State(), [], gen.currentFrameSize)];
      stretch := Stretch(gen.State(), gen.currentFrameSize, []);
    }

    /** What the source demands of the operation's operands. Nothing is demanded of the state morphed into. */
    ghost predicate Fits(op: Operation)
      reads this`snapshots, gen
    {
      var s, sizes, frame := gen.State(), gen.sizes, gen.currentFrameSize;
      match op
      case LoadRegisterWithVar(_, vn) => CanLoad(s, sizes, frame, vn)
      case EnsureInRegister(vn) =>
        && CanLoad(s, sizes, frame, vn)
        && (s.InRegister(vn) || s.available != [] || exists r: Reg :: r < |gen.dontSwap| && !gen.dontSwap[r])
      case AllocateRuntimeStorage(vn) => CanLoad(s, sizes, frame, vn)
      case Decommission(vn) => gen.IsVar(vn)
      case Call(_, argVars, retVar, lastUsage, _) =>
        && |lastUsage| == |gen.varStorage| && |argVars| <= |PARAM_PASSING_ORDER|
        && (forall i, j :: 0 <= i < j < |argVars| ==> argVars[i] != argVars[j])
        && (forall i :: 0 <= i < |argVars| ==> CanLoad(s, sizes, frame, argVars[i]) && sizes[argVars[i]] == 8)
        && CanLoad(s, sizes, frame, retVar)
      case Restore(k) => k < |snapshots|
      case MorphTo(k) => k < |snapshots|
      case _ => true
    }

    /** What the operation did. */
    twostate predicate Did(op: Operation)
      reads this`snapshots, gen
    {
      && old(Ready()) && Ready() && old(Fits(op)) && |gen.varStorage| == old(|gen.varStorage|)
          && old(gen.code) <= gen.code
      && (!op.Snapshot? ==> snapshots == old(snapshots))
      && match op
         case ClearMarks => gen.KeptAll() && gen.State() == old(gen.State()).(dontSwap := NO_MARKS)
         case LoadRegisterWithVar(register, vn) => DidLoad(register, vn)
         case EnsureInRegister(vn) => DidEnsure(vn)
         case AllocateRuntimeStorage(vn) =>
           && gen.KeptAll() && gen.State().Located(vn)
           && (forall v :: gen.IsVar(v) && v != vn ==> gen.varStorage[v] == old(gen.varStorage)[v])
         case FindOrMakeFreeReg => gen.KeptAll() && exists r: Reg :: gen.occupiedBy[r] == INVALID
         case FreeUpRegisters(allocateNewStackStorage, targets) =>
           && gen.KeptRest()
           && (forall r: Reg :: r in targets ==> gen.occupiedBy[r] == INVALID)
           && (allocateNewStackStorage || old(gen.TenantsHaveSlots(targets)) ==> gen.KeptAll())
         case Decommission(vn) => gen.State() == Forget(old(gen.State()), vn) && EmittedNothing()
         case Call(_, _, _, _, _) => DidCall(op)
         case Snapshot =>
             snapshots == old(snapshots + [gen.State()]) && gen.State() == old(gen.State()) && EmittedNothing()
         case Restore(k) => gen.State() == old(snapshots)[k] && EmittedNothing()
         case MorphTo(k) => DidMorph(snapshots[k])
    }

    /** State, frame and code are those of LoadRegister, and all values are kept. */
    twostate predicate DidLoad(register: Reg, vn: int)
      requires old(Ready()) && old(gen.IsVar(vn))
      reads gen
    {
      var e := LoadRegister(old(gen.State()), gen.sizes, old(gen.currentFrameSize), true, register, vn);
      gen.KeptAll() && gen.State() == e.state && gen.currentFrameSize == e.frame && gen.code == old(gen.code) + e.code
    }

    /** The variable is in a register, which is marked; registers marked before have their tenants. */
    twostate predicate DidEnsure(vn: int)
      requires old(Ready()) && Ready() && gen.IsVar(vn)
      reads gen
    {
      && gen.KeptAll() && gen.InRegister(vn)
      && gen.dontSwap == old(gen.dontSwap)[gen.varStorage[vn].currentRegister := true]
      && forall r: Reg :: old(gen.dontSwap[r]) && old(gen.occupiedBy[r]) != INVALID ==>
          gen.occupiedBy[r] == old(gen.occupiedBy[r])
    }

    /** At the call the arguments are in place, after it the result is in rax, and what is not gone has its value. */
    twostate predicate DidCall(op: Operation)
      requires old(Ready()) && Ready() && op.Call? && gen.IsVar(op.retVar)
      requires |op.argVars| <= |PARAM_PASSING_ORDER| && old(|gen.code|) <= |gen.code|
      reads gen
    {
      var emitted := gen.code[|old(gen.code)|..];
      && gen.GrewSlots() && gen.varStorage[op.retVar].currentRegister == RAX
      && emitted != [] && emitted[|emitted| - 1] == CallProc(op.name)
      && ArgumentsByName(old(gen.State()), gen.sizes, op.argVars, emitted[..|emitted| - 1])
      && SurvivesCall(old(gen.State()), gen.State(), gen.sizes, gen.currentFrameSize, Gone(op), emitted, op.name)
    }

    /** The bookkeeping is as before, and the code takes to its place there each variable that is not stranded. */
    twostate predicate DidMorph(target: VarState)
      requires Ready() && old(|gen.code|) <= |gen.code|
      reads gen
    {
      && gen.State() == old(gen.State()) && gen.currentFrameSize == old(gen.currentFrameSize)
      && VarStates.Valid(target, gen.sizes, gen.currentFrameSize)
      && forall v :: gen.IsVar(v) && Live(gen.State(), target, v) && gen.sizes[v] > 0 ==>
           (Arrives(gen.State(), target, gen.sizes, gen.code[|old(gen.code)|..], v) <==>
               !Stranded(gen.State(), target, v))
    }

    /** Neither code nor frame. */
    twostate predicate EmittedNothing()
      reads gen
    {
      gen.code == old(gen.code) && gen.currentFrameSize == old(gen.currentFrameSize)
    }

    /** Code that rearranges storage for a jump is passed over by what comes after it. */
    twostate function LegOf(op: Operation): Leg
      requires old(|gen.code|) <= |gen.code|
      reads gen
    {
      Leg(gen.State(), gen.currentFrameSize, if op.MorphTo? then [] else gen.code[|old(gen.code)|..], Gone(op))
    }

    /** Any operation is a step of a run: so all slots stay apart, and any copied state can be morphed into. And
        unless a state is put back it is one leg more of the stretch: so what has a place all along keeps its value. */
    method Perform(op: Operation)
      requires Valid() && Fits(op)
      modifies this, gen
      ensures Valid() && Did(op) && run == old(run) + [Now()]
      ensures stretch == if op.Restore? then Stretch(gen.State(), gen.currentFrameSize, [])
          else old(stretch).Then(LegOf(op))
    {
      hide Fits, Did, Step, IsRun, VarStates.Valid, Legs.Fits, LegFits;
      Operate(op);
      DidBasics(op);
      StepTaken(op);
      if !op.Restore? {
        LegTaken(op);
        GoesOn(stretch, LegOf(op), gen.sizes);
      }
      FreshStretch();
      RunGoesOn(run, Now(), gen.sizes);
      run := run + [Now()];
      stretch := if op.Restore? then Stretch(gen.State(), gen.currentFrameSize, []) else stretch.Then(LegOf(op));
    }

    twostate lemma DidBasics(op: Operation)
      requires Did(op)
      ensures Ready() && old(gen.code) <= gen.code && |gen.varStorage| == |old(gen.varStorage)|
    {
    }

    lemma FreshStretch()
      requires Ready()
      ensures Legs.Fits(Stretch(gen.State(), gen.currentFrameSize, []), gen.sizes)
    {
    }

    method Operate(op: Operation)
      requires Valid() && Fits(op)
      modifies this`snapshots, gen
      ensures Did(op)
    {
      hide SurvivesCall, ArgumentsByName, Arrives, Keeps, KeepsRest, SlotsGrow, SlotsSeparate, SlotsInFrame;
      match op {
        case ClearMarks =>
          gen.ClearMarks();
        case LoadRegisterWithVar(_, _) =>
          OperateLoad(op);
        case EnsureInRegister(vn) =>
          var _ := gen.EnsureInRegister(vn);
        case AllocateRuntimeStorage(vn) =>
          gen.AllocateRuntimeStorage(vn);
        case FindOrMakeFreeReg =>
          var reg := gen.FindOrMakeFreeReg();
          assert gen.occupiedBy[reg] == INVALID;
        case FreeUpRegisters(allocateNewStackStorage, targets) =>
          gen.FreeUpRegisters(allocateNewStackStorage, targets);
        case Decommission(vn) =>
          gen.Decommission(vn);
        case Call(_, _, _, _, _) =>
          OperateCall(op);
        case _ =>
          OperateCopy(op);
      }
    }

    method OperateCopy(op: Operation)
      requires Valid() && Fits(op) && (op.Snapshot? || op.Restore? || op.MorphTo?)
      modifies this`snapshots, gen
      ensures Did(op)
    {
      match op {
        case Snapshot =>
          snapshots := snapshots + [gen.State()];
        case Restore(k) =>
          SnapshotFits(k);
          gen.Restore(snapshots[k]);
        case MorphTo(k) =>
          SnapshotFits(k);
          var _ := gen.MorphToState(snapshots[k]);
      }
    }

    method OperateLoad(op: Operation)
      requires Valid() && Fits(op) && op.LoadRegisterWithVar?
      modifies gen
      ensures Did(op)
    {
      ghost var s, frame := gen.State(), gen.currentFrameSize;
      LoadRegisterKeeps(s, gen.sizes, frame, true, op.register, op.vn);
      LoadRegisterPlaces(s, gen.sizes, frame, true, op.register, op.vn);
      gen.LoadRegisterWithVar(op.register, op.vn);
      assert gen.code[|old(gen.code)|..] == LoadRegister(s, gen.sizes, frame, true, op.register, op.vn).code;
    }

    method OperateCall(op: Operation)
      requires Valid() && Fits(op) && op.Call?
      modifies gen
      ensures Did(op)
    {
      var load, park := gen.GenCall(op.name, op.argVars, op.retVar, op.lastUsage, op.optIdx);
      ghost var emitted := gen.code[|old(gen.code)|..];
      assert emitted == load + park + [CallProc(op.name)];
      assert emitted[..|emitted| - 1] == load + park;
    }

    twostate lemma StepTaken(op: Operation)
      requires old(Valid()) && Did(op)
      ensures Step(old(Now()), Now(), gen.sizes)
    {
      hide SlotsGrow, Step, IsRun, VarStates.Valid, LoadRegister, Forget, Keeps, KeepsRest;
      ghost var s, frame, sizes := old(gen.State()), old(gen.currentFrameSize), gen.sizes;
      ghost var snaps := old(snapshots);
      ValidLength(s, sizes, frame);
      match op {
        case Decommission(vn) => ForgettingIsStep(s, frame, vn, snaps, sizes);
        case Snapshot => CopyIsStep(History(s, snaps, frame), sizes);
        case Restore(k) => RestoreIsStep(History(s, snaps, frame), k, sizes);
        case MorphTo(k) =>
          SlotsGrowNowhere(s, frame, sizes);
          KeptIsStep(s, frame, gen.State(), gen.currentFrameSize, snaps, sizes);
        case _ => KeptIsStep(s, frame, gen.State(), gen.currentFrameSize, snaps, sizes);
      }
    }

    twostate lemma LegTaken(op: Operation)
      requires old(Valid()) && Did(op) && !op.Restore?
      ensures LegFits(old(gen.State()), old(gen.currentFrameSize), LegOf(op), gen.sizes)
    {
      hide IsRun, LoadRegister, Keeps, KeepsRest, SurvivesCall, Consistent, SizesFit, SlotsSeparate, SlotsInFrame,
          AvailableExact, LegFits, Forget;
      ghost var s, frame, leg := old(gen.State()), old(gen.currentFrameSize), LegOf(op);
      if op.FreeUpRegisters? {
        RestIsLeg(s, frame, leg, gen.sizes);
      } else if op.Decommission? {
        ForgettingIsLeg(s, frame, op.vn, leg, gen.sizes);
      } else if op.Call? {
        CallIsLeg(s, frame, leg, gen.sizes, op.name);
      } else if op.Snapshot? || op.MorphTo? {
        StayingIsLeg(s, frame, leg, gen.sizes);
      } else {
        KeepsIsLeg(s, frame, leg, gen.sizes);
      }
    }

    /** Since a state was last put back, what has had a place all along and has not been changed by a call has its
        value. */
    lemma ValuesStay(callee: Callee, m: Machine, v: int)
      requires Valid() && Honours(callee, gen.currentFrameSize) && Throughout(stretch, v)
      ensures Sound(stretch.origin, gen.sizes) && Sound(gen.State(), gen.sizes) && gen.IsVar(v)
      ensures ValueOf(gen.State(), gen.sizes, Run(callee, m, stretch.Code()), v) ==
          ValueOf(stretch.origin, gen.sizes, m, v)
    {
      hide Legs.Fits, IsRun, VarStates.Valid, Sound, ValueOf, Consistent, SizesFit;
      ValueStays(stretch, gen.sizes, callee, m, v);
    }

    lemma SnapshotFits(k: nat)
      requires Valid() && k < |snapshots|
      ensures VarStates.Valid(snapshots[k], gen.sizes, gen.currentFrameSize) && |snapshots[k].varStorage| == |gen.sizes|
      ensures Morphable(gen.State(), snapshots[k], gen.sizes, gen.currentFrameSize)
    {
      hide VarStates.Valid, Legs.Fits;
      RunsStaySeparate(run, gen.sizes);
      ValidLength(snapshots[k], gen.sizes, gen.currentFrameSize);
    }
  }

  lemma ForgettingIsLeg(s: VarState, frame: nat, vn: int, leg: Leg, sizes: seq<nat>)
    requires Valid(s, sizes, frame) && s.IsVar(vn) && leg.state == Forget(s, vn) && leg.code == [] && leg.frame == frame
    ensures LegFits(s, frame, leg, sizes)
  {
    hide SlotsSeparate, SlotsInFrame, AvailableExact, KeepsRest;
    ForgetValid(s, sizes, frame, vn);
    LosingKeepsRest(s, leg.state, sizes, vn);
    RestIsLeg(s, frame, leg, sizes);
  }
}
