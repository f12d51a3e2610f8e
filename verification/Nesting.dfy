/** Where loops nest, no variable is stranded between a jump and its label. */
module Nesting {
  import opened Machine
  import opened VarStates
  import opened LoadRegisters
  import opened Morphs
  import opened ProcGens
  import opened Legs
  import opened Histories

  /** Slots stay where they are until the variable is decommissioned, and that is for good. */
  ghost predicate Follows(s: VarState, s': VarState) {
    && |s.varStorage| == |s'.varStorage|
    && (forall v :: s.IsVar(v) && s.Decommissioned(v) ==> s'.Decommissioned(v))
    && (forall v :: s.IsVar(v) && s.HasStackStorage(v) ==>
          s'.varStorage[v].rbpOffset == s.varStorage[v].rbpOffset || s'.Decommissioned(v))
  }

  lemma FollowsChain(s: VarState, s': VarState, s'': VarState)
    requires Follows(s, s') && Follows(s', s'')
    ensures Follows(s, s'')
  {
  }

  lemma NotStranded(s: VarState, t: VarState, v: int)
    requires Consistent(s) && Consistent(t) && (Follows(s, t) || Follows(t, s))
    ensures !Stranded(s, t, v)
  {
    if s.IsVar(v) && t.IsVar(v) && s.StackOnly(v) && t.StackOnly(v) {
      assert !s.Decommissioned(v) && !t.Decommissioned(v);
    }
  }

  // ----- Walking through a body -----

  /** The current state, and the states copied before the loops that are open, the innermost last. */
  datatype Point = Point(state: VarState, loops: seq<VarState>)

  /** An operation; entering a loop; or leaving one, where everybody comes by a jump and in the state from before it. */
  ghost predicate WalkStep(p: Point, p': Point) {
    || (p'.loops == p.loops && Follows(p.state, p'.state))
    || p' == Point(p.state, p.loops + [p.state])
    || (p.loops != [] && p' == Point(p.loops[|p.loops| - 1], p.loops[..|p.loops| - 1]))
  }

  ghost predicate IsWalk(walk: seq<Point>) {
    |walk| > 0 && forall i :: 0 < i < |walk| ==> WalkStep(walk[i - 1], walk[i])
  }

  /** From i to j no loop is left that is open at i. */
  predicate StaysInside(walk: seq<Point>, i: nat, j: nat)
    requires i <= j < |walk|
  {
    forall k :: i <= k <= j ==> |walk[k].loops| >= |walk[i].loops|
  }

  lemma {:induction false} InsideFollows(walk: seq<Point>, i: nat, j: nat)
    requires IsWalk(walk) && i <= j < |walk| && StaysInside(walk, i, j)
    ensures Follows(walk[i].state, walk[j].state)
    ensures forall k :: |walk[i].loops| <= k < |walk[j].loops| ==> Follows(walk[i].state, walk[j].loops[k])
    decreases j
  {
    hide Follows;
    if i == j {
      FollowsItself(walk[i].state);
    } else {
      var p, p' := walk[j - 1], walk[j];
      assert StaysInside(walk, i, j - 1);
      InsideFollows(walk, i, j - 1);
      assert WalkStep(p, p');
      if p'.loops == p.loops && Follows(p.state, p'.state) {
        FollowsChain(walk[i].state, p.state, p'.state);
      }
    }
  }

  lemma FollowsItself(s: VarState)
    ensures Follows(s, s)
  {
  }

  /** One of two places comes first, and the walk stays inside the loops open there until it comes to the other. */
  predicate Meets(walk: seq<Point>, i: nat, j: nat)
    requires i < |walk| && j < |walk|
  {
    if i <= j then StaysInside(walk, i, j) else StaysInside(walk, j, i)
  }

  /** So between the states at two such places nothing is stranded. */
  lemma NothingStranded(walk: seq<Point>, i: nat, j: nat, v: int)
    requires IsWalk(walk) && i < |walk| && j < |walk| && Meets(walk, i, j)
    requires Consistent(walk[i].state) && Consistent(walk[j].state)
    ensures !Stranded(walk[i].state, walk[j].state, v)
  {
    hide Follows, StaysInside, IsWalk, Consistent;
    if i <= j {
      InsideFollows(walk, i, j);
    } else {
      InsideFollows(walk, j, i);
    }
    NotStranded(walk[i].state, walk[j].state, v);
  }

  lemma OperationIsStep(p: Point, p': Point)
    requires p'.loops == p.loops && Follows(p.state, p'.state)
    ensures WalkStep(p, p')
  {
    hide Follows;
  }

  lemma WalkGoesOn(walk: seq<Point>, p: Point)
    requires IsWalk(walk) && WalkStep(walk[|walk| - 1], p)
    ensures IsWalk(walk + [p])
  {
    hide WalkStep;
    var more := walk + [p];
    forall i | 0 < i < |more| ensures WalkStep(more[i - 1], more[i]) {
      if i < |walk| {
        assert more[i] == walk[i] && more[i - 1] == walk[i - 1];
      }
    }
  }

  // ----- The generator doing it -----

  class Body {
    const rec: Recorder
    // for every open loop, which of the copied states is the one from before it
    var preLoopVarState: seq<nat>
    ghost var walk: seq<Point>
    // where in the walk each state was copied
    ghost var places: seq<nat>

    /** What was copied was copied somewhere on the walk. */
    ghost predicate Recorded()
      reads this, rec, rec.gen
    {
      && rec.Valid() && IsWalk(walk) && |places| == |rec.snapshots|
      && forall k :: 0 <= k < |places| ==> places[k] < |walk| && walk[places[k]].state == rec.snapshots[k]
    }

    ghost predicate Valid()
      reads this, rec, rec.gen
    {
      && Recorded()
      && walk[|walk| - 1].state == rec.gen.State()
      && |preLoopVarState| == |walk[|walk| - 1].loops|
      && forall k :: 0 <= k < |preLoopVarState| ==>
           preLoopVarState[k] < |rec.snapshots| && rec.snapshots[preLoopVarState[k]] == walk[|walk| - 1].loops[k]
    }

    constructor (rec: Recorder)
      requires rec.Valid() && rec.snapshots == []
      ensures Valid() && this.rec == rec && preLoopVarState == [] && walk == [Point(rec.gen.State(), [])]
    {
      this.rec := rec;
      preLoopVarState, places := [], [];
      walk := [Point(rec.gen.State(), [])];
    }

    /** Any operation but putting a state back. */
    method Perform(op: Operation)
      requires Valid() && rec.Fits(op) && !op.Restore?
      modifies this`walk, this`places, rec, rec.gen
      ensures Valid() && rec.Did(op)
      ensures walk == old(walk) + [Point(rec.gen.State(), old(walk[|walk| - 1]).loops)]
      ensures places == if op.Snapshot? then old(places) + [|old(walk)|] else old(places)
    {
      hide Recorder.Valid, Recorder.Did, Recorder.Fits, Follows, WalkStep;
      ghost var p := Point(rec.gen.State(), walk[|walk| - 1].loops);
      rec.Perform(op);
      DidFollows(op);
      ghost var p' := Point(rec.gen.State(), p.loops);
      OperationIsStep(p, p');
      WalkGoesOn(walk, p');
      walk := walk + [p'];
      if op.Snapshot? {
        places := places + [|walk| - 1];
      }
    }

    twostate lemma DidFollows(op: Operation)
      requires old(rec.Valid()) && rec.Did(op) && !op.Restore?
      ensures Follows(old(rec.gen.State()), rec.gen.State())
      ensures op.Snapshot? ==> rec.snapshots == old(rec.snapshots) + [rec.gen.State()]
      ensures !op.Snapshot? ==> rec.snapshots == old(rec.snapshots)
    {
    }

    method Copy()
      requires Valid()
      modifies this`walk, this`places, rec, rec.gen
      ensures Valid() && rec.gen.State() == old(rec.gen.State())
      ensures rec.snapshots == old(rec.snapshots) + [rec.gen.State()]
      ensures walk == old(walk) + [Point(rec.gen.State(), old(walk[|walk| - 1]).loops)]
      ensures places == old(places) + [|old(walk)|]
    {
      hide Recorder.Valid, Follows, WalkStep, IsWalk;
      Perform(Snapshot);
    }

    /** The state is copied, to be put back at the label after the loop. */
    method StartLoop()
      requires Valid()
      modifies this, rec, rec.gen
      ensures Valid() && rec.gen.State() == old(rec.gen.State())
      ensures preLoopVarState == old(preLoopVarState) + [|old(rec.snapshots)|]
    {
      hide Recorder.Valid, Recorder.Did, Recorder.Fits, Follows;
      Copy();
      preLoopVarState := preLoopVarState + [|rec.snapshots| - 1];
      ghost var p := walk[|walk| - 1];
      WalkGoesOn(walk, Point(p.state, p.loops + [p.state]));
      walk := walk + [Point(p.state, p.loops + [p.state])];
    }

    /** The label after the loop: whoever jumps there comes in the state from before the loop. */
    method EndLoop() returns (target: nat)
      requires Valid() && preLoopVarState != []
      modifies this, rec, rec.gen
      ensures Valid() && target == old(preLoopVarState[|preLoopVarState| - 1]) && target < |rec.snapshots|
      ensures rec.gen.State() == rec.snapshots[target] && rec.snapshots == old(rec.snapshots)
      ensures preLoopVarState == old(preLoopVarState)[..|old(preLoopVarState)| - 1]
    {
      var n := |preLoopVarState| - 1;
      target := preLoopVarState[n];
      preLoopVarState := preLoopVarState[..n];
      ghost var p := walk[|walk| - 1];
      rec.Perform(Restore(target));
      WalkGoesOn(walk, Point(p.loops[n], p.loops[..n]));
      walk := walk + [Point(p.loops[n], p.loops[..n])];
    }

    /** The code of a jump from one copied state to another. Every variable that both states locate arrives. */
    method EmitJump(jump: nat, target: nat)
      requires Recorded() && jump < |places| && target < |places| && Meets(walk, places[jump], places[target])
      modifies rec, rec.gen
      ensures Recorded() && rec.snapshots == old(rec.snapshots) && rec.gen.State() == rec.snapshots[jump]
      ensures old(Valid()) && old(rec.gen.State()) == rec.snapshots[jump] ==> Valid()
      ensures old(rec.gen.code) <= rec.gen.code
      ensures Arrive(rec.snapshots[jump], rec.snapshots[target], rec.gen.code[|old(rec.gen.code)|..])
    {
      hide Recorder.Valid, Follows, WalkStep, IsWalk, Meets, Arrive;
      PutBack(jump);
      MorphFrom(jump, target);
    }

    method PutBack(k: nat)
      requires Recorded() && k < |places|
      modifies rec, rec.gen
      ensures Recorded() && rec.snapshots == old(rec.snapshots) && rec.gen.State() == rec.snapshots[k]
      ensures rec.gen.code == old(rec.gen.code)
    {
      hide Recorder.Valid, Follows, WalkStep, IsWalk;
      rec.Perform(Restore(k));
    }

    method MorphFrom(jump: nat, target: nat)
      requires Recorded() && jump < |places| && target < |places| && Meets(walk, places[jump], places[target])
      requires rec.gen.State() == rec.snapshots[jump]
      modifies rec, rec.gen
      ensures Recorded() && rec.snapshots == old(rec.snapshots) && rec.gen.State() == rec.snapshots[jump]
      ensures old(rec.gen.code) <= rec.gen.code
      ensures Arrive(rec.snapshots[jump], rec.snapshots[target], rec.gen.code[|old(rec.gen.code)|..])
    {
      hide Recorder.Valid, Recorder.Did, Recorder.Fits, Meets, IsWalk, Arrive, ArriveUnlessStranded;
      JumpFits(target);
      rec.Perform(MorphTo(target));
      MorphDid(target);
      AllArrive(jump, target, rec.gen.code[|old(rec.gen.code)|..]);
    }

    lemma JumpFits(target: nat)
      requires Recorded() && target < |places|
      ensures rec.Valid() && rec.Fits(MorphTo(target)) && |places| == |rec.snapshots|
    {
    }

    twostate lemma MorphDid(target: nat)
      requires rec.Did(MorphTo(target))
      ensures old(rec.gen.code) <= rec.gen.code && rec.snapshots == old(rec.snapshots) && target < |rec.snapshots|
      ensures rec.gen.State() == old(rec.gen.State())
      ensures ArriveUnlessStranded(rec.gen.State(), rec.snapshots[target], rec.gen.code[|old(rec.gen.code)|..])
    {
      hide Arrives, Stranded, AvailableExact, SlotsSeparate, SlotsInFrame;
    }

    lemma AllArrive(jump: nat, target: nat, code: seq<Instr>)
      requires Recorded() && jump < |places| && target < |places| && Meets(walk, places[jump], places[target])
      requires ArriveUnlessStranded(rec.snapshots[jump], rec.snapshots[target], code)
      ensures Arrive(rec.snapshots[jump], rec.snapshots[target], code)
    {
      hide Recorder.Valid, Meets, IsWalk, Arrives, Stranded;
      var s, t := rec.snapshots[jump], rec.snapshots[target];
      forall v | Live(s, t, v) && rec.gen.sizes[v] > 0 ensures Arrives(s, t, rec.gen.sizes, code, v) {
        NothingStranded(walk, places[jump], places[target], v);
      }
    }

    ghost predicate ArriveUnlessStranded(s: VarState, t: VarState, code: seq<Instr>)
      reads rec
    {
      && Sound(s, rec.gen.sizes) && Sound(t, rec.gen.sizes)
      && forall v :: Live(s, t, v) && rec.gen.sizes[v] > 0 ==>
          (Arrives(s, t, rec.gen.sizes, code, v) <==> !Stranded(s, t, v))
    }

    /** Every variable both states locate is taken to its place in the second. */
    ghost predicate Arrive(s: VarState, t: VarState, code: seq<Instr>)
      reads rec
    {
      && Sound(s, rec.gen.sizes) && Sound(t, rec.gen.sizes)
      && forall v :: Live(s, t, v) && rec.gen.sizes[v] > 0 ==> Arrives(s, t, rec.gen.sizes, code, v)
    }
  }
}
