/** Values over a whole stretch of register operations, one leg after another. */
module Legs {
  import opened Machine
  import opened VarStates
  import opened CallConventions

  /** Where an operation leads, the code it emits, and the variables it may change: those a call writes or uses last. */
  datatype Leg = Leg(state: VarState, frame: nat, code: seq<Instr>, gone: set<int>)

  /** Code that control runs through from one end to the other, from a state of storage on. */
  datatype Stretch = Stretch(origin: VarState, frame: nat, legs: seq<Leg>)
  {
    function Front(): Stretch
      requires legs != []
    {
      Stretch(origin, frame, legs[..|legs| - 1])
    }

    function Last(): Leg
      requires legs != []
    {
      legs[|legs| - 1]
    }

    function State(): VarState {
      if legs == [] then origin else Last().state
    }

    function Frame(): nat {
      if legs == [] then frame else Last().frame
    }

    function Code(): seq<Instr>
      decreases |legs|
    {
      if legs == [] then [] else Front().Code() + Last().code
    }

    function Then(leg: Leg): Stretch {
      Stretch(origin, frame, legs + [leg])
    }
  }

  ghost predicate Honours(callee: Callee, frame: nat) {
    forall name :: HonoursConvention(callee, name, frame)
  }

  ghost predicate Sound(s: VarState, sizes: seq<nat>) {
    Consistent(s) && SizesFit(s, sizes)
  }

  /** What has a place before and after has the same value, but for variables that are gone. */
  ghost predicate CarriesBut(s: VarState, s': VarState, sizes: seq<nat>, gone: set<int>, m: Machine, m': Machine)
    requires Sound(s, sizes) && Sound(s', sizes)
  {
    forall v :: s.IsVar(v) && s'.IsVar(v) && s.Located(v) && s'.Located(v) && v !in gone ==>
      ValueOf(s', sizes, m', v) == ValueOf(s, sizes, m, v)
  }

  ghost predicate LegFits(s: VarState, frame: nat, leg: Leg, sizes: seq<nat>) {
    && Sound(s, sizes) && Sound(leg.state, sizes) && frame <= leg.frame
    && forall callee: Callee, m: Machine | Honours(callee, leg.frame) ::
         CarriesBut(s, leg.state, sizes, leg.gone, m, Run(callee, m, leg.code))
  }

  ghost predicate Fits(t: Stretch, sizes: seq<nat>)
    decreases |t.legs|
  {
    if t.legs == [] then Sound(t.origin, sizes)
    else Fits(t.Front(), sizes) && LegFits(t.Front().State(), t.Front().Frame(), t.Last(), sizes)
  }

  lemma GoesOn(t: Stretch, leg: Leg, sizes: seq<nat>)
    requires Fits(t, sizes) && LegFits(t.State(), t.Frame(), leg, sizes)
    ensures Fits(t.Then(leg), sizes)
  {
    assert t.Then(leg).Front() == t;
  }

  // ----- Operations are legs -----

  lemma KeepsIsLeg(s: VarState, frame: nat, leg: Leg, sizes: seq<nat>)
    requires Sound(s, sizes) && Sound(leg.state, sizes) && frame <= leg.frame
    requires Keeps(s, leg.state, sizes, leg.code)
    ensures LegFits(s, frame, leg, sizes)
  {
    hide Consistent, SizesFit, ValueOf;
    forall callee: Callee, m: Machine | Honours(callee, leg.frame)
      ensures CarriesBut(s, leg.state, sizes, leg.gone, m, Run(callee, m, leg.code))
    {
      assert Carries(s, leg.state, sizes, m, Run(callee, m, leg.code));
    }
  }

  lemma RestIsLeg(s: VarState, frame: nat, leg: Leg, sizes: seq<nat>)
    requires Sound(s, sizes) && Sound(leg.state, sizes) && frame <= leg.frame
    requires KeepsRest(s, leg.state, sizes, leg.code)
    ensures LegFits(s, frame, leg, sizes)
  {
    hide Consistent, SizesFit, ValueOf;
    forall callee: Callee, m: Machine | Honours(callee, leg.frame)
      ensures CarriesBut(s, leg.state, sizes, leg.gone, m, Run(callee, m, leg.code))
    {
      assert CarriesRest(s, leg.state, sizes, m, Run(callee, m, leg.code));
    }
  }

  lemma CallIsLeg(s: VarState, frame: nat, leg: Leg, sizes: seq<nat>, name: string)
    requires Sound(s, sizes) && Sound(leg.state, sizes) && frame <= leg.frame
    requires SurvivesCall(s, leg.state, sizes, leg.frame, leg.gone, leg.code, name)
    ensures LegFits(s, frame, leg, sizes)
  {
    hide Consistent, SizesFit, ValueOf, HonoursConvention;
    forall callee: Callee, m: Machine | Honours(callee, leg.frame)
      ensures CarriesBut(s, leg.state, sizes, leg.gone, m, Run(callee, m, leg.code))
    {
      assert HonoursConvention(callee, name, leg.frame);
      assert KeepsExcept(s, leg.state, sizes, leg.gone, m, Run(callee, m, leg.code));
    }
  }

  lemma StayingIsLeg(s: VarState, frame: nat, leg: Leg, sizes: seq<nat>)
    requires Sound(s, sizes) && leg.state == s && leg.code == [] && frame <= leg.frame
    ensures LegFits(s, frame, leg, sizes)
  {
  }

  // ----- The whole stretch -----

  /** Neither without a place nor gone at any time. */
  ghost predicate Throughout(t: Stretch, v: int) {
    && t.origin.IsVar(v) && t.origin.Located(v)
    && forall k :: 0 <= k < |t.legs| ==> t.legs[k].state.IsVar(v) && t.legs[k].state.Located(v) && v !in t.legs[k].gone
  }

  lemma HonoursLess(callee: Callee, frame: nat, frame': nat)
    requires Honours(callee, frame') && frame <= frame'
    ensures Honours(callee, frame)
  {
    forall name ensures HonoursConvention(callee, name, frame) {
      assert HonoursConvention(callee, name, frame');
    }
  }

  /** On any machine, and whatever the procedures called do within the convention, a variable that has a place all
      along has at the end the value it had at the start. */
  lemma {:induction false} ValueStays(t: Stretch, sizes: seq<nat>, callee: Callee, m: Machine, v: int)
    requires Fits(t, sizes) && Honours(callee, t.Frame()) && Throughout(t, v)
    ensures Sound(t.origin, sizes) && Sound(t.State(), sizes) && t.State().IsVar(v)
    ensures ValueOf(t.State(), sizes, Run(callee, m, t.Code()), v) == ValueOf(t.origin, sizes, m, v)
    decreases |t.legs|
  {
    hide Sound, ValueOf, Honours, Consistent, SizesFit;
    if t.legs == [] {
      assert Run(callee, m, []) == m;
    } else {
      var before, leg := t.Front(), t.Last();
      HonoursLess(callee, before.Frame(), leg.frame);
      assert Throughout(before, v) by {
        assert forall k :: 0 <= k < |before.legs| ==> before.legs[k] == t.legs[k];
      }
      ValueStays(before, sizes, callee, m, v);
      RunAppend(callee, m, before.Code(), leg.code);
      assert before.legs != [] ==> before.Last() == t.legs[|t.legs| - 2];
      assert CarriesBut(before.State(), leg.state, sizes, leg.gone, Run(callee, m, before.Code()),
          Run(callee, Run(callee, m, before.Code()), leg.code));
    }
  }
}
