/** One description as a forward and a backward machine. */
module Fsm {
  newtype Uint8 = x: int | 0 <= x < 256

  datatype TransitionRule = TransitionRule(current: Uint8, on: char, to: Uint8)

  datatype TransCond = TransCond(current: Uint8, on: char)

  datatype DFADescription = DFADescription(rules: seq<TransitionRule>, acceptState: Uint8)

  /** A state that traps and accepts nothing. */
  const FAIL_STATE := -1

  // ----- The tables -----

  /** A later rule for the same state and character replaces an earlier one. */
  function ForwardRules(rules: seq<TransitionRule>): map<TransCond, Uint8> {
    if rules == [] then map[]
    else
      var last := rules[|rules| - 1];
      ForwardRules(rules[..|rules| - 1])[TransCond(last.current, last.on) := last.to]
  }

  function Sources(table: map<TransCond, seq<Uint8>>, cond: TransCond): seq<Uint8> {
    if cond in table then table[cond] else []
  }

  function BackwardRules(rules: seq<TransitionRule>): map<TransCond, seq<Uint8>> {
    if rules == [] then map[]
    else
      var last, before := rules[|rules| - 1], BackwardRules(rules[..|rules| - 1]);
      var cond := TransCond(last.to, last.on);
      before[cond := Sources(before, cond) + [last.current]]
  }

  // ----- The steps -----

  function Step(table: map<TransCond, Uint8>, state: int, c: char): int {
    if 0 <= state < 256 && TransCond(state as Uint8, c) in table then table[TransCond(state as Uint8, c)] as int
        else FAIL_STATE
  }

  function StepAll(table: map<TransCond, seq<Uint8>>, states: seq<Uint8>, c: char): seq<Uint8> {
    if states == [] then []
    else StepAll(table, states[..|states| - 1], c) + Sources(table, TransCond(states[|states| - 1], c))
  }

  function Run(table: map<TransCond, Uint8>, state: int, word: string): int
    decreases |word|
  {
    if word == "" then state else Run(table, Step(table, state, word[0]), word[1..])
  }

  function RunAll(table: map<TransCond, seq<Uint8>>, states: seq<Uint8>, word: string): seq<Uint8>
    decreases |word|
  {
    if word == "" then states else RunAll(table, StepAll(table, states, word[0]), word[1..])
  }

  class DFA {
    var state: int
    var rules: map<TransCond, Uint8>
    var acceptState: int

    constructor NewForwardDFA(desc: DFADescription)
      ensures state == 0 && rules == ForwardRules(desc.rules) && acceptState == desc.acceptState as int
    {
      var table: map<TransCond, Uint8> := map[];
      for k := 0 to |desc.rules|
        invariant table == ForwardRules(desc.rules[..k])
      {
        assert desc.rules[..k + 1][..k] == desc.rules[..k];
        var rule := desc.rules[k];
        table := table[TransCond(rule.current, rule.on) := rule.to];
      }
      assert desc.rules[..|desc.rules|] == desc.rules;
      state, rules, acceptState := 0, table, desc.acceptState as int;
    }

    method Feed(c: char)
      requires FAIL_STATE <= state < 256
      modifies this`state
      ensures FAIL_STATE <= state < 256 && state == Step(rules, old(state), c)
    {
      if state == FAIL_STATE {
        return;
      }
      var cond := TransCond(state as Uint8, c);
      if cond !in rules {
        state := FAIL_STATE;
      } else {
        state := rules[cond] as int;
      }
    }

    method Accepted() returns (accepted: bool)
      ensures accepted == (state == acceptState)
    {
      accepted := state == acceptState;
    }
  }

  class NFA {
    var state: seq<Uint8>
    var rules: map<TransCond, seq<Uint8>>
    var acceptState: Uint8

    constructor NewBackwardNFA(desc: DFADescription)
      ensures state == [desc.acceptState] && rules == BackwardRules(desc.rules) && acceptState == 0
    {
      var table: map<TransCond, seq<Uint8>> := map[];
      for k := 0 to |desc.rules|
        invariant table == BackwardRules(desc.rules[..k])
      {
        assert desc.rules[..k + 1][..k] == desc.rules[..k];
        var rule := desc.rules[k];
        var cond := TransCond(rule.to, rule.on);
        table := table[cond := (if cond in table then table[cond] else []) + [rule.current]];
      }
      assert desc.rules[..|desc.rules|] == desc.rules;
      state, rules, acceptState := [desc.acceptState], table, 0;
    }

    method Feed(c: char)
      modifies this`state
      ensures state == StepAll(rules, old(state), c)
    {
      var newState: seq<Uint8> := [];
      for k := 0 to |state|
        invariant state == old(state) && newState == StepAll(rules, state[..k], c)
      {
        assert state[..k + 1][..k] == state[..k];
        var cond := TransCond(state[k], c);
        newState := newState + if cond in rules then rules[cond] else [];
      }
      assert state[..|state|] == state;
      state := newState;
    }

    method Accepted() returns (accepted: bool)
      ensures accepted == (acceptState in state)
    {
      for k := 0 to |state|
        invariant acceptState !in state[..k]
      {
        if state[k] == acceptState {
          return true;
        }
        assert state[..k + 1] == state[..k] + [state[k]];
      }
      assert state[..|state|] == state;
      return false;
    }
  }

  // ----- Which words they read -----

  /** No state has two ways to go on one character. */
  predicate Functional(rules: seq<TransitionRule>) {
    forall i, j :: 0 <= i < |rules| && 0 <= j < |rules| && SameCond(rules[i], rules[j]) ==> rules[i].to == rules[j].to
  }

  predicate SameCond(a: TransitionRule, b: TransitionRule) { a.current == b.current && a.on == b.on }

  function All(rules: seq<TransitionRule>): set<TransitionRule> {
    set k | 0 <= k < |rules| :: rules[k]
  }

  /** The rules that no later rule for the same state and character replaces. */
  function Kept(rules: seq<TransitionRule>): set<TransitionRule> {
    set k | 0 <= k < |rules| && Stands(rules, k) :: rules[k]
  }

  predicate Stands(rules: seq<TransitionRule>, k: nat)
    requires k < |rules|
  {
    forall j :: k < j < |rules| ==> !SameCond(rules[k], rules[j])
  }

  /** The rules lead from one state to another along a word. */
  ghost predicate Leads(rules: set<TransitionRule>, from: Uint8, word: string, to: Uint8)
    decreases |word|
  {
    if word == "" then from == to
    else exists mid :: TransitionRule(from, word[0], mid) in rules && Leads(rules, mid, word[1..], to)
  }

  function Reverse(word: string): (r: string)
    ensures |r| == |word|
  {
    if word == "" then "" else Reverse(word[1..]) + [word[0]]
  }

  /** One rule more takes the place of those for its state and character. */
  lemma KeptOneMore(before: seq<TransitionRule>, last: TransitionRule, r: TransitionRule)
    ensures r in Kept(before + [last]) <==> r == last || (r in Kept(before) && !SameCond(r, last))
  {
    var rules := before + [last];
    assert rules[|before|] == last && Stands(rules, |before|);
    if r in Kept(rules) && r != last {
      var k :| 0 <= k < |rules| && Stands(rules, k) && rules[k] == r;
      assert Stands(before, k) by {
        assert forall j :: k < j < |before| ==> before[j] == rules[j];
      }
      assert !SameCond(rules[k], rules[|before|]);
    }
    if r in Kept(before) && !SameCond(r, last) {
      var k :| 0 <= k < |before| && Stands(before, k) && before[k] == r;
      assert forall j :: k < j < |before| ==> before[j] == rules[j];
      assert Stands(rules, k);
    }
  }

  lemma {:induction false} ForwardTable(rules: seq<TransitionRule>, s: Uint8, c: char, t: Uint8)
    ensures TransitionRule(s, c, t) in Kept(rules) <==>
            TransCond(s, c) in ForwardRules(rules) && ForwardRules(rules)[TransCond(s, c)] == t
  {
    hide Kept;
    if rules == [] {
      assert Kept(rules) == {} by { KeptIsPart(rules); }
    } else {
      var before, last := rules[..|rules| - 1], rules[|rules| - 1];
      assert rules == before + [last];
      ForwardTable(before, s, c, t);
      KeptOneMore(before, last, TransitionRule(s, c, t));
    }
  }

  lemma KeptIsPart(rules: seq<TransitionRule>)
    ensures Kept(rules) <= All(rules)
  {
  }

  lemma {:induction false} BackwardTable(rules: seq<TransitionRule>, t: Uint8, c: char)
    ensures forall s :: TransitionRule(s, c, t) in All(rules) <==> s in Sources(BackwardRules(rules), TransCond(t, c))
  {
    if rules != [] {
      var before, last := rules[..|rules| - 1], rules[|rules| - 1];
      BackwardTable(before, t, c);
      assert All(rules) == All(before) + {last};
    }
  }

  lemma {:induction false} FailTraps(table: map<TransCond, Uint8>, word: string)
    ensures Run(table, FAIL_STATE, word) == FAIL_STATE
  {
    if word != "" {
      FailTraps(table, word[1..]);
    }
  }

  /** The forward machine goes where the rules that no later one replaces lead. */
  lemma {:induction false} ForwardLeads(rules: seq<TransitionRule>, s: Uint8, word: string, t: Uint8)
    ensures Run(ForwardRules(rules), s as int, word) == t as int <==> Leads(Kept(rules), s, word, t)
    decreases |word|
  {
    hide Kept;
    if word != "" {
      var table, c := ForwardRules(rules), word[0];
      forall m ensures TransitionRule(s, c, m) in Kept(rules) <==>
          TransCond(s, c) in table && table[TransCond(s, c)] == m {
        ForwardTable(rules, s, c, m);
      }
      if TransCond(s, c) in table {
        ForwardLeads(rules, table[TransCond(s, c)], word[1..], t);
      } else {
        FailTraps(table, word[1..]);
      }
    }
  }

  lemma {:induction false} StepAllFinds(table: map<TransCond, seq<Uint8>>, states: seq<Uint8>, c: char)
    ensures forall s :: s in StepAll(table, states, c) <==>
        exists m :: m in states && s in Sources(table, TransCond(m, c))
  {
    if states != [] {
      var before, last := states[..|states| - 1], states[|states| - 1];
      assert states == before + [last];
      StepAllFinds(table, before, c);
    }
  }

  lemma {:induction false} RunAllLast(table: map<TransCond, seq<Uint8>>, states: seq<Uint8>, word: string, c: char)
    ensures RunAll(table, states, word + [c]) == StepAll(table, RunAll(table, states, word), c)
    decreases |word|
  {
    if word == "" {
      assert word + [c] == [c] && [c][1..] == "";
      assert RunAll(table, StepAll(table, states, c), "") == StepAll(table, states, c);
    } else {
      assert (word + [c])[1..] == word[1..] + [c];
      RunAllLast(table, StepAll(table, states, word[0]), word[1..], c);
    }
  }

  /** After the reversed word, the backward machine is in exactly the states from which the word leads to acceptance. */
  lemma {:induction false} BackwardLeads(rules: seq<TransitionRule>, word: string, accept: Uint8)
    ensures forall s :: s in RunAll(BackwardRules(rules), [accept], Reverse(word)) <==>
        Leads(All(rules), s, word, accept)
    decreases |word|
  {
    hide All;
    if word != "" {
      var table, c := BackwardRules(rules), word[0];
      var states := RunAll(table, [accept], Reverse(word[1..]));
      BackwardLeads(rules, word[1..], accept);
      RunAllLast(table, [accept], Reverse(word[1..]), c);
      StepAllFinds(table, states, c);
      forall s ensures s in RunAll(table, [accept], Reverse(word)) <==> Leads(All(rules), s, word, accept) {
        forall m ensures TransitionRule(s, c, m) in All(rules) <==> s in Sources(table, TransCond(m, c)) {
          BackwardTable(rules, m, c);
        }
      }
    }
  }

  predicate AcceptsForward(desc: DFADescription, word: string) {
    Run(ForwardRules(desc.rules), 0, word) == desc.acceptState as int
  }

  /** The backward machine accepts the reversed word. */
  predicate AcceptsBackward(desc: DFADescription, word: string) {
    0 in RunAll(BackwardRules(desc.rules), [desc.acceptState], Reverse(word))
  }

  lemma {:induction false} LeadsMore(few: set<TransitionRule>, many: set<TransitionRule>, from: Uint8, word: string,
                                     to: Uint8)
    requires few <= many && Leads(few, from, word, to)
    ensures Leads(many, from, word, to)
    decreases |word|
  {
    if word != "" {
      var mid :| TransitionRule(from, word[0], mid) in few && Leads(few, mid, word[1..], to);
      LeadsMore(few, many, mid, word[1..], to);
    }
  }

  /** What is accepted forward is accepted backward, whatever the description. */
  lemma ForwardIsBackward(desc: DFADescription, word: string)
    requires AcceptsForward(desc, word)
    ensures AcceptsBackward(desc, word)
  {
    hide Kept, All;
    ForwardLeads(desc.rules, 0, word, desc.acceptState);
    BackwardLeads(desc.rules, word, desc.acceptState);
    KeptIsPart(desc.rules);
    LeadsMore(Kept(desc.rules), All(desc.rules), 0, word, desc.acceptState);
  }

  /** On a word the machines agree exactly when the replaced rules are not needed to accept it. */
  lemma ForwardBackwardAgree(desc: DFADescription, word: string)
    ensures (AcceptsForward(desc, word) <==> AcceptsBackward(desc, word)) <==>
            (Leads(All(desc.rules), 0, word, desc.acceptState) ==> Leads(Kept(desc.rules), 0, word, desc.acceptState))
  {
    hide Kept, All;
    ForwardLeads(desc.rules, 0, word, desc.acceptState);
    BackwardLeads(desc.rules, word, desc.acceptState);
    if AcceptsForward(desc, word) {
      ForwardIsBackward(desc, word);
    }
  }

  /** With one way to go on each character nothing is replaced by anything else. */
  lemma FunctionalAgree(desc: DFADescription, word: string)
    requires Functional(desc.rules)
    ensures AcceptsForward(desc, word) <==> AcceptsBackward(desc, word)
  {
    FunctionalKeepsAll(desc.rules);
    ForwardBackwardAgree(desc, word);
  }

  lemma {:induction false} FunctionalKeepsAll(rules: seq<TransitionRule>)
    requires Functional(rules)
    ensures Kept(rules) == All(rules)
  {
    hide Kept;
    KeptIsPart(rules);
    if rules != [] {
      var before, last := rules[..|rules| - 1], rules[|rules| - 1];
      assert rules == before + [last] && forall k :: 0 <= k < |before| ==> before[k] == rules[k];
      FunctionalKeepsAll(before);
      forall r | r in All(rules) ensures r in Kept(rules) {
        KeptOneMore(before, last, r);
        var k :| 0 <= k < |rules| && rules[k] == r;
        assert SameCond(rules[k], rules[|before|]) ==> r == last;
      }
    }
  }

  // ----- When they read the same language -----

  /** Pairs of a state some rules lead to and the state the forward machine is in by then: every rule leads from a
      pair to a pair, and only at acceptance is the first of a pair accepting. */
  ghost predicate Tracks(pairs: set<(Uint8, int)>, desc: DFADescription) {
    && (0, 0) in pairs
    && (forall s, d, c, t :: (s, d) in pairs && TransitionRule(s, c, t) in desc.rules ==>
          (t, Step(ForwardRules(desc.rules), d, c)) in pairs)
    && (forall d :: (desc.acceptState, d) in pairs ==> d == desc.acceptState as int)
  }

  /** The machines agree on all words exactly when a set of such pairs exists; there are finitely many sets to look
      at. */
  lemma AgreeExactly(desc: DFADescription)
    ensures (forall word :: AcceptsForward(desc, word) <==> AcceptsBackward(desc, word)) <==>
        (exists pairs :: Tracks(pairs, desc))
  {
    hide Tracks, Run, RunAll;
    if forall word :: AcceptsForward(desc, word) <==> AcceptsBackward(desc, word) {
      MeetTracks(desc);
    }
    if pairs :| Tracks(pairs, desc) {
      forall word ensures AcceptsForward(desc, word) <==> AcceptsBackward(desc, word) {
        TracksAgree(desc, pairs, word);
      }
    }
  }

  lemma TracksAgree(desc: DFADescription, pairs: set<(Uint8, int)>, word: string)
    requires Tracks(pairs, desc)
    ensures AcceptsForward(desc, word) <==> AcceptsBackward(desc, word)
  {
    hide Kept, All;
    if AcceptsForward(desc, word) {
      ForwardIsBackward(desc, word);
    } else if AcceptsBackward(desc, word) {
      BackwardLeads(desc.rules, word, desc.acceptState);
      TracksAlong(desc, pairs, 0, 0, word, desc.acceptState);
    }
  }

  lemma {:induction false} TracksAlong(desc: DFADescription, pairs: set<(Uint8, int)>, s: Uint8, d: int, word: string,
                                       t: Uint8)
    requires Tracks(pairs, desc) && (s, d) in pairs && Leads(All(desc.rules), s, word, t)
    ensures (t, Run(ForwardRules(desc.rules), d, word)) in pairs
    decreases |word|
  {
    if word != "" {
      var mid :| TransitionRule(s, word[0], mid) in All(desc.rules) && Leads(All(desc.rules), mid, word[1..], t);
      assert TransitionRule(s, word[0], mid) in desc.rules;
      TracksAlong(desc, pairs, mid, Step(ForwardRules(desc.rules), d, word[0]), word[1..], t);
    }
  }

  /** Along some word the rules lead to s while the forward machine goes to d. */
  ghost predicate Meet(desc: DFADescription, s: Uint8, d: int) {
    exists word :: Leads(All(desc.rules), 0, word, s) && Run(ForwardRules(desc.rules), 0, word) == d
  }

  lemma MeetTracks(desc: DFADescription)
    requires forall word :: AcceptsForward(desc, word) <==> AcceptsBackward(desc, word)
    ensures exists pairs :: Tracks(pairs, desc)
  {
    hide Meet;
    var pairs := set s: Uint8, d: int | -1 <= d < 256 && Meet(desc, s, d) :: (s, d);
    MeetStart(desc);
    forall s, d, c, t | (s, d) in pairs && TransitionRule(s, c, t) in desc.rules
      ensures (t, Step(ForwardRules(desc.rules), d, c)) in pairs
    {
      MeetStep(desc, s, d, c, t);
    }
    forall d | (desc.acceptState, d) in pairs ensures d == desc.acceptState as int {
      MeetAccepts(desc, d);
    }
    assert Tracks(pairs, desc);
  }

  lemma MeetStart(desc: DFADescription)
    ensures Meet(desc, 0, 0)
  {
    assert Leads(All(desc.rules), 0, "", 0) && Run(ForwardRules(desc.rules), 0, "") == 0;
  }

  lemma MeetStep(desc: DFADescription, s: Uint8, d: int, c: char, t: Uint8)
    requires Meet(desc, s, d) && TransitionRule(s, c, t) in desc.rules
    ensures Meet(desc, t, Step(ForwardRules(desc.rules), d, c))
  {
    var table := ForwardRules(desc.rules);
    var word :| Leads(All(desc.rules), 0, word, s) && Run(table, 0, word) == d;
    LeadsOneMore(All(desc.rules), 0, word, s, c, t);
    RunLast(table, 0, word, c);
    assert Leads(All(desc.rules), 0, word + [c], t) && Run(table, 0, word + [c]) == Step(table, d, c);
  }

  lemma MeetAccepts(desc: DFADescription, d: int)
    requires Meet(desc, desc.acceptState, d) && forall word :: AcceptsForward(desc, word) <==>
        AcceptsBackward(desc, word)
    ensures d == desc.acceptState as int
  {
    var word :| Leads(All(desc.rules), 0, word, desc.acceptState) && Run(ForwardRules(desc.rules), 0, word) == d;
    BackwardLeads(desc.rules, word, desc.acceptState);
    assert AcceptsForward(desc, word) <==> AcceptsBackward(desc, word);
  }

  lemma {:induction false} LeadsOneMore(rules: set<TransitionRule>, from: Uint8, word: string, to: Uint8, c: char,
                                        next: Uint8)
    requires Leads(rules, from, word, to) && TransitionRule(to, c, next) in rules
    ensures Leads(rules, from, word + [c], next)
    decreases |word|
  {
    if word == "" {
      assert word + [c] == [c] && [c][1..] == "";
      assert Leads(rules, next, "", next);
    } else {
      var mid :| TransitionRule(from, word[0], mid) in rules && Leads(rules, mid, word[1..], to);
      assert (word + [c])[1..] == word[1..] + [c];
      LeadsOneMore(rules, mid, word[1..], to, c, next);
    }
  }

  lemma {:induction false} RunLast(table: map<TransCond, Uint8>, state: int, word: string, c: char)
    ensures Run(table, state, word + [c]) == Step(table, Run(table, state, word), c)
    decreases |word|
  {
    if word == "" {
      assert word + [c] == [c] && [c][1..] == "";
      assert Run(table, Step(table, state, c), "") == Step(table, state, c);
    } else {
      assert (word + [c])[1..] == word[1..] + [c];
      RunLast(table, Step(table, state, word[0]), word[1..], c);
    }
  }

  // ----- With two ways to go -----

  const R1 := TransitionRule(0, 'a', 1)
  const R2 := TransitionRule(0, 'a', 2)

  lemma TwoWaysTable()
    ensures !Functional([R1, R2]) && ForwardRules([R1, R2]) == map[TransCond(0, 'a') := 2]
  {
    var rules := [R1, R2];
    assert SameCond(rules[0], rules[1]);
    assert rules[..1] == [R1] && [R1][..0] == [];
    assert ForwardRules([R1]) == map[TransCond(0, 'a') := 1];
  }

  /** The forward machine forgets the first way and the backward one keeps both: here they disagree. */
  lemma TwoWaysDisagree()
    ensures var desc := DFADescription([R1, R2], 1);
      !Functional(desc.rules) && !AcceptsForward(desc, "a") && AcceptsBackward(desc, "a")
  {
    var rules := [R1, R2];
    TwoWaysTable();
    assert Run(ForwardRules(rules), 0, "a") == Run(ForwardRules(rules), 2, "a"[1..]) == 2;
    BackwardLeads(rules, "a", 1);
    assert rules[0] == R1 && R1 in All(rules);
    assert TransitionRule(0, "a"[0], 1) in All(rules) && Leads(All(rules), 1, "a"[1..], 1);
  }

  /** And here they agree on every word, the way that is forgotten leading nowhere. */
  lemma TwoWaysAgree(word: string)
    ensures var desc := DFADescription([R1, R2], 2);
      !Functional(desc.rules) && (AcceptsForward(desc, word) <==> AcceptsBackward(desc, word))
  {
    hide AcceptsForward, AcceptsBackward;
    TwoWaysTable();
    TracksAgree(DFADescription([R1, R2], 2), {(0, 0), (1, 2), (2, 2)}, word);
  }
}
