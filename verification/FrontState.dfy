/** The state of the front end's generator for one procedure, and what emitting code does to it: Emits for code inside a
    scope, Closes for code up to the end of the scope's block, when its list is put in order. */
module FrontStates {
  import opened Ir
  import opened Options
  import opened Language
  import opened Lowering
  import opened ExprLowering
  import opened Mutations

  /** A lexical scope: its names, the loop it is in, the first variable created in it, and the list that collects the
      older variables changed in it. Lists are shared by number. */
  datatype Scope = Scope(varTable: map<string, nat>, loopLabel: LoopId, firstVar: nat, mutations: Option<nat>)

  datatype State = State(opts: seq<Inst>, nextVarNum: nat, availableId: nat, lists: seq<seq<nat>>, scopes: seq<Scope>)

  function Tables(scopes: seq<Scope>): Names {
    seq(|scopes|, i requires 0 <= i < |scopes| => scopes[i].varTable)
  }

  function CountersOf(s: State): Counters {
    Counters(s.nextVarNum, s.availableId, |s.lists|)
  }

  function Top(s: State): Scope
    requires s.scopes != []
  {
    s.scopes[|s.scopes| - 1]
  }

  ghost predicate Valid(s: State) {
    && s.scopes != [] && Below(Tables(s.scopes), s.nextVarNum)
    && (forall i :: 0 <= i < |s.scopes| ==> s.scopes[i].firstVar <= s.nextVarNum)
    && (forall i :: 0 <= i < |s.scopes| && s.scopes[i].mutations.Some? ==> s.scopes[i].mutations.value < |s.lists|)
    && (forall i, j :: 0 <= i < j < |s.scopes| ==>
          s.scopes[i].firstVar <= s.scopes[j].firstVar && (s.scopes[j].mutations.Some? ==>
              s.scopes[i].mutations != s.scopes[j].mutations))
  }

  /** The scopes but for their names. */
  ghost predicate SameScopes(a: seq<Scope>, b: seq<Scope>) {
    && |a| == |b|
    && forall i :: 0 <= i < |a| ==>
        b[i].loopLabel == a[i].loopLabel && b[i].firstVar == a[i].firstVar && b[i].mutations == a[i].mutations
  }

  /** The list, if there is one, has gained what the code mutates of the variables below `first`; other lists that were
      there before are unchanged. */
  ghost predicate Recorded(before: seq<seq<nat>>, after: seq<seq<nat>>, list: Option<nat>, first: nat, code: seq<Inst>)
  {
    && |before| <= |after|
    && (forall k :: 0 <= k < |before| && list != Some(k) ==> after[k] == before[k])
    && (list.Some? && list.value < |before| ==>
        Elements(after[list.value]) == Elements(before[list.value]) + Mutated(code, first))
  }

  /** Code has been appended and recorded; the names in scope and the counters are as given. */
  ghost predicate Emits(s: State, s': State, code: seq<Inst>, next: Counters, names: Names) {
    && s.scopes != [] && s'.opts == s.opts + code && CountersOf(s') == next && Tables(s'.scopes) == names
        && SameScopes(s.scopes, s'.scopes)
    && Recorded(s.lists, s'.lists, Top(s).mutations, Top(s).firstVar, code)
  }

  lemma EmitsNothing(s: State)
    requires s.scopes != []
    ensures Emits(s, s, [], CountersOf(s), Tables(s.scopes))
  {
  }

  lemma EmitsBoth(s: State, s1: State, s2: State, a: seq<Inst>, b: seq<Inst>, c1: Counters, n1: Names, c2: Counters,
                  n2: Names)
    requires Emits(s, s1, a, c1, n1) && Emits(s1, s2, b, c2, n2)
    ensures Emits(s, s2, a + b, c2, n2)
  {
    MutatedConcat(a, b, Top(s).firstVar);
  }

  lemma EmitsCounters(s: State, s': State, code: seq<Inst>, next: Counters, names: Names)
    requires Emits(s, s', code, next, names)
    ensures CountersOf(s') == next && Tables(s'.scopes) == names && s'.scopes != []
  {
  }

  /** Taking the next label number is all the shared generator does. */
  lemma LabelTaken(s: State)
    requires Valid(s)
    ensures var s' := s.(availableId := s.availableId + 1);
            Valid(s') && Emits(s, s', [], NewLabel(CountersOf(s)), Tables(s.scopes))
  {
  }

  // ----- Several values -----

  lemma {:induction false} ValuesSnoc(es: seq<Expr>, k: nat, names: Names, c: Counters)
    requires k < |es|
    ensures var before := ToValues(es[..k], names, c); var here := ToValue(es[k], names, before.next);
            ToValues(es[..k + 1], names, c) == ValuedAll(before.code + here.code, before.vns + [here.vn], here.next)
    ensures ScopedAll(es[..k + 1], names) == (ScopedAll(es[..k], names) && Scoped(es[k], names))
    decreases k
  {
    hide ToValue, Scoped;
    if k == 0 {
      assert es[..1] == [es[0]] && es[..1][1..] == [] && es[..0] == [];
      assert ToValues([], names, c) == ValuedAll([], [], c);
      var here := ToValue(es[0], names, c);
      assert [] + here.code == here.code == here.code + [];
    } else {
      var a := ToValue(es[0], names, c);
      ValuesSnoc(es[1..], k - 1, names, a.next);
      assert es[..k + 1][1..] == es[1..][..k] && es[..k][1..] == es[1..][..k - 1];
      var inner := ToValues(es[1..][..k - 1], names, a.next);
      var here := ToValue(es[k], names, inner.next);
      assert a.code + (inner.code + here.code) == a.code + inner.code + here.code;
      assert [a.vn] + (inner.vns + [here.vn]) == [a.vn] + inner.vns + [here.vn];
    }
  }

  lemma {:induction false} ScopedPrefix(es: seq<Expr>, k: nat, names: Names)
    requires k < |es| && !Scoped(es[k], names)
    ensures !ScopedAll(es, names)
    decreases k
  {
    hide Scoped;
    if k > 0 {
      ScopedPrefix(es[1..], k - 1, names);
    }
  }

  // ----- Scopes -----

  function Under(vars: set<nat>, n: nat): set<nat> {
    set v | v in vars && v < n
  }

  /** The scope around the innermost one. */
  function Outer(s: State): Option<Scope> {
    if |s.scopes| >= 2 then Some(s.scopes[|s.scopes| - 2]) else None
  }

  ghost predicate HasList(scope: Option<Scope>, k: nat) {
    scope.Some? && scope.value.mutations == Some(k)
  }

  /** Code has been appended up to the end of the scope's block: its list is in order, and its entries older than
      the scope around it have been handed on. */
  ghost predicate Closes(s: State, s': State, code: seq<Inst>, next: Counters, names: Names) {
    && s.scopes != [] && s'.opts == s.opts + code && CountersOf(s') == next && Tables(s'.scopes) == names
        && SameScopes(s.scopes, s'.scopes)
    && |s.lists| <= |s'.lists|
    && match Top(s).mutations
       case None => forall k :: 0 <= k < |s.lists| ==> s'.lists[k] == s.lists[k]
       case Some(l) =>
         && (l < |s.lists| ==>
             Ascending(s'.lists[l]) && Elements(s'.lists[l]) == Elements(s.lists[l]) + Mutated(code, Top(s).firstVar))
         && (forall k :: 0 <= k < |s.lists| && k != l && !HasList(Outer(s), k) ==> s'.lists[k] == s.lists[k])
         && (forall k :: 0 <= k < |s.lists| && k != l && l < |s.lists| && HasList(Outer(s), k) ==>
               Elements(s'.lists[k]) == Elements(s.lists[k]) + Under(Elements(s'.lists[l]), Outer(s).value.firstVar))
  }

  lemma EmitsCloses(s: State, s1: State, s2: State, code: seq<Inst>, c: Counters, names: Names)
    requires Valid(s) && Emits(s, s1, code, c, names) && Closes(s1, s2, [], c, names)
    ensures Closes(s, s2, code, c, names)
  {
    MutatedConcat(code, [], Top(s).firstVar);
    assert code + [] == code;
    assert Mutated([], Top(s).firstVar) == {};
  }

  /** A new scope with its own new list; other new lists may have been made as well. */
  ghost predicate Enters(s: State, s': State, l: nat, table: map<string, nat>, loop: LoopId, c: Counters) {
    && s.scopes != [] && s'.opts == s.opts && CountersOf(s') == c && |s.lists| <= l < |s'.lists|
    && s'.scopes == s.scopes + [Scope(table, loop, s.nextVarNum, Some(l))]
    && (forall k :: 0 <= k < |s.lists| ==> s'.lists[k] == s.lists[k])
    && s'.lists[l] == []
  }

  function Pop(s: State): State {
    if |s.scopes| == 0 then s else s.(scopes := s.scopes[..|s.scopes| - 1])
  }

  /** From before a scope is entered until after it is left: for the scope around it, code has been emitted. */
  lemma ScopeDone(s: State, s1: State, s2: State, s3: State, s4: State, l: nat, table: map<string, nat>, loop: LoopId,
                  c1: Counters,
                  pre: seq<Inst>, c2: Counters, n2: Names, body: seq<Inst>, c3: Counters, n3: Names, post: seq<Inst>,
                  c4: Counters, n4: Names)
    requires Valid(s) && Enters(s, s1, l, table, loop, c1) && Emits(s1, s2, pre, c2, n2)
        && Closes(s2, s3, body, c3, n3) && Emits(s3, s4, post, c4, n4)
    requires n4 != [] && n4[..|n4| - 1] == Tables(s.scopes) && Mutated(post, Top(s).firstVar) == {}
    ensures Emits(s, Pop(s4), pre + body + post, c4, Tables(s.scopes))
    ensures l < |s4.lists| && Elements(s4.lists[l]) == Mutated(pre + body, s.nextVarNum) + Mutated(post, s.nextVarNum)
    ensures Elements(s3.lists[l]) == Mutated(pre + body, s.nextVarNum) && Ascending(s3.lists[l])
  {
    hide Elements, Mutated, Ascending;
    EmptyList();
    var first, less := s.nextVarNum, Top(s).firstVar;
    MutatedConcat(pre, body, first);
    MutatedConcat(pre + body, post, less);
    MutatedBelow(pre + body, first, less);
    ScopesBelow(s, s1, s4);
    assert Top(s1).mutations == Some(l) && Top(s1).firstVar == first;
    assert Top(s2).mutations == Some(l) && Top(s3).mutations == Some(l);
    assert Elements(s2.lists[l]) == Mutated(pre, first);
    assert Elements(s3.lists[l]) == Mutated(pre + body, first);
    OuterScope(s, s1, s2);
    forall k | 0 <= k < |s.lists| && Top(s).mutations != Some(k) ensures s4.lists[k] == s.lists[k] {
      assert s2.lists[k] == s1.lists[k] && s3.lists[k] == s2.lists[k];
    }
    if Top(s).mutations.Some? {
      var p := Top(s).mutations.value;
      assert s2.lists[p] == s1.lists[p] == s.lists[p] && s4.lists[p] == s3.lists[p];
      assert HasList(Outer(s2), p);
      assert Elements(s3.lists[p]) == Elements(s.lists[p]) + Under(Mutated(pre + body, first), less);
      assert Under(Mutated(pre + body, first), less) == Mutated(pre + body, less);
    }
    assert s4.opts == s.opts + (pre + body + post);
    assert Tables(Pop(s4).scopes) == n4[..|n4| - 1];
  }

  lemma EmptyList()
    ensures Elements([]) == {}
  {
  }

  lemma ScopesBelow(s: State, s1: State, s4: State)
    requires s.scopes != [] && s4.scopes != [] && |s1.scopes| == |s.scopes| + 1 && s1.scopes[..|s.scopes|] == s.scopes
        && SameScopes(s1.scopes, s4.scopes)
    ensures SameScopes(s.scopes, Pop(s4).scopes)
  {
    forall i | 0 <= i < |s.scopes|
      ensures Pop(s4).scopes[i].loopLabel == s.scopes[i].loopLabel && Pop(s4).scopes[i].firstVar == s.scopes[i].firstVar
           && Pop(s4).scopes[i].mutations == s.scopes[i].mutations
    {
      assert s1.scopes[i] == s.scopes[i];
    }
  }

  lemma OuterScope(s: State, s1: State, s2: State)
    requires s.scopes != [] && |s1.scopes| == |s.scopes| + 1 && s1.scopes[..|s.scopes|] == s.scopes
        && SameScopes(s1.scopes, s2.scopes)
    ensures Outer(s2).Some? && Outer(s2).value.mutations == Top(s).mutations
        && Outer(s2).value.firstVar == Top(s).firstVar
  {
    assert s1.scopes[|s.scopes| - 1] == s.scopes[|s.scopes| - 1];
  }

  lemma EnteredIsValid(s: State, s': State, l: nat, table: map<string, nat>, loop: LoopId, c: Counters)
    requires Valid(s) && Enters(s, s', l, table, loop, c) && s.nextVarNum <= c.vars && forall x :: x in table ==>
        table[x] < c.vars
    ensures Valid(s') && Tables(s'.scopes) == Tables(s.scopes) + [table]
  {
    assert Tables(s'.scopes) == Tables(s.scopes) + [table];
    forall i | 0 <= i < |s.scopes| ensures s'.scopes[i] == s.scopes[i] {
    }
  }

  /** Changing a list made since does not matter to the scope around. */
  lemma ListAside(s: State, s': State, k: nat, list: seq<nat>, code: seq<Inst>, c: Counters, names: Names)
    requires Valid(s) && Valid(s') && Emits(s, s', code, c, names) && |s.lists| <= k < |s'.lists|
    ensures var s'' := s'.(lists := s'.lists[k := list]); Valid(s'') && Emits(s, s'', code, c, names)
  {
  }

  /** The last instruction may be replaced by another one that mutates nothing. */
  lemma LastReplaced(s: State, s': State, code: seq<Inst>, a: Inst, b: Inst, c: Counters, names: Names)
    requires Valid(s) && Valid(s') && Emits(s, s', code + [a], c, names) && MutationVar(a).None? && MutationVar(b).None?
    ensures s'.opts != [] && var s'' := s'.(opts := s'.opts[|s'.opts| - 1 := b]);
        Valid(s'') && Emits(s, s'', code + [b], c, names)
  {
    hide Mutated, Elements;
    var n := |s'.opts| - 1;
    MutatedConcat(code, [a], Top(s).firstVar);
    MutatedConcat(code, [b], Top(s).firstVar);
    MutatedOne(a, Top(s).firstVar);
    MutatedOne(b, Top(s).firstVar);
    assert s'.opts[n := b] == s.opts + (code + [b]);
  }

  /** Leaving a scope leaves a valid state. */
  lemma PoppedIsValid(s: State, s4: State, code: seq<Inst>, c: Counters, names: Names)
    requires Valid(s) && Valid(s4) && |s4.scopes| == |s.scopes| + 1 && Emits(s, Pop(s4), code, c, names)
        && Tables(Pop(s4).scopes) == Tables(s.scopes)
    requires s.nextVarNum <= c.vars
    ensures Valid(Pop(s4))
  {
    BelowLater(Tables(s.scopes), s.nextVarNum, c.vars);
  }

  lemma BelowLater(names: Names, n: nat, m: nat)
    requires Below(names, n) && n <= m
    ensures Below(names, m)
  {
  }

  /** Lists made together with a scope's own list but not for it stay as they are. */
  lemma OthersUntouched(s: State, s1: State, s2: State, s3: State, s4: State, l: nat, table: map<string, nat>,
                        loop: LoopId, c1: Counters,
                        pre: seq<Inst>, c2: Counters, n2: Names, body: seq<Inst>, c3: Counters, n3: Names,
                        post: seq<Inst>, c4: Counters, n4: Names,
                        k: nat)
    requires Valid(s) && Enters(s, s1, l, table, loop, c1) && Emits(s1, s2, pre, c2, n2)
        && Closes(s2, s3, body, c3, n3) && Emits(s3, s4, post, c4, n4)
    requires |s.lists| <= k < |s1.lists| && k != l
    ensures k < |s4.lists| && s4.lists[k] == s1.lists[k]
  {
    hide Elements, Mutated, Ascending;
    assert Top(s1).mutations == Some(l) && Top(s2).mutations == Some(l) && Top(s3).mutations == Some(l);
    OuterScope(s, s1, s2);
    assert !HasList(Outer(s2), k);
    assert s2.lists[k] == s1.lists[k] && s3.lists[k] == s2.lists[k];
  }

  lemma EmitsTop(s: State, s': State, code: seq<Inst>, c: Counters, names: Names)
    requires Emits(s, s', code, c, names)
    ensures s'.scopes != [] && Top(s').loopLabel == Top(s).loopLabel
    ensures |s.scopes| == |s'.scopes| && |s.lists| <= |s'.lists|
  {
  }

  lemma ClosesTop(s: State, s': State, code: seq<Inst>, c: Counters, names: Names)
    requires Closes(s, s', code, c, names)
    ensures s'.scopes != [] && Top(s').loopLabel == Top(s).loopLabel
    ensures |s.scopes| == |s'.scopes| && CountersOf(s') == c && Tables(s'.scopes) == names && |s.lists| <= |s'.lists|
  {
  }

  lemma EntersTop(s: State, s': State, l: nat, table: map<string, nat>, loop: LoopId, c: Counters)
    requires Enters(s, s', l, table, loop, c)
    ensures s'.scopes != [] && Top(s').loopLabel == loop && CountersOf(s') == c && |s'.scopes| == |s.scopes| + 1
    ensures Tables(s'.scopes) == Tables(s.scopes) + [table]
  {
    assert Tables(s'.scopes) == Tables(s.scopes) + [table];
  }

  // ----- Expressions make no lists -----

  lemma {:induction false} ToVarKeepsLists(e: Expr, names: Names, dest: nat, c: Counters)
    ensures ToVar(e, names, dest, c).next.lists == c.lists
    decreases e, 2
  {
    match e
    case Name(_) =>
    case Literal(_) =>
    case ProcCall(_, args) => ToValuesKeepLists(args, names, c);
    case LogicalNot(r) => ToValueKeepsLists(r, names, c);
    case LogicalAnd(_, _) => ChainKeepsLists(e, false, names, dest, ChainEnd(false, c.labels), NewLabel(c));
    case LogicalOr(_, _) => ChainKeepsLists(e, true, names, dest, ChainEnd(true, c.labels), NewLabel(c));
    case Binary(_, l, r) =>
      ToVarKeepsLists(l, names, c.vars, NewVar(c));
      ToValueKeepsLists(r, names, ToVar(l, names, c.vars, NewVar(c)).next);
  }

  lemma {:induction false} ChainKeepsLists(e: Expr, isOr: bool, names: Names, dest: nat, end: Label, c: Counters)
    ensures Chain(e, isOr, names, dest, end, c).next.lists == c.lists
    decreases e, if IsChain(e, isOr) then 1 else 3
  {
    if !IsChain(e, isOr) {
      ToVarKeepsLists(e, names, dest, c);
    } else {
      ChainKeepsLists(e.left, isOr, names, dest, end, c);
      ToValueKeepsLists(e.right, names, Chain(e.left, isOr, names, dest, end, c).next);
    }
  }

  lemma {:induction false} ToValueKeepsLists(e: Expr, names: Names, c: Counters)
    ensures ToValue(e, names, c).next.lists == c.lists
    decreases e, 4
  {
    if !e.Name? {
      ToVarKeepsLists(e, names, c.vars, NewVar(c));
    }
  }

  lemma {:induction false} ToValuesKeepLists(es: seq<Expr>, names: Names, c: Counters)
    ensures ToValues(es, names, c).next.lists == c.lists
    decreases es, 0
  {
    if es != [] {
      ToValueKeepsLists(es[0], names, c);
      ToValuesKeepLists(es[1..], names, ToValue(es[0], names, c).next);
    }
  }

  /** A list made ahead of the scope it is for may as well have been made with the scope. */
  lemma ListMadeAhead(s: State, s1: State, s2: State, code: seq<Inst>, c: Counters, names: Names)
    requires Valid(s) && Valid(s2) && Emits(s1, s2, code, c, names) && |s2.lists| == |s.lists| + 1
    requires s1.opts == s.opts && s1.scopes == s.scopes && s1.lists == s.lists + [[]]
    ensures var s' := s2.(lists := s2.lists[..|s.lists|]);
            Valid(s') && Emits(s, s', code, c.(lists := |s.lists|), names) && s2.lists == s'.lists + [[]]
  {
    hide Elements, Mutated;
    assert s2.lists[|s.lists|] == s1.lists[|s.lists|];
    assert s2.lists == s2.lists[..|s.lists|] + [[]];
  }

  lemma ScopesThrough(s1: State, s2: State, s3: State, s4: State, pre: seq<Inst>, c2: Counters, n2: Names,
                      body: seq<Inst>, c3: Counters, n3: Names,
                      post: seq<Inst>, c4: Counters, n4: Names)
    requires Emits(s1, s2, pre, c2, n2) && Closes(s2, s3, body, c3, n3) && Emits(s3, s4, post, c4, n4)
    ensures SameScopes(s1.scopes, s4.scopes)
  {
    hide Recorded;
  }

  /** Lists made in a block are not touched by its end. */
  lemma ClosesKeepsAside(s0: State, s: State, s': State, code0: seq<Inst>, c0: Counters, n0: Names, c: Counters,
                         names: Names)
    requires Valid(s0) && Emits(s0, s, code0, c0, n0) && Closes(s, s', [], c, names)
    ensures forall k :: |s0.lists| <= k < |s.lists| ==> k < |s'.lists| && s'.lists[k] == s.lists[k]
  {
    hide Elements, Mutated, Ascending;
    if |s.scopes| >= 2 {
      assert s.scopes[|s.scopes| - 2].mutations == s0.scopes[|s.scopes| - 2].mutations;
    }
  }
}
