/** From statements to what is left of them at run time. */
module CompiledEvaluation {
  import opened Ir
  import opened Options
  import opened Language
  import opened Lowering
  import opened ExprLowering
  import opened StmtLowering
  import opened Simulation
  import opened MutationBounds
  import opened Precompute
  import opened PrecomputeSimple
  import opened CompiledItems
  import B = PrecomputeBlocks
  import P = PrecomputeSound
  import F = FrontNodes
  import W = PrecomputeWhole
  import T = Placement

  // ----- Running through straight code is executing its items -----

  lemma {:induction false} StuckStays(w: World, program: seq<Inst>, n: nat)
    ensures Steps(w, program, Stuck, n) == Stuck
  {
    if n > 0 {
      StuckStays(w, program, n - 1);
    }
  }

  /** Code that runs from one end to the other and has no jumps goes through its instructions one by one. */
  lemma {:induction false} StraightExec(w: World, code: seq<Inst>, p: nat, store: Store, trace: seq<Event>, n: nat,
                                        store': Store, trace': seq<Event>)
    requires p <= |code| && B.AllSupported(Dos(code[p..]))
    requires Steps(w, code, Running(p, store, trace), n) == Running(|code|, store', trace')
    ensures B.Exec(w, Dos(code[p..]), store) == Some(store') && trace' == trace
    decreases |code| - p
  {
    if p == |code| {
      if n > 0 {
        StuckStays(w, code, n - 1);
      }
    } else {
      var i := code[p];
      assert Dos(code[p..])[0] == B.Do(i) && Dos(code[p..])[1..] == Dos(code[p + 1..]);
      var next := Step(w, code, Running(p, store, trace));
      InstExec(w, code, p, i, store, trace);
      if ExecInst(w, store, i).None? {
        StuckStays(w, code, n - 1);
      } else {
        StraightExec(w, code, p + 1, ExecInst(w, store, i).value, trace, n - 1, store', trace');
      }
    }
  }

  lemma InstExec(w: World, program: seq<Inst>, p: nat, i: Inst, store: Store, trace: seq<Event>)
    requires p < |program| && program[p] == i && Supported(i)
    ensures Step(w, program, Running(p, store, trace)) ==
            match ExecInst(w, store, i) { case None => Stuck case Some(s) => Running(p + 1, s, trace) }
  {
  }

  lemma {:induction false} SupportedConcat(a: Items, b: Items)
    ensures B.AllSupported(a + b) <==> B.AllSupported(a) && B.AllSupported(b)
    decreases |a|
  {
    hide B.SupportedItem;
    if a == [] {
      assert a + b == b;
    } else {
      assert (a + b)[1..] == a[1..] + b;
      SupportedConcat(a[1..], b);
    }
  }

  lemma {:induction false} ExecConcat(w: World, a: Items, b: Items, store: Store)
    requires B.AllSupported(a) && B.AllSupported(b) && B.AllSupported(a + b)
    ensures B.Exec(w, a + b, store) == match B.Exec(w, a, store) { case None => None case Some(s) => B.Exec(w, b, s) }
    decreases |a|
  {
    hide B.SupportedItem, B.ExecItem;
    if a == [] {
      assert a + b == b;
    } else {
      assert (a + b)[1..] == a[1..] + b;
      if B.ExecItem(w, a[0], store).Some? {
        ExecConcat(w, a[1..], b, B.ExecItem(w, a[0], store).value);
      }
    }
  }

  lemma {:induction false} SupportedIsUnlabelled(code: seq<Inst>)
    requires B.AllSupported(Dos(code))
    ensures UniqueLabels(code) && forall k :: 0 <= k < |code| ==> Supported(code[k])
    decreases |code|
  {
    if code != [] {
      assert Dos(code)[1..] == Dos(code[1..]);
      SupportedIsUnlabelled(code[1..]);
      forall k | 0 <= k < |code| ensures Supported(code[k]) {
        assert k > 0 ==> code[1..][k - 1] == code[k];
      }
    }
  }

  lemma WholeAt(program: seq<Inst>)
    ensures At(program, 0, program) && program[0..] == program
  {
  }

  // ----- The meaning of statements is that of their items -----

  /** What the execution of items comes to when the statements end normally. */
  ghost predicate Comes(w: World, items: Items, o: Outcome, names: Names, names': Names, vars: nat, vars': nat,
                        store: Store, store': Store)
  {
    && B.AllSupported(items) && B.Exec(w, items, store) == Some(store')
    && o.Normal? && o.trace == [] && Good(o.env, names', store', vars') && Kept(store, store', names, vars)
  }

  lemma {:induction false} BlockComes(w: World, stmts: seq<Stmt>, names: Names, c: Counters, env: Scopes<Value>,
                                      store: Store, fuel: nat)
    returns (store': Store)
    requires Good(env, names, store, c.vars) && AcceptedBlock(stmts, names, None, c) && Calculates(stmts, names, c)
    requires B.AllSupported(ItemsOf(stmts, names, c)) && ExecBlock(w, stmts, env, [], fuel).Normal?
    ensures var a := LowerBlock(stmts, names, None, c);
      Comes(w, ItemsOf(stmts, names, c), ExecBlock(w, stmts, env, [], fuel), names, a.names, c.vars, a.next.vars,
          store, store')
    decreases stmts, 0
  {
    hide LowerStmt, ItemsOfStmt, Accepted, CalculatesIn, Good, Kept, ExecStmt, B.Exec, B.AllSupported, Extends;
    if stmts == [] {
      store' := store;
      NothingComes(w, store);
      KeptNothing(store, names, c.vars);
    } else {
      var a := LowerStmt(stmts[0], names, None, c);
      var first, rest := ItemsOfStmt(stmts[0], names, c), ItemsOf(stmts[1..], a.names, a.next);
      SupportedConcat(first, rest);
      var o1 := ExecStmt(w, stmts[0], env, [], fuel);
      var store1 := StmtComes(w, stmts[0], names, c, env, store, fuel);
      store' := BlockComes(w, stmts[1..], a.names, a.next, o1.env, store1, fuel);
      ExecConcat(w, first, rest, store);
      GoodParts(env, names, store, c.vars);
      LowerStmtExtends(stmts[0], names, None, c);
      ExtendsNames(names, c, a.names, a.next);
      KeptChain(store, store1, store', names, c.vars, a.names, a.next.vars);
    }
  }

  lemma ExtendsNames(names: Names, c: Counters, names': Names, c': Counters)
    requires Extends(names, c, names', c') && names != [] && ExprLowering.Below(names, c.vars)
    ensures c.vars <= c'.vars && forall u: nat :: u < c.vars && IsNamed(names', u) ==> IsNamed(names, u)
  {
  }

  lemma NothingComes(w: World, store: Store)
    ensures B.AllSupported([]) && B.Exec(w, [], store) == Some(store)
  {
  }

  lemma {:induction false} StmtComes(w: World, s: Stmt, names: Names, c: Counters, env: Scopes<Value>, store: Store,
                                     fuel: nat)
    returns (store': Store)
    requires Good(env, names, store, c.vars) && Accepted(s, names, None, c) && CalculatesIn(s, names, c)
    requires B.AllSupported(ItemsOfStmt(s, names, c)) && ExecStmt(w, s, env, [], fuel).Normal?
    ensures var a := LowerStmt(s, names, None, c);
      Comes(w, ItemsOfStmt(s, names, c), ExecStmt(w, s, env, [], fuel), names, a.names, c.vars, a.next.vars, store,
          store')
    decreases s, 1
  {
    hide LowerIf, ItemOfIf, LowerLoop, LowerRange, CalculatesIn, Good, Kept, B.ExecItem, B.SupportedItem, UniqueLabels,
        ExecBranch, At, Reaches;
    GoodParts(env, names, store, c.vars);
    if s.If? || s.IfElse? {
      store' := IfComes(w, s, names, c, env, store, fuel);
      var item := ItemOfIf(s, names, c);
      assert [item][1..] == [];
      NothingComes(w, store');
    } else {
      var code := LowerStmt(s, names, None, c).code;
      store' := SimpleComes(w, s, names, c, env, store, fuel);
    }
  }

  lemma SimpleComes(w: World, s: Stmt, names: Names, c: Counters, env: Scopes<Value>, store: Store, fuel: nat)
    returns (store': Store)
    requires Good(env, names, store, c.vars) && Accepted(s, names, None, c)
    requires B.AllSupported(Dos(LowerStmt(s, names, None, c).code)) && ExecStmt(w, s, env, [], fuel).Normal?
    ensures var a := LowerStmt(s, names, None, c);
      Comes(w, Dos(a.code), ExecStmt(w, s, env, [], fuel), names, a.names, c.vars, a.next.vars, store, store')
  {
    hide LowerStmt, Accepted, Good, Kept, B.Exec, B.AllSupported, UniqueLabels, ExecStmt, At, Steps;
    var code := LowerStmt(s, names, None, c).code;
    SupportedIsUnlabelled(code);
    WholeAt(code);
    var n, k := StmtRuns(w, code, 0, s, names, None, c, env, [], store, fuel);
    StraightExec(w, code, 0, store, [], n, k.store, k.trace);
    store' := k.store;
  }

  /** The test of an if: its value is in its variable, and no call has been made. */
  lemma TestComes(w: World, cond: Expr, names: Names, c: Counters, n0: nat, env: Scopes<Value>, store: Store,
                  r: Evaluated)
    returns (store': Store)
    requires Good(env, names, store, n0) && n0 <= c.vars && Eval(w, cond, env, []) == Some(r)
    requires B.AllSupported(Dos(ToValue(cond, names + [map[]], c).code))
    ensures var a := ToValue(cond, names + [map[]], c);
      && B.Exec(w, Dos(a.code), store) == Some(store') && a.vn in store' && store'[a.vn] == r.value && r.trace == []
      && c.vars <= a.next.vars && Good(env, names, store', a.next.vars) && Kept(store, store', names, n0)
  {
    hide B.Exec, B.AllSupported, At, UniqueLabels, Steps, Matches, ExprLowering.Below, Distinct, Kept, Free, Spared,
        ToValue;
    var inner, innerEnv := names + [map[]], env + [map[]];
    var a := ToValue(cond, inner, c);
    GoodParts(env, names, store, n0);
    BelowMore(names, n0, c.vars);
    EnterScope(env, names, store, c.vars);
    GoodParts(innerEnv, inner, store, c.vars);
    EvalEmptyScope(w, cond, env, []);
    SupportedIsUnlabelled(a.code);
    WholeAt(a.code);
    var n;
    n, store' := ToValueRuns(w, a.code, 0, cond, inner, c, innerEnv, [], store, r);
    StraightExec(w, a.code, 0, store, [], n, store', r.trace);
    ToValueGrows(cond, inner, c);
    FreshIsFree(env, names, store, c.vars, c.vars);
    MatchesAfter(env, names, store, store', c.vars, c.vars);
    BelowMore(names, c.vars, a.next.vars);
    SparedIsKept(store, store', names, c.vars, n0, c.vars);
  }

  /** A branch, in a scope of its own. */
  lemma {:induction false} BranchComes(w: World, stmts: seq<Stmt>, names: Names, c: Counters, n0: nat,
                                       env: Scopes<Value>, store0: Store, store: Store,
                                       fuel: nat)
    returns (store': Store)
    requires Good(env, names, store, c.vars) && n0 <= c.vars && Kept(store0, store, names, n0)
    requires AcceptedBlock(stmts, names + [map[]], None, c) && Calculates(stmts, names + [map[]], c)
    requires B.AllSupported(ItemsOf(stmts, names + [map[]], c)) && ExecBlock(w, stmts, env + [map[]], [], fuel).Normal?
    ensures var o := Leave(ExecBlock(w, stmts, env + [map[]], [], fuel), |env|);
      && B.Exec(w, ItemsOf(stmts, names + [map[]], c), store) == Some(store')
      && o.Normal? && o.trace == [] && Good(o.env, names, store', LowerBlock(stmts, names + [map[]], None, c).next.vars)
      && Kept(store0, store', names, n0)
    decreases stmts, 1
  {
    hide LowerBlock, ItemsOf, AcceptedBlock, Calculates, Kept, ExecBlock, B.Exec, B.AllSupported, ExprLowering.Below,
        Distinct, Matches;
    var inner := names + [map[]];
    var b := LowerBlock(stmts, inner, None, c);
    GoodParts(env, names, store, c.vars);
    EnterScope(env, names, store, c.vars);
    store' := BlockComes(w, stmts, inner, c, env + [map[]], store, fuel);
    var o := ExecBlock(w, stmts, env + [map[]], [], fuel);
    BlockKeepsOutside(stmts, inner, None, c);
    assert inner[..|names|] == names;
    GoodParts(o.env, b.names, store', b.next.vars);
    LeaveScope(o.env, names, b.names, store', c.vars, b.next.vars);
    InnerNames(names, map[], c.vars);
    KeptChain(store0, store, store', names, n0, inner, c.vars);
  }

  lemma {:induction false} IfComes(w: World, s: Stmt, names: Names, c: Counters, env: Scopes<Value>, store: Store,
                                   fuel: nat)
    returns (store': Store)
    requires s.If? || s.IfElse?
    requires Good(env, names, store, c.vars) && Accepted(s, names, None, c) && CalculatesIn(s, names, c)
    requires B.SupportedItem(ItemOfIf(s, names, c)) && ExecBranch(w, s, env, [], fuel).Normal?
    ensures var a := LowerIf(s, names, None, c); var o := ExecBranch(w, s, env, [], fuel);
      && B.ExecItem(w, ItemOfIf(s, names, c), store) == Some(store')
      && o.trace == [] && Good(o.env, names, store', a.next.vars) && a.names == names
          && Kept(store, store', names, c.vars)
    decreases s, 0
  {
    hide LowerBlock, ToValue, ItemsOf, AcceptedBlock, Calculates, Good, Kept, Eval, ExecBlock, B.Exec, B.AllSupported;
    var inner, c1 := names + [map[]], NewLabel(NewList(NewList(c)));
    var a := ToValue(s.cond, inner, c1);
    var r := Eval(w, s.cond, env, []).value;
    var store1 := TestComes(w, s.cond, names, c1, c.vars, env, store, r);
    var b := LowerBlock(s.thn, inner, None, a.next);
    BlockKeepsOutside(s.thn, inner, None, a.next);
    if s.IfElse? {
      BlockKeepsOutside(s.els, inner, None, NewLabel(NewList(b.next)));
    }
    GoodParts(env, names, store1, a.next.vars);
    if r.value.b {
      store' := BranchComes(w, s.thn, names, a.next, c.vars, env, store, store1, fuel);
      assert b.next.vars <= LowerIf(s, names, None, c).next.vars;
      assert Good(Leave(ExecBlock(w, s.thn, env + [map[]], [], fuel), |env|).env, names, store', b.next.vars);
      RaiseGood(Leave(ExecBlock(w, s.thn, env + [map[]], [], fuel), |env|).env, names, store', b.next.vars,
          LowerIf(s, names, None, c).next.vars);
    } else if s.IfElse? {
      var c2 := NewLabel(NewList(b.next));
      RaiseGood(env, names, store1, a.next.vars, c2.vars);
      store' := BranchComes(w, s.els, names, c2, c.vars, env, store, store1, fuel);
    } else {
      store' := store1;
      RaiseGood(env, names, store1, a.next.vars, b.next.vars);
    }
  }

  lemma RaiseGood(env: Scopes<Value>, names: Names, store: Store, n: nat, m: nat)
    requires Good(env, names, store, n) && n <= m
    ensures Good(env, names, store, m)
  {
  }

  // ----- The theorem -----

  /** A name's value is in the table or at run time. */
  ghost predicate Found(t: Table, words: map<nat, int>, names: Names, env: Scopes<Value>, x: string) {
    Resolves(names, x) && Resolves(env, x) &&
    (Resolve(env, x) != Undefined ==> Holds(t, words, Resolve(names, x), Encode(Resolve(env, x))))
  }

  lemma AgreeingIsFound(t: Table, words: map<nat, int>, names: Names, env: Scopes<Value>, store: Store, n: nat,
                        scope: set<nat>, x: string)
    requires Good(env, names, store, n) && Named(names) <= scope && AgreeOn(scope, t, store, words)
        && Resolves(names, x)
    ensures Found(t, words, names, env, x)
  {
    ResolveMatches(env, names, store, x);
    ResolvedIsNamed(names, x);
    assert Agrees(t, store, words, Resolve(names, x));
  }

  /** Loop-free statements are lowered and what can be is carried out at compile time. When the statements end
      normally, what is left comes to its end, and every name in sight then has, in the table or at run time, the value
      it should. */
  lemma CompiledAndEvaluated(w: World, call: (string, seq<Value>, seq<Event>) -> Value, stmts: seq<Stmt>, names: Names,
                             c: Counters,
                             env: Scopes<Value>, store: Store, fuel: nat, lists: seq<seq<nat>>, t: Table,
                             words: map<nat, int>)
    returns (m: nat, words': map<nat, int>)
    requires w == Words(call) && Good(env, names, store, c.vars)
    requires AcceptedBlock(stmts, names, None, c) && Calculates(stmts, names, c)
        && F.ListsRight(stmts, names, None, c, lists)
    requires ExecBlock(w, stmts, env, [], fuel).Normal?
    requires LowerBlock(stmts, names, None, c).next.vars <= |t| && P.Guarded(t, lists, ItemsOf(stmts, names, c))
    requires AgreeOn(Named(names), t, store, words)
    ensures var a := LowerBlock(stmts, names, None, c);
      var made := GenAll(Gen(t, []), lists, a.code);
      && AdvanceBy(made.code, Here(0, words), m) == Here(|made.code|, words')
      && forall x :: Resolves(a.names, x) ==>
          Found(made.gen.table, words', a.names, ExecBlock(w, stmts, env, [], fuel).env, x)
  {
    hide AcceptedBlock, Calculates, F.ListsRight, LowerBlock, ItemsOf, ExecBlock, GenAll, AdvanceBy, P.Guarded,
        AgreeOn, Words, Named, ExprLowering.Below, Matches,
         Distinct, B.AllSupported, P.Scoped, P.ScopeAfter, UniqueLabels, B.Exec, Steps, Found;
    var items, a := ItemsOf(stmts, names, c), LowerBlock(stmts, names, None, c);
    ItemsAreCode(stmts, names, c);
    GoodParts(env, names, store, c.vars);
    NamedInRange(names, c.vars);
    ItemsScoped(stmts, names, c, |t|, lists, Named(names));
    P.ScopedIsSupported(|t|, lists, Named(names), items);
    var store' := BlockComes(w, stmts, names, c, env, store, fuel);
    NamedInRangeOf(names, c.vars, a.next.vars, stmts, c);
    CodeIsUnique(stmts, names, c);
    var n, plain;
    n, m, plain, words' := W.PartialEvaluationSound(w, call, lists, Named(names), t, items, store, words);
    forall x | Resolves(a.names, x)
      ensures Found(GenAll(Gen(t, []), lists, a.code).gen.table, words', a.names,
          ExecBlock(w, stmts, env, [], fuel).env, x)
    {
      AgreeingIsFound(GenAll(Gen(t, []), lists, a.code).gen.table, words', a.names,
          ExecBlock(w, stmts, env, [], fuel).env, store', a.next.vars,
                      P.ScopeAfter(Named(names), items), x);
    }
  }

  lemma NamedInRange(names: Names, n: nat)
    requires ExprLowering.Below(names, n)
    ensures InRange(Named(names), n)
  {
  }

  lemma NamedInRangeOf(names: Names, n: nat, n': nat, stmts: seq<Stmt>, c: Counters)
    requires names != [] && n == c.vars && n' == LowerBlock(stmts, names, None, c).next.vars && InRange(Named(names), n)
    ensures n <= n' && InRange(Named(names), n')
  {
    hide LowerBlock, Named;
    BlockKeepsOutside(stmts, names, None, c);
  }

  lemma CodeIsUnique(stmts: seq<Stmt>, names: Names, c: Counters)
    requires AcceptedBlock(stmts, names, None, c)
    ensures UniqueLabels(LowerBlock(stmts, names, None, c).code)
  {
    hide LowerBlock, AcceptedBlock, UniqueLabels;
    T.BlockFits(stmts, names, None, c, {});
  }
}
