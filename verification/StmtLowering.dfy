/** The code of a statement does what the statement means: names keep standing for variables of their own, and what no
    name stands for stays as it is. */
module StmtLowering {
  import opened Ir
  import opened Options
  import opened Language
  import opened Lowering
  import opened ExprLowering

  // ----- Names and variables -----

  ghost predicate IsNamed(names: Names, u: nat) {
    exists i, x :: 0 <= i < |names| && x in names[i] && names[i][x] == u
  }

  /** Different bindings have different variables. */
  ghost predicate Distinct(names: Names) {
    forall i, x, j, y ::
      0 <= i < |names| && 0 <= j < |names| && x in names[i] && y in names[j] && names[i][x] == names[j][y] ==>
        i == j && x == y
  }

  ghost predicate Good(env: Scopes<Value>, names: Names, store: Store, n: nat) {
    names != [] && Matches(env, names, store) && Below(names, n) && Distinct(names)
  }

  /** The variables below n that no name stands for are as they were. */
  ghost predicate Kept(store: Store, store': Store, names: Names, n: nat) {
    forall u: nat :: u < n && !IsNamed(names, u) ==>
        (u in store <==> u in store') && (u in store ==> store'[u] == store[u])
  }

  lemma SparedIsKept(store: Store, store': Store, names: Names, n: nat, m: nat, dest: nat)
    requires Spared(store, store', n, dest) && m <= n && m <= dest
    ensures Kept(store, store', names, m)
  {
  }

  lemma KeptChain(s: Store, s': Store, s'': Store, names: Names, n: nat, names': Names, n': nat)
    requires Kept(s, s', names, n) && Kept(s', s'', names', n')
    requires n <= n' && forall u: nat :: u < n && IsNamed(names', u) ==> IsNamed(names, u)
    ensures Kept(s, s'', names, n)
  {
  }

  lemma {:induction false} SetIsUpdate<T>(scopes: Scopes<T>, x: string, v: T, i: nat)
    requires Resolves(scopes, x) && i < |scopes| && x in scopes[i]
    requires forall k :: i < k < |scopes| ==> x !in scopes[k]
    ensures Set(scopes, x, v) == scopes[i := scopes[i][x := v]]
  {
    var last := |scopes| - 1;
    if i == last {
      assert Bind(scopes, x, v) == scopes[i := scopes[i][x := v]];
    } else {
      SetIsUpdate(scopes[..last], x, v, i);
    }
  }

  lemma SetMatches(env: Scopes<Value>, names: Names, store: Store, n: nat, x: string, v: Value)
    requires Good(env, names, store, n) && Resolves(names, x)
    ensures Resolves(env, x)
    ensures Good(Set(env, x, v), names, store[Resolve(names, x) := v], n)
    ensures IsNamed(names, Resolve(names, x))
  {
    hide Below, Distinct;
    ResolveMatches(env, names, store, x);
    var i := ResolveFinds(names, x);
    SetIsUpdate(env, x, v, i);
    UpdateMatches(env, names, store, i, x, v);
  }

  lemma UpdateMatches(env: Scopes<Value>, names: Names, store: Store, i: nat, x: string, v: Value)
    requires Matches(env, names, store) && Distinct(names) && i < |names| && x in names[i]
    ensures Matches(env[i := env[i][x := v]], names, store[names[i][x] := v])
  {
    var env', store' := env[i := env[i][x := v]], store[names[i][x] := v];
    forall j | 0 <= j < |env'|
      ensures env'[j].Keys == names[j].Keys
      ensures forall y :: y in names[j] && env'[j][y] != Undefined ==>
          names[j][y] in store' && store'[names[j][y]] == env'[j][y]
    {
      assert env[j].Keys == names[j].Keys;
      forall y | y in names[j] && env'[j][y] != Undefined
        ensures names[j][y] in store' && store'[names[j][y]] == env'[j][y]
      {
        assert names[j][y] == names[i][x] ==> j == i && y == x;
      }
    }
  }

  lemma BindMatches(env: Scopes<Value>, names: Names, store: Store, n: nat, x: string, vn: nat, v: Value,
                    store': Store, n': nat)
    requires Good(env, names, store, n)
    requires n <= vn < n' && (v != Undefined ==> vn in store' && store'[vn] == v)
    requires Spared(store, store', n, vn)
    ensures Good(Bind(env, x, v), Bind(names, x, vn), store', n')
  {
    hide Matches, Below, Distinct, Spared, Bind;
    BoundMatches(env, names, store, n, x, vn, v, store');
    BoundDistinct(names, n, x, vn, n');
    assert Bind(names, x, vn) != [];
  }

  lemma BoundMatches(env: Scopes<Value>, names: Names, store: Store, n: nat, x: string, vn: nat, v: Value,
                     store': Store)
    requires names != [] && Matches(env, names, store) && Below(names, n)
    requires n <= vn && (v != Undefined ==> vn in store' && store'[vn] == v)
    requires Spared(store, store', n, vn)
    ensures Matches(Bind(env, x, v), Bind(names, x, vn), store')
  {
    var env', names' := Bind(env, x, v), Bind(names, x, vn);
    forall i | 0 <= i < |env'|
      ensures env'[i].Keys == names'[i].Keys
      ensures forall y :: y in names'[i] && env'[i][y] != Undefined ==>
          names'[i][y] in store' && store'[names'[i][y]] == env'[i][y]
    {
      assert env[i].Keys == names[i].Keys;
    }
  }

  lemma BoundDistinct(names: Names, n: nat, x: string, vn: nat, n': nat)
    requires names != [] && Below(names, n) && Distinct(names) && n <= vn < n'
    ensures Below(Bind(names, x, vn), n') && Distinct(Bind(names, x, vn))
  {
    hide Bind, Below, Distinct;
    BoundBelow(names, n, x, vn, n');
    BoundAlone(names, n, x, vn);
  }

  lemma BoundBelow(names: Names, n: nat, x: string, vn: nat, n': nat)
    requires names != [] && Below(names, n) && n <= vn < n'
    ensures Below(Bind(names, x, vn), n')
  {
  }

  lemma BoundAlone(names: Names, n: nat, x: string, vn: nat)
    requires names != [] && Below(names, n) && Distinct(names) && n <= vn
    ensures Distinct(Bind(names, x, vn))
  {
    var names' := Bind(names, x, vn);
    assert forall i :: 0 <= i < |names| - 1 ==> names'[i] == names[i];
  }

  lemma BindNames(names: Names, x: string, vn: nat, n: nat)
    requires names != [] && Below(names, n) && n <= vn
    ensures forall u: nat :: u < n && IsNamed(Bind(names, x, vn), u) ==> IsNamed(names, u)
  {
    var names' := Bind(names, x, vn);
    forall u: nat | u < n && IsNamed(names', u) ensures IsNamed(names, u) {
      var i, y :| 0 <= i < |names'| && y in names'[i] && names'[i][y] == u;
      assert y in names[i] && names[i][y] == u;
    }
  }

  lemma InnerNames(names: Names, top: map<string, nat>, n: nat)
    requires forall x :: x in top ==> n <= top[x]
    ensures forall u: nat :: u < n && IsNamed(names + [top], u) ==> IsNamed(names, u)
  {
    var names' := names + [top];
    forall u: nat | u < n && IsNamed(names', u) ensures IsNamed(names, u) {
      var i, y :| 0 <= i < |names'| && y in names'[i] && names'[i][y] == u;
      assert i < |names|;
      assert y in names[i] && names[i][y] == u;
    }
  }

  lemma EnterScope(env: Scopes<Value>, names: Names, store: Store, n: nat)
    requires Good(env, names, store, n)
    ensures Good(env + [map[]], names + [map[]], store, n)
  {
  }

  lemma LeaveScope(env: Scopes<Value>, names: Names, inner: Names, store: Store, n: nat, m: nat)
    requires |inner| == |names| + 1 && inner[..|names|] == names && names != []
    requires Matches(env, inner, store) || (|env| == |inner| && Matches(env[..|names|], names, store))
    requires Below(names, n) && Distinct(names) && n <= m
    ensures |env| == |names| + 1 && Good(env[..|names|], names, store, m)
  {
    assert forall i :: 0 <= i < |names| ==> inner[i] == names[i];
  }

  // ----- What lowering does to names and counters -----

  /** The scopes below the innermost are untouched, and new names have new variables. */
  ghost predicate Extends(names: Names, c: Counters, names': Names, c': Counters) {
    && Grows(c, c')
    && |names'| == |names|
    && (names != [] ==> names'[..|names| - 1] == names[..|names| - 1])
    && (names != [] && Below(names, c.vars) ==>
          && Below(names', c'.vars)
          && (forall u: nat :: u < c.vars && IsNamed(names', u) ==> IsNamed(names, u)))
  }

  lemma ExtendsChain(n0: Names, c0: Counters, n1: Names, c1: Counters, n2: Names, c2: Counters)
    requires Extends(n0, c0, n1, c1) && Extends(n1, c1, n2, c2)
    ensures Extends(n0, c0, n2, c2)
  {
  }

  lemma SameNamesExtend(names: Names, c: Counters, c': Counters)
    requires Grows(c, c')
    ensures Extends(names, c, names, c')
  {
  }

  lemma {:induction false} LowerBlockExtends(stmts: seq<Stmt>, names: Names, loop: LoopId, c: Counters)
    ensures var a := LowerBlock(stmts, names, loop, c); Extends(names, c, a.names, a.next)
    decreases stmts, 0
  {
    hide Extends;
    if stmts == [] {
      SameNamesExtend(names, c, c);
    } else {
      var a := LowerStmt(stmts[0], names, loop, c);
      var b := LowerBlock(stmts[1..], a.names, loop, a.next);
      LowerStmtExtends(stmts[0], names, loop, c);
      LowerBlockExtends(stmts[1..], a.names, loop, a.next);
      ExtendsChain(names, c, a.names, a.next, b.names, b.next);
    }
  }

  lemma BindExtends(names: Names, c: Counters, x: string, vn: nat, c': Counters)
    requires names != [] && Grows(c, c') && c.vars <= vn < c'.vars
    ensures Extends(names, c, Bind(names, x, vn), c')
  {
    if Below(names, c.vars) {
      BindNames(names, x, vn, c.vars);
    }
  }

  lemma {:induction false} LowerStmtExtends(s: Stmt, names: Names, loop: LoopId, c: Counters)
    ensures var a := LowerStmt(s, names, loop, c); Extends(names, c, a.names, a.next)
    decreases s, 1
  {
    hide Extends, LowerIf, LowerLoop, LowerRange;
    if names == [] {
      SameNamesExtend(names, c, c);
      return;
    }
    match s
    case Declaration(x, _) => BindExtends(names, c, x, c.vars, NewVar(c));
    case Declare(x, e) =>
      if Resolves(names, x) {
        var a := ToValue(e, names, c);
        ToValueGrows(e, names, c);
        BindExtends(names, c, x, a.next.vars, NewVar(a.next));
      } else {
        ToVarGrows(e, Bind(names, x, c.vars), c.vars, NewVar(c));
        BindExtends(names, c, x, c.vars, LowerDeclare(x, e, names, c).next);
      }
    case SetTo(_, e) => ToValueGrows(e, names, c); SameNamesExtend(names, c, ToValue(e, names, c).next);
    case PlusEqual(_, e) => ToValueGrows(e, names, c); SameNamesExtend(names, c, ToValue(e, names, c).next);
    case MinusEqual(_, e) => ToValueGrows(e, names, c); SameNamesExtend(names, c, ToValue(e, names, c).next);
    case Plain(e) => ToValueGrows(e, names, c); SameNamesExtend(names, c, ToValue(e, names, c).next);
        SameNamesExtend(names, c, c);
    case If(_, _) => LowerIfGrows(s, names, loop, c); SameNamesExtend(names, c, LowerIf(s, names, loop, c).next);
    case IfElse(_, _, _) => LowerIfGrows(s, names, loop, c); SameNamesExtend(names, c, LowerIf(s, names, loop, c).next);
    case Forever(_) => LowerLoopGrows(s, names, c); SameNamesExtend(names, c, LowerLoop(s, names, c).next);
    case While(_, _) => LowerLoopGrows(s, names, c); SameNamesExtend(names, c, LowerLoop(s, names, c).next);
    case ForRange(_, _, _, _) => LowerRangeGrows(s, names, c); SameNamesExtend(names, c, LowerRange(s, names, c).next);
    case Break => SameNamesExtend(names, c, c);
    case Continue => SameNamesExtend(names, c, c);
    case ReturnStmt(values) => ToValuesGrows(values, names, c);
        SameNamesExtend(names, c, ToValues(values, names, c).next);
  }

  lemma {:induction false} LowerThenGrows(s: Stmt, names: Names, loop: LoopId, c: Counters)
    requires s.If? || s.IfElse?
    ensures Grows(NewLabel(NewList(NewList(c))), LowerThen(s, names, loop, c).next)
    decreases s, 0, 0
  {
    var c1 := NewLabel(NewList(NewList(c)));
    var a := ToValue(s.cond, names + [map[]], c1);
    ToValueGrows(s.cond, names + [map[]], c1);
    LowerBlockExtends(s.thn, names + [map[]], loop, a.next);
  }

  lemma {:induction false} LowerIfGrows(s: Stmt, names: Names, loop: LoopId, c: Counters)
    requires s.If? || s.IfElse?
    ensures var a := LowerIf(s, names, loop, c); Grows(c, a.next) && a.names == names
    decreases s, 0, 1
  {
    LowerThenGrows(s, names, loop, c);
    if s.IfElse? {
      LowerBlockExtends(s.els, names + [map[]], loop, NewLabel(NewList(LowerThen(s, names, loop, c).next)));
    }
  }

  lemma {:induction false} LowerLoopGrows(s: Stmt, names: Names, c: Counters)
    requires s.Forever? || s.While?
    ensures var a := LowerLoop(s, names, c); Grows(c, a.next) && a.names == names
    decreases s, 0, 1
  {
    var inner := names + [map[]];
    var c1 := NewLabel(NewList(c));
    if s.While? {
      ToVarGrows(s.cond, inner, c1.vars, NewVar(c1));
    }
    var test := if s.While? then ToVar(s.cond, inner, c1.vars, NewVar(c1)) else Code([], c1);
    LowerBlockExtends(s.body, inner, Some(c.labels), test.next);
  }

  lemma {:induction false} LowerRangeGrows(s: Stmt, names: Names, c: Counters)
    requires s.ForRange?
    ensures var a := LowerRange(s, names, c); Grows(c, a.next) && a.names == names
    decreases s, 0, 1
  {
    var c0 := NewVar(NewLabel(NewList(c)));
    var hi := ToValue(s.to, names, c0);
    ToValueGrows(s.to, names, c0);
    var lo := ToVar(s.from, names, c.vars, hi.next);
    ToVarGrows(s.from, names, c.vars, hi.next);
    var c1 := NewVar(lo.next);
    LowerBlockExtends(s.body, names + [CounterNames(s.counter, c1.vars)], Some(c.labels),
                      if s.counter.Some? then NewVar(c1) else c1);
  }
}
