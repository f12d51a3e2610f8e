/** The code of an expression computes the expression: it leaves the value in a variable, makes the same calls in the
    same order, and changes no older variable but its destination. */
module ExprLowering {
  import opened Ir
  import opened Options
  import opened Language
  import opened Lowering

  /** Variables hold what the scopes say, wherever the scopes say anything. */
  ghost predicate Matches(env: Scopes<Value>, names: Names, store: Store) {
    && |env| == |names|
    && forall i :: 0 <= i < |env| ==>
         && env[i].Keys == names[i].Keys
         && forall x :: x in names[i] && env[i][x] != Undefined ==>
              names[i][x] in store && store[names[i][x]] == env[i][x]
  }

  ghost predicate Below(names: Names, n: nat) {
    forall i, x :: 0 <= i < |names| && x in names[i] ==> names[i][x] < n
  }

  /** No name with a known value stands for dest. */
  ghost predicate Free(dest: nat, env: Scopes<Value>, names: Names) {
    |env| == |names| &&
    forall i, x :: 0 <= i < |names| && x in names[i] && x in env[i] && names[i][x] == dest ==> env[i][x] == Undefined
  }

  /** The variables below n other than dest are as they were. */
  ghost predicate Spared(store: Store, store': Store, n: nat, dest: nat) {
    forall u: nat :: u < n && u != dest ==> (u in store <==> u in store') && (u in store ==> store'[u] == store[u])
  }

  lemma {:induction false} ResolveMatches(env: Scopes<Value>, names: Names, store: Store, x: string)
    requires Matches(env, names, store)
    ensures Resolves(env, x) <==> Resolves(names, x)
    ensures Resolves(env, x) && Resolve(env, x) != Undefined ==>
              Resolve(names, x) in store && store[Resolve(names, x)] == Resolve(env, x)
  {
    if env != [] && x !in env[|env| - 1] {
      ResolveMatches(env[..|env| - 1], names[..|names| - 1], store, x);
    }
  }

  lemma {:induction false} ResolveFinds<T>(names: Scopes<T>, x: string) returns (i: nat)
    requires Resolves(names, x)
    ensures i < |names| && x in names[i] && names[i][x] == Resolve(names, x)
    ensures forall k :: i < k < |names| ==> x !in names[k]
  {
    if x in names[|names| - 1] {
      i := |names| - 1;
    } else {
      i := ResolveFinds(names[..|names| - 1], x);
    }
  }

  lemma MatchesAfter(env: Scopes<Value>, names: Names, store: Store, store': Store, n: nat, dest: nat)
    requires Matches(env, names, store) && Below(names, n) && Free(dest, env, names)
    requires Spared(store, store', n, dest)
    ensures Matches(env, names, store')
  {
  }

  lemma StepAt(w: World, program: seq<Inst>, p: nat, i: Inst, store: Store, trace: seq<Event>)
    requires At(program, p, [i])
    ensures Steps(w, program, Running(p, store, trace), 1) == StepInst(w, program, Running(p, store, trace), i)
  {
    AtOne(program, p, i);
    var c := Running(p, store, trace);
    assert Steps(w, program, c, 1) == Steps(w, program, Step(w, program, c), 0);
  }

  /** From position p, after n steps, the program is at position q. */
  ghost predicate Goes(w: World, program: seq<Inst>, p: nat, store: Store, trace: seq<Event>, n: nat,
                       q: nat, store': Store, trace': seq<Event>)
  {
    Steps(w, program, Running(p, store, trace), n) == Running(q, store', trace')
  }

  lemma GoesOn(w: World, program: seq<Inst>, p: nat, s: Store, t: seq<Event>, n: nat, p': nat, s': Store,
               t': seq<Event>,
               n': nat, p'': nat, s'': Store, t'': seq<Event>)
    requires Goes(w, program, p, s, t, n, p', s', t') && Goes(w, program, p', s', t', n', p'', s'', t'')
    ensures Goes(w, program, p, s, t, n + n', p'', s'', t'')
  {
    StepsAdd(w, program, Running(p, s, t), n, n');
  }

  // ----- The counters only grow -----

  ghost predicate Grows(c: Counters, c': Counters) {
    c.vars <= c'.vars && c.labels <= c'.labels && c.lists <= c'.lists
  }

  lemma {:induction false} ToVarGrows(e: Expr, names: Names, dest: nat, c: Counters)
    ensures Grows(c, ToVar(e, names, dest, c).next)
    decreases e, 2
  {
    match e
    case Name(_) =>
    case Literal(_) =>
    case ProcCall(_, args) => ToValuesGrows(args, names, c);
    case LogicalNot(r) => ToValueGrows(r, names, c);
    case LogicalAnd(_, _) => ChainGrows(e, false, names, dest, ChainEnd(false, c.labels), NewLabel(c));
    case LogicalOr(_, _) => ChainGrows(e, true, names, dest, ChainEnd(true, c.labels), NewLabel(c));
    case Binary(_, l, r) =>
      ToVarGrows(l, names, c.vars, NewVar(c));
      ToValueGrows(r, names, ToVar(l, names, c.vars, NewVar(c)).next);
  }

  lemma {:induction false} ChainGrows(e: Expr, isOr: bool, names: Names, dest: nat, end: Label, c: Counters)
    ensures Grows(c, Chain(e, isOr, names, dest, end, c).next)
    decreases e, if IsChain(e, isOr) then 1 else 3
  {
    if !IsChain(e, isOr) {
      ToVarGrows(e, names, dest, c);
    } else {
      ChainGrows(e.left, isOr, names, dest, end, c);
      ToValueGrows(e.right, names, Chain(e.left, isOr, names, dest, end, c).next);
    }
  }

  lemma {:induction false} ToValueGrows(e: Expr, names: Names, c: Counters)
    ensures Grows(c, ToValue(e, names, c).next)
    decreases e, 4
  {
    if !e.Name? {
      ToVarGrows(e, names, c.vars, NewVar(c));
    }
  }

  lemma {:induction false} ToValuesGrows(es: seq<Expr>, names: Names, c: Counters)
    ensures Grows(c, ToValues(es, names, c).next)
    decreases es, 0
  {
    if es != [] {
      ToValueGrows(es[0], names, c);
      ToValuesGrows(es[1..], names, ToValue(es[0], names, c).next);
    }
  }

  // ----- Running the code of an expression -----

  /** The program has the code at p, its labels are unique, and the variables hold what the scopes say. */
  ghost predicate Ready(program: seq<Inst>, p: nat, code: seq<Inst>, env: Scopes<Value>, names: Names, store: Store,
                        n: nat)
  {
    UniqueLabels(program) && At(program, p, code) && Matches(env, names, store) && Below(names, n)
  }

  lemma {:induction false} ToVarRuns(w: World, program: seq<Inst>, p: nat, e: Expr, names: Names, dest: nat,
                                     c: Counters,
                                     env: Scopes<Value>, trace: seq<Event>, store: Store, r: Evaluated)
    returns (n: nat, store': Store)
    requires Ready(program, p, ToVar(e, names, dest, c).code, env, names, store, c.vars)
    requires dest < c.vars && Free(dest, env, names)
    requires Eval(w, e, env, trace) == Some(r)
    ensures Goes(w, program, p, store, trace, n, p + |ToVar(e, names, dest, c).code|, store', r.trace)
    ensures dest in store' && store'[dest] == r.value && Spared(store, store', c.vars, dest)
    decreases e, 2
  {
    hide Goes, Steps, At, UniqueLabels, Below;
    match e
    case Name(x) =>
      ResolveMatches(env, names, store, x);
      store' := store[dest := r.value];
      n := OneStep(w, program, p, Assign(dest, VarNamed(names, x)), store, trace, store', trace);
    case Literal(v) =>
      store' := store[dest := r.value];
      n := OneStep(w, program, p, AssignImm(dest, v), store, trace, store', trace);
    case ProcCall(callee, args) =>
      n, store' := CallRuns(w, program, p, e, names, dest, c, env, trace, store, r);
    case LogicalNot(right) =>
      n, store' := NotRuns(w, program, p, e, names, dest, c, env, trace, store, r);
    case LogicalAnd(_, _) =>
      n, store' := ChainThenEnd(w, program, p, e, false, names, dest, c, env, trace, store, r);
    case LogicalOr(_, _) =>
      n, store' := ChainThenEnd(w, program, p, e, true, names, dest, c, env, trace, store, r);
    case Binary(_, _, _) =>
      n, store' := BinaryRuns(w, program, p, e, names, dest, c, env, trace, store, r);
  }

  lemma OneStep(w: World, program: seq<Inst>, p: nat, i: Inst, store: Store, trace: seq<Event>, store': Store,
                trace': seq<Event>)
    returns (n: nat)
    requires At(program, p, [i])
    requires StepInst(w, program, Running(p, store, trace), i) == Running(p + 1, store', trace')
    ensures n == 1 && Goes(w, program, p, store, trace, n, p + 1, store', trace')
  {
    StepAt(w, program, p, i, store, trace);
    n := 1;
  }

  lemma {:induction false} CallRuns(w: World, program: seq<Inst>, p: nat, e: Expr, names: Names, dest: nat, c: Counters,
                                     env: Scopes<Value>, trace: seq<Event>, store: Store, r: Evaluated)
    returns (n: nat, store': Store)
    requires e.ProcCall?
    requires Ready(program, p, ToVar(e, names, dest, c).code, env, names, store, c.vars)
    requires dest < c.vars && Free(dest, env, names)
    requires Eval(w, e, env, trace) == Some(r)
    ensures Goes(w, program, p, store, trace, n, p + |ToVar(e, names, dest, c).code|, store', r.trace)
    ensures dest in store' && store'[dest] == r.value && Spared(store, store', c.vars, dest)
    decreases e, 1
  {
    hide Goes, Steps, At, UniqueLabels, Below, Matches, Free, Find;
    var a := ToValues(e.args, names, c);
    var call := Call(dest, e.callee, a.vns);
    AtParts(program, p, a.code, [call]);
    var all := EvalAll(w, e.args, env, trace).value;
    var n1, store1 := ToValuesRuns(w, program, p, e.args, names, c, env, trace, store, all);
    var q := p + |a.code|;
    store' := store1[dest := r.value];
    var n2 := OneStep(w, program, q, call, store1, all.trace, store', r.trace);
    GoesOn(w, program, p, store, trace, n1, q, store1, all.trace, n2, q + 1, store', r.trace);
    n := n1 + n2;
  }

  lemma {:induction false} NotRuns(w: World, program: seq<Inst>, p: nat, e: Expr, names: Names, dest: nat, c: Counters,
                                     env: Scopes<Value>, trace: seq<Event>, store: Store, r: Evaluated)
    returns (n: nat, store': Store)
    requires e.LogicalNot?
    requires Ready(program, p, ToVar(e, names, dest, c).code, env, names, store, c.vars)
    requires dest < c.vars && Free(dest, env, names)
    requires Eval(w, e, env, trace) == Some(r)
    ensures Goes(w, program, p, store, trace, n, p + |ToVar(e, names, dest, c).code|, store', r.trace)
    ensures dest in store' && store'[dest] == r.value && Spared(store, store', c.vars, dest)
    decreases e, 1
  {
    hide Goes, Steps, At, UniqueLabels, Below, Matches, Free, Find;
    var a := ToValue(e.right, names, c);
    AtParts(program, p, a.code, [Not(dest, a.vn)]);
    var v := Eval(w, e.right, env, trace).value;
    var n1, store1 := ToValueRuns(w, program, p, e.right, names, c, env, trace, store, v);
    var q := p + |a.code|;
    store' := store1[dest := r.value];
    var n2 := OneStep(w, program, q, Not(dest, a.vn), store1, v.trace, store', r.trace);
    GoesOn(w, program, p, store, trace, n1, q, store1, v.trace, n2, q + 1, store', r.trace);
    n := n1 + n2;
  }

  lemma FreshIsFree(env: Scopes<Value>, names: Names, store: Store, n: nat, dest: nat)
    requires Matches(env, names, store) && Below(names, n) && dest >= n
    ensures Free(dest, env, names) && Below(names, dest + 1)
  {
  }

  lemma BelowMore(names: Names, n: nat, m: nat)
    requires Below(names, n) && n <= m
    ensures Below(names, m)
  {
  }

  lemma {:induction false} BinaryRuns(w: World, program: seq<Inst>, p: nat, e: Expr, names: Names, dest: nat,
                                      c: Counters,
                                     env: Scopes<Value>, trace: seq<Event>, store: Store, r: Evaluated)
    returns (n: nat, store': Store)
    requires e.Binary?
    requires Ready(program, p, ToVar(e, names, dest, c).code, env, names, store, c.vars)
    requires dest < c.vars && Free(dest, env, names)
    requires Eval(w, e, env, trace) == Some(r)
    ensures Goes(w, program, p, store, trace, n, p + |ToVar(e, names, dest, c).code|, store', r.trace)
    ensures dest in store' && store'[dest] == r.value && Spared(store, store', c.vars, dest)
    decreases e, 1
  {
    hide Goes, Steps, At, UniqueLabels, Below, Matches, Free, Find, Spared, StepInst, Apply;
    var a := ToVar(e.left, names, c.vars, NewVar(c));
    var b := ToValue(e.right, names, a.next);
    var op := Operate(e.op, dest, c.vars, b.vn);
    ToVarGrows(e.left, names, c.vars, NewVar(c));
    AtParts(program, p, a.code + b.code, op);
    AtParts(program, p, a.code, b.code);
    FreshIsFree(env, names, store, c.vars, c.vars);
    var va := Eval(w, e.left, env, trace).value;
    var vb := Eval(w, e.right, env, va.trace).value;
    var n1, store1 := ToVarRuns(w, program, p, e.left, names, c.vars, NewVar(c), env, trace, store, va);
    MatchesAfter(env, names, store, store1, NewVar(c).vars, c.vars);
    BelowMore(names, c.vars, a.next.vars);
    var q := p + |a.code|;
    var n2, store2 := ToValueRuns(w, program, q, e.right, names, a.next, env, va.trace, store1, vb);
    GoesOn(w, program, p, store, trace, n1, q, store1, va.trace, n2, q + |b.code|, store2, vb.trace);
    SparedOne(store1, store2, a.next.vars, a.next.vars, c.vars);
    var n3;
    n3, store' := OperateRuns(w, program, q + |b.code|, e.op, dest, c.vars, b.vn, store2, vb.trace, va.value, vb.value,
        r.value);
    GoesOn(w, program, p, store, trace, n1 + n2, q + |b.code|, store2, vb.trace, n3, q + |b.code| + |op|, store',
        vb.trace);
    SparedChain(store, store1, store2, c.vars, NewVar(c).vars, c.vars, a.next.vars, a.next.vars, dest);
    SparedChain(store, store2, store', c.vars, c.vars, dest, c.vars, dest, dest);
    n := n1 + n2 + n3;
  }

  lemma SparedOne(s: Store, s': Store, n: nat, dest: nat, u: nat)
    requires Spared(s, s', n, dest) && u < n && u != dest
    ensures (u in s <==> u in s') && (u in s ==> s'[u] == s[u])
  {
  }

  /** Two stretches of code spare the variables below n, each for its own reason. */
  lemma SparedChain(s: Store, s': Store, s'': Store, n: nat, n1: nat, d1: nat, n2: nat, d2: nat, dest: nat)
    requires n <= n1 && n <= n2 && (d1 == dest || d1 >= n) && (d2 == dest || d2 >= n)
    requires Spared(s, s', n1, d1) && Spared(s', s'', n2, d2)
    ensures Spared(s, s'', n, dest)
  {
  }

  lemma OperateRuns(w: World, program: seq<Inst>, p: nat, op: BinaryOp, dest: nat, left: nat, right: nat, store: Store,
                    trace: seq<Event>, a: Value, b: Value, v: Value)
    returns (n: nat, store': Store)
    requires At(program, p, Operate(op, dest, left, right))
    requires left in store && store[left] == a && right in store && store[right] == b
    requires dest < left
    requires Apply(w, op, a, b) == Some(v)
    ensures Goes(w, program, p, store, trace, n, p + |Operate(op, dest, left, right)|, store', trace)
    ensures dest in store' && store'[dest] == v && Spared(store, store', left, dest)
  {
    match op
    case Arithmetic(arith) =>
      AtParts(program, p, [Arith(arith, left, right)], [Assign(dest, left)]);
      StepAt(w, program, p, Arith(arith, left, right), store, trace);
      var store1 := store[left := v];
      StepAt(w, program, p + 1, Assign(dest, left), store1, trace);
      store' := store1[dest := v];
      GoesOn(w, program, p, store, trace, 1, p + 1, store1, trace, 1, p + 2, store', trace);
      n := 2;
    case Comparison(how) =>
      StepAt(w, program, p, Compare(how, left, right, dest), store, trace);
      n, store' := 1, store[dest := v];
  }

  lemma ChainThenEnd(w: World, program: seq<Inst>, p: nat, e: Expr, isOr: bool, names: Names, dest: nat, c: Counters,
                     env: Scopes<Value>, trace: seq<Event>, store: Store, r: Evaluated)
    returns (n: nat, store': Store)
    requires IsChain(e, isOr)
    requires Ready(program, p, ToVar(e, names, dest, c).code, env, names, store, c.vars)
    requires dest < c.vars && Free(dest, env, names)
    requires Eval(w, e, env, trace) == Some(r)
    ensures Goes(w, program, p, store, trace, n, p + |ToVar(e, names, dest, c).code|, store', r.trace)
    ensures dest in store' && store'[dest] == r.value && Spared(store, store', c.vars, dest)
    decreases e, 1, 1
  {
    var end := ChainEnd(isOr, c.labels);
    var a := Chain(e, isOr, names, dest, end, NewLabel(c));
    AtParts(program, p, a.code, [LabelAt(end)]);
    var q := p + |a.code|;
    FindsIt(program, q, end);
    var n1, store1, at := ChainRuns(w, program, p, e, isOr, names, dest, end, NewLabel(c), env, trace, store, r, q);
    StepAt(w, program, q, LabelAt(end), store1, r.trace);
    GoesOn(w, program, p, store, trace, n1, q, store1, r.trace, 1, q + 1, store1, r.trace);
    n, store' := n1 + 1, store1;
  }

  /** A chain ends at its own end, or at the shared end label once its value is decided. */
  lemma {:induction false} ChainRuns(w: World, program: seq<Inst>, p: nat, e: Expr, isOr: bool, names: Names, dest: nat,
                                     end: Label, c: Counters, env: Scopes<Value>, trace: seq<Event>, store: Store,
                                     r: Evaluated, q: nat)
    returns (n: nat, store': Store, at: nat)
    requires Ready(program, p, Chain(e, isOr, names, dest, end, c).code, env, names, store, c.vars)
    requires Find(program, end) == Some(q)
    requires dest < c.vars && Free(dest, env, names)
    requires Eval(w, e, env, trace) == Some(r)
    ensures Goes(w, program, p, store, trace, n, at, store', r.trace)
    ensures at == p + |Chain(e, isOr, names, dest, end, c).code| || (at == q && r.value == Bool(isOr))
    ensures dest in store' && store'[dest] == r.value && Spared(store, store', c.vars, dest)
    decreases e, (if IsChain(e, isOr) then 1 else 3), 0
  {
    hide Goes, Steps, At, UniqueLabels, Below, Matches, Free, Spared, Find, StepInst;
    if !IsChain(e, isOr) {
      n, store' := ToVarRuns(w, program, p, e, names, dest, c, env, trace, store, r);
      at := p + |ToVar(e, names, dest, c).code|;
    } else {
      var a := Chain(e.left, isOr, names, dest, end, c);
      var b := ToValue(e.right, names, a.next);
      var jump := JumpIf(isOr, true, dest, end);
      ChainParts(program, p, a.code, jump, b.code, Combine(isOr, dest, b.vn));
      var va := Eval(w, e.left, env, trace).value;
      var n1, store1, at1 := ChainRuns(w, program, p, e.left, isOr, names, dest, end, c, env, trace, store, va, q);
      if at1 != p + |a.code| {
        n, store', at := n1, store1, at1;
      } else if va.value.b == isOr {
        JumpTaken(w, program, at1, jump, q, store1, va.trace);
        GoesOn(w, program, p, store, trace, n1, at1, store1, va.trace, 1, q, store1, va.trace);
        n, store', at := n1 + 1, store1, q;
      } else {
        var n2 := JumpNotTaken(w, program, at1, jump, store1, va.trace);
        GoesOn(w, program, p, store, trace, n1, at1, store1, va.trace, n2, at1 + 1, store1, va.trace);
        var n3;
        MatchesAfter(env, names, store, store1, c.vars, dest);
        n3, store' := ChainRightRuns(w, program, at1 + 1, e, isOr, names, dest, end, c, env, va.trace, store1, r);
        at := at1 + 1 + |b.code| + 1;
        GoesOn(w, program, p, store, trace, n1 + n2, at1 + 1, store1, va.trace, n3, at, store', r.trace);
        SparedChain(store, store1, store', c.vars, c.vars, dest, c.vars, dest, dest);
        n := n1 + n2 + n3;
      }
    }
  }

  lemma JumpTaken(w: World, program: seq<Inst>, p: nat, jump: Inst, q: nat, store: Store, trace: seq<Event>)
    requires At(program, p, [jump]) && jump.JumpIf? && Find(program, jump.target) == Some(q)
    requires jump.read in store && store[jump.read] == Bool(jump.expected)
    ensures Goes(w, program, p, store, trace, 1, q, store, trace)
  {
    StepAt(w, program, p, jump, store, trace);
  }

  lemma JumpNotTaken(w: World, program: seq<Inst>, p: nat, jump: Inst, store: Store, trace: seq<Event>) returns (n: nat)
    requires At(program, p, [jump]) && jump.JumpIf?
    requires jump.read in store && store[jump.read] == Bool(!jump.expected)
    ensures n == 1 && Goes(w, program, p, store, trace, n, p + 1, store, trace)
  {
    n := OneStep(w, program, p, jump, store, trace, store, trace);
  }

  lemma ChainParts(program: seq<Inst>, p: nat, a: seq<Inst>, jump: Inst, b: seq<Inst>, combine: Inst)
    requires At(program, p, a + [jump] + b + [combine])
    ensures At(program, p, a) && At(program, p + |a|, [jump])
    ensures At(program, p + |a| + 1, b) && At(program, p + |a| + 1 + |b|, [combine])
  {
    hide At;
    AtParts(program, p, a + [jump] + b, [combine]);
    AtParts(program, p, a + [jump], b);
    AtParts(program, p, a, [jump]);
  }

  /** The part of a chain after an undecided jump. */
  lemma {:induction false} ChainRightRuns(w: World, program: seq<Inst>, p: nat, e: Expr, isOr: bool, names: Names,
                                          dest: nat,
                                          end: Label, c: Counters, env: Scopes<Value>, trace: seq<Event>, store: Store,
                                          r: Evaluated)
    returns (n: nat, store': Store)
    requires IsChain(e, isOr)
    requires var a := Chain(e.left, isOr, names, dest, end, c);
             var b := ToValue(e.right, names, a.next);
             At(program, p, b.code) && At(program, p + |b.code|, [Combine(isOr, dest, b.vn)])
    requires UniqueLabels(program) && Matches(env, names, store) && Below(names, c.vars)
    requires dest < c.vars && dest in store && store[dest] == Bool(!isOr)
    requires Eval(w, e.right, env, trace) == Some(r) && r.value.Bool?
    ensures var b := ToValue(e.right, names, Chain(e.left, isOr, names, dest, end, c).next);
            Goes(w, program, p, store, trace, n, p + |b.code| + 1, store', r.trace)
    ensures dest in store' && store'[dest] == r.value && Spared(store, store', c.vars, dest)
    decreases e, 0, 0
  {
    hide Goes, Steps, At, UniqueLabels, Below, Matches, Free, Spared, Find;
    var a := Chain(e.left, isOr, names, dest, end, c);
    var b := ToValue(e.right, names, a.next);
    var combine := Combine(isOr, dest, b.vn);
    ChainGrows(e.left, isOr, names, dest, end, c);
    BelowMore(names, c.vars, a.next.vars);
    var n1, store1 := ToValueRuns(w, program, p, e.right, names, a.next, env, trace, store, r);
    SparedOne(store, store1, a.next.vars, a.next.vars, dest);
    var q := p + |b.code|;
    store' := store1[dest := r.value];
    var n2 := OneStep(w, program, q, combine, store1, r.trace, store', r.trace);
    GoesOn(w, program, p, store, trace, n1, q, store1, r.trace, n2, q + 1, store', r.trace);
    SparedBut(store1, dest, r.value, c.vars);
    SparedChain(store, store1, store', c.vars, a.next.vars, a.next.vars, c.vars, dest, dest);
    n := n1 + n2;
  }

  lemma SparedBut(s: Store, dest: nat, v: Value, n: nat)
    ensures Spared(s, s[dest := v], n, dest)
  {
  }

  /** The result variable is a fresh one or, for a bare name, the name's own. */
  lemma {:induction false} ToValueRuns(w: World, program: seq<Inst>, p: nat, e: Expr, names: Names, c: Counters,
                                       env: Scopes<Value>, trace: seq<Event>, store: Store, r: Evaluated)
    returns (n: nat, store': Store)
    requires Ready(program, p, ToValue(e, names, c).code, env, names, store, c.vars)
    requires Eval(w, e, env, trace) == Some(r)
    ensures var a := ToValue(e, names, c);
            && Goes(w, program, p, store, trace, n, p + |a.code|, store', r.trace)
            && a.vn in store' && store'[a.vn] == r.value && a.vn < a.next.vars
            && Spared(store, store', c.vars, c.vars)
    decreases e, 4
  {
    hide At, UniqueLabels, Matches;
    if e.Name? {
      ResolveMatches(env, names, store, e.name);
      var i := ResolveFinds(names, e.name);
      n, store' := 0, store;
    } else {
      FreshIsFree(env, names, store, c.vars, c.vars);
      ToVarGrows(e, names, c.vars, NewVar(c));
      n, store' := ToVarRuns(w, program, p, e, names, c.vars, NewVar(c), env, trace, store, r);
    }
  }

  lemma {:induction false} ToValuesRuns(w: World, program: seq<Inst>, p: nat, es: seq<Expr>, names: Names, c: Counters,
                                        env: Scopes<Value>, trace: seq<Event>, store: Store, r: EvaluatedAll)
    returns (n: nat, store': Store)
    requires Ready(program, p, ToValues(es, names, c).code, env, names, store, c.vars)
    requires EvalAll(w, es, env, trace) == Some(r)
    ensures var a := ToValues(es, names, c);
            && Goes(w, program, p, store, trace, n, p + |a.code|, store', r.trace)
            && ReadAll(store', a.vns) == Some(r.values)
            && Spared(store, store', c.vars, c.vars)
    decreases es, 0
  {
    hide At, UniqueLabels, Below, Matches, Free, Goes, Eval, ToValue, Spared;
    if es == [] {
      n, store' := 0, store;
      GoesNowhere(w, program, p, store, trace, c.vars);
    } else {
      var a := ToValue(es[0], names, c);
      var rest := ToValues(es[1..], names, a.next);
      ToValueGrows(es[0], names, c);
      AtParts(program, p, a.code, rest.code);
      var va := Eval(w, es[0], env, trace).value;
      var vrest := EvalAll(w, es[1..], env, va.trace).value;
      var n1, store1 := ToValueRuns(w, program, p, es[0], names, c, env, trace, store, va);
      FreshIsFree(env, names, store, c.vars, c.vars);
      MatchesAfter(env, names, store, store1, c.vars, c.vars);
      BelowMore(names, c.vars, a.next.vars);
      var q := p + |a.code|;
      var n2, store2 := ToValuesRuns(w, program, q, es[1..], names, a.next, env, va.trace, store1, vrest);
      GoesOn(w, program, p, store, trace, n1, q, store1, va.trace, n2, q + |rest.code|, store2, vrest.trace);
      ReadOneMore(store, store1, store2, a.vn, va.value, rest.vns, vrest.values, c.vars, a.next.vars);
      n, store' := n1 + n2, store2;
    }
  }

  lemma GoesNowhere(w: World, program: seq<Inst>, p: nat, store: Store, trace: seq<Event>, n: nat)
    ensures Goes(w, program, p, store, trace, 0, p, store, trace) && Spared(store, store, n, n)
  {
  }

  lemma ReadOneMore(store: Store, store1: Store, store2: Store, vn: nat, v: Value, vns: seq<nat>, vs: seq<Value>,
                    n: nat, m: nat)
    requires Spared(store, store1, n, n) && Spared(store1, store2, m, m) && n <= m && vn < m
    requires vn in store1 && store1[vn] == v && ReadAll(store2, vns) == Some(vs)
    ensures ReadAll(store2, [vn] + vns) == Some([v] + vs) && Spared(store, store2, n, n)
  {
    assert ([vn] + vns)[1..] == vns;
  }
}
