/** Running the code of statements, against the meaning of the statements. For every kind of statement there are
    lemmas on where the pieces of its code stand, on how each piece runs, and on how the runs of the pieces join;
    StmtRuns and BlockRuns put them together, by induction on statements and on the turns of loops. */
module Simulation {
  import opened Ir
  import opened Options
  import opened Language
  import opened Lowering
  import opened ExprLowering
  import opened StmtLowering

  /** A statement that ends normally: the code ends at q, with the variables as the scopes say. */
  ghost predicate Ends(o: Outcome, q: nat, names': Names, vars': nat, names: Names, store: Store, vars: nat, k: Config)
  {
    o.Normal? ==>
      && k.Running? && k.pc == q && k.trace == o.trace
      && Good(o.env, names', k.store, vars') && Kept(store, k.store, names, vars)
  }

  /** break and continue reach the labels of the innermost loop; only the scopes outside the current one still
      matter. */
  ghost predicate Jumps(program: seq<Inst>, kind: LabelKind, loop: LoopId, env': Scopes<Value>, trace': seq<Event>,
                        names: Names, store: Store, vars: nat, k: Config)
  {
    && loop.Some? && k.Running? && Find(program, Label(kind, loop.value)) == Some(k.pc) && k.trace == trace'
    && |env'| == |names| > 0
    && Matches(env'[..|names| - 1], names[..|names| - 1], k.store)
    && Kept(store, k.store, names, vars)
  }

  /** Every other way a statement can go: break, continue, return, or still running when the fuel is used up. */
  ghost predicate Escapes(program: seq<Inst>, o: Outcome, loop: LoopId, names: Names, store: Store, vars: nat,
                          fuel: nat, n: nat, k: Config)
  {
    match o
    case Normal(_, _) => true
    case Broke(env', trace') => Jumps(program, LoopExit, loop, env', trace', names, store, vars, k)
    case Continued(env', trace') => Jumps(program, LoopContinue, loop, env', trace', names, store, vars, k)
    case Returned(values, trace') => k == Halted(values, trace')
    case OutOfFuel(trace) => k.Running? && n >= fuel && k.trace == trace
    case Meaningless => true
  }

  ghost predicate LoopLabels(program: seq<Inst>, loop: LoopId) {
    loop.Some? ==>
        Find(program, Label(LoopExit, loop.value)).Some? && Find(program, Label(LoopContinue, loop.value)).Some?
  }

  ghost predicate Reaches(w: World, program: seq<Inst>, p: nat, store: Store, trace: seq<Event>, n: nat, k: Config) {
    Steps(w, program, Running(p, store, trace), n) == k
  }

  lemma ReachesOn(w: World, program: seq<Inst>, p: nat, s: Store, t: seq<Event>, n: nat, p': nat, s': Store,
                  t': seq<Event>,
                  n': nat, k: Config)
    requires Goes(w, program, p, s, t, n, p', s', t') && Reaches(w, program, p', s', t', n', k)
    ensures Reaches(w, program, p, s, t, n + n', k)
  {
    StepsAdd(w, program, Running(p, s, t), n, n');
  }

  lemma GoesReaches(w: World, program: seq<Inst>, p: nat, s: Store, t: seq<Event>, n: nat, p': nat, s': Store,
                    t': seq<Event>)
    requires Goes(w, program, p, s, t, n, p', s', t')
    ensures Reaches(w, program, p, s, t, n, Running(p', s', t'))
  {
  }

  lemma ReachesGoes(w: World, program: seq<Inst>, p: nat, s: Store, t: seq<Event>, n: nat, k: Config)
    requires Reaches(w, program, p, s, t, n, k) && k.Running?
    ensures Goes(w, program, p, s, t, n, k.pc, k.store, k.trace)
  {
  }

  /** What escapes from the second of two stretches of code escapes from the whole. */
  lemma EscapesLater(program: seq<Inst>, o: Outcome, loop: LoopId, names: Names, store: Store, vars: nat, fuel: nat,
                     n: nat,
                     names': Names, store': Store, vars': nat, n': nat, k: Config)
    requires Escapes(program, o, loop, names', store', vars', fuel, n', k)
    requires |names'| == |names| > 0 && names'[..|names| - 1] == names[..|names| - 1]
    requires Kept(store, store', names, vars) && vars <= vars'
    requires forall u: nat :: u < vars && IsNamed(names', u) ==> IsNamed(names, u)
    ensures Escapes(program, o, loop, names, store, vars, fuel, n + n', k)
  {
    if o.Broke? || o.Continued? {
      KeptChain(store, store', k.store, names, vars, names', vars');
    }
  }

  /** Two stretches of code one after the other, of which the second ends as the outcome says: so does the whole. */
  lemma RunsJoin(w: World, program: seq<Inst>, p: nat, store: Store, trace: seq<Event>, n: nat, at: nat, store1: Store,
                 trace1: seq<Event>, n': nat, k: Config, o: Outcome, q: nat, names: Names, vars': nat, loop: LoopId,
                 vars: nat, fuel: nat)
    requires Goes(w, program, p, store, trace, n, at, store1, trace1) && Reaches(w, program, at, store1, trace1, n', k)
    requires names != [] && Kept(store, store1, names, vars)
    requires Ends(o, q, names, vars', names, store1, vars, k)
        && Escapes(program, o, loop, names, store1, vars, fuel, n', k)
    ensures Reaches(w, program, p, store, trace, n + n', k)
    ensures Ends(o, q, names, vars', names, store, vars, k)
        && Escapes(program, o, loop, names, store, vars, fuel, n + n', k)
  {
    hide Goes, Reaches, Escapes, Kept, Good, IsNamed;
    ReachesOn(w, program, p, store, trace, n, at, store1, trace1, n', k);
    EscapesLater(program, o, loop, names, store, vars, fuel, n, names, store1, vars, n', k);
    if o.Normal? {
      KeptChain(store, store1, k.store, names, vars, names, vars);
    }
  }

  // ----- Statements without structure -----

  predicate IsSimple(s: Stmt) {
    s.Declaration? || s.Declare? || s.SetTo? || s.PlusEqual? || s.MinusEqual? || s.Plain?
  }

  lemma SimpleRuns(w: World, program: seq<Inst>, p: nat, s: Stmt, names: Names, loop: LoopId, c: Counters,
                   env: Scopes<Value>, trace: seq<Event>, store: Store, fuel: nat)
    returns (n: nat, k: Config)
    requires IsSimple(s)
    requires UniqueLabels(program) && At(program, p, LowerStmt(s, names, loop, c).code)
    requires Accepted(s, names, loop, c) && Good(env, names, store, c.vars)
    ensures var a := LowerStmt(s, names, loop, c);
            var o := ExecStmt(w, s, env, trace, fuel);
            && Reaches(w, program, p, store, trace, n, k)
            && Ends(o, p + |a.code|, a.names, a.next.vars, names, store, c.vars, k)
            && (o.Normal? || o.Meaningless?)
  {
    hide At, UniqueLabels, Goes, Reaches, Find, Good, Kept;
    var o := ExecStmt(w, s, env, trace, fuel);
    n, k := 0, Running(p, store, trace);
    StartsHere(w, program, p, store, trace);
    if o.Meaningless? {
      return;
    }
    match s
    case Declaration(x, zero) =>
      var store' := store[c.vars := zero];
      n := OneStep(w, program, p, AssignImm(c.vars, zero), store, trace, store', trace);
      k := Running(p + 1, store', trace);
      GoesReaches(w, program, p, store, trace, n, p + 1, store', trace);
      DeclaredEnds(env, names, store, c.vars, x, c.vars, zero, store', c.vars + 1);
    case Declare(x, e) =>
      n, k := DeclareRuns(w, program, p, x, e, names, c, env, trace, store);
    case SetTo(x, e) =>
      var r := Eval(w, e, env, trace).value;
      n, k := UpdateRuns(w, program, p, Assign(VarNamed(names, x), ToValue(e, names, c).vn), x, e, names, c, env,
          trace, store, r,
                         r.value);
    case PlusEqual(x, e) =>
      var r := Eval(w, e, env, trace).value;
      n, k := UpdateRuns(w, program, p, Arith(Add, VarNamed(names, x), ToValue(e, names, c).vn), x, e, names, c, env,
          trace, store, r,
                         w.arith(Add, Resolve(env, x), r.value).value);
    case MinusEqual(x, e) =>
      var r := Eval(w, e, env, trace).value;
      n, k := UpdateRuns(w, program, p, Arith(Sub, VarNamed(names, x), ToValue(e, names, c).vn), x, e, names, c, env,
          trace, store, r,
                         w.arith(Sub, Resolve(env, x), r.value).value);
    case Plain(e) =>
      if e.Literal? || e.ProcCall? {
        n, k := PlainRuns(w, program, p, e, names, c, env, trace, store);
      } else {
        KeptNothing(store, names, c.vars);
      }
  }

  lemma StartsHere(w: World, program: seq<Inst>, p: nat, store: Store, trace: seq<Event>)
    ensures Reaches(w, program, p, store, trace, 0, Running(p, store, trace))
    ensures Goes(w, program, p, store, trace, 0, p, store, trace)
  {
  }

  lemma KeptNothing(store: Store, names: Names, n: nat)
    ensures Kept(store, store, names, n)
  {
  }

  lemma DeclaredEnds(env: Scopes<Value>, names: Names, store: Store, n: nat, x: string, vn: nat, v: Value,
                     store': Store, n': nat)
    requires Good(env, names, store, n)
    requires n <= vn < n' && vn in store' && store'[vn] == v
    requires Spared(store, store', n, vn)
    ensures Good(Bind(env, x, v), Bind(names, x, vn), store', n') && Kept(store, store', names, n)
  {
    BindMatches(env, names, store, n, x, vn, v, store', n');
    SparedIsKept(store, store', names, n, n, vn);
  }

  lemma DeclareRuns(w: World, program: seq<Inst>, p: nat, x: string, e: Expr, names: Names, c: Counters,
                    env: Scopes<Value>, trace: seq<Event>, store: Store)
    returns (n: nat, k: Config)
    requires names != [] && UniqueLabels(program) && At(program, p, LowerDeclare(x, e, names, c).code)
    requires Good(env, names, store, c.vars)
    requires var during := if Resolves(env, x) then env else Bind(env, x, Undefined);
             Eval(w, e, during, trace).Some?
    ensures var a := LowerDeclare(x, e, names, c);
            var r := Eval(w, e, if Resolves(env, x) then env else Bind(env, x, Undefined), trace).value;
            && Reaches(w, program, p, store, trace, n, k)
            && k.Running? && k.pc == p + |a.code| && k.trace == r.trace
            && Good(Bind(env, x, r.value), a.names, k.store, a.next.vars) && Kept(store, k.store, names, c.vars)
  {
    hide At, UniqueLabels, Goes, Reaches, Find, Kept, Distinct, Below;
    ResolveMatches(env, names, store, x);
    if Resolves(names, x) {
      n, k := ShadowRuns(w, program, p, x, e, names, c, env, trace, store, Eval(w, e, env, trace).value);
    } else {
      n, k := FreshRuns(w, program, p, x, e, names, c, env, trace, store,
          Eval(w, e, Bind(env, x, Undefined), trace).value);
    }
  }

  lemma ShadowRuns(w: World, program: seq<Inst>, p: nat, x: string, e: Expr, names: Names, c: Counters,
                   env: Scopes<Value>, trace: seq<Event>, store: Store, r: Evaluated)
    returns (n: nat, k: Config)
    requires names != [] && UniqueLabels(program) && At(program, p, LowerDeclare(x, e, names, c).code)
    requires Resolves(names, x) && Good(env, names, store, c.vars)
    requires Eval(w, e, env, trace) == Some(r)
    ensures var a := LowerDeclare(x, e, names, c);
            && Reaches(w, program, p, store, trace, n, k)
            && k.Running? && k.pc == p + |a.code| && k.trace == r.trace
            && Good(Bind(env, x, r.value), a.names, k.store, a.next.vars) && Kept(store, k.store, names, c.vars)
  {
    hide At, UniqueLabels, Goes, Reaches, Find, Good, Kept, Matches, Below, Distinct, Spared, ToValue, Eval;
    GoodParts(env, names, store, c.vars);
    var a := ToValue(e, names, c);
    var vn := a.next.vars;
    ToValueGrows(e, names, c);
    AtParts(program, p, a.code, [Assign(vn, a.vn)]);
    var n1, store1 := ToValueRuns(w, program, p, e, names, c, env, trace, store, r);
    var q := p + |a.code|;
    var store' := store1[vn := r.value];
    var n2 := OneStep(w, program, q, Assign(vn, a.vn), store1, r.trace, store', r.trace);
    GoesOn(w, program, p, store, trace, n1, q, store1, r.trace, n2, q + 1, store', r.trace);
    n, k := n1 + n2, Running(q + 1, store', r.trace);
    GoesReaches(w, program, p, store, trace, n, q + 1, store', r.trace);
    SparedBut(store1, vn, r.value, c.vars);
    SparedChain(store, store1, store', c.vars, c.vars, c.vars, c.vars, vn, vn);
    DeclaredEnds(env, names, store, c.vars, x, vn, r.value, store', vn + 1);
  }

  lemma FreshRuns(w: World, program: seq<Inst>, p: nat, x: string, e: Expr, names: Names, c: Counters,
                  env: Scopes<Value>, trace: seq<Event>, store: Store, r: Evaluated)
    returns (n: nat, k: Config)
    requires names != [] && UniqueLabels(program) && At(program, p, LowerDeclare(x, e, names, c).code)
    requires !Resolves(names, x) && Good(env, names, store, c.vars)
    requires Eval(w, e, Bind(env, x, Undefined), trace) == Some(r)
    ensures var a := LowerDeclare(x, e, names, c);
            && Reaches(w, program, p, store, trace, n, k)
            && k.Running? && k.pc == p + |a.code| && k.trace == r.trace
            && Good(Bind(env, x, r.value), a.names, k.store, a.next.vars) && Kept(store, k.store, names, c.vars)
  {
    hide At, UniqueLabels, Goes, Reaches, Find, Good, Kept, Matches, Below, Distinct, Spared, Free, ToVar, Eval, Bind;
    GoodParts(env, names, store, c.vars);
    var during, names' := Bind(env, x, Undefined), Bind(names, x, c.vars);
    var a := ToVar(e, names', c.vars, NewVar(c));
    ToVarGrows(e, names', c.vars, NewVar(c));
    SparedNothing(store, c.vars, c.vars);
    BindMatches(env, names, store, c.vars, x, c.vars, Undefined, store, c.vars + 1);
    GoodParts(during, names', store, c.vars + 1);
    UndefinedIsFree(env, names, store, c.vars, x);
    var store';
    n, store' := ToVarRuns(w, program, p, e, names', c.vars, NewVar(c), during, trace, store, r);
    k := Running(p + |a.code|, store', r.trace);
    GoesReaches(w, program, p, store, trace, n, k.pc, store', r.trace);
    SparedLess(store, store', c.vars + 1, c.vars, c.vars);
    DeclaredEnds(env, names, store, c.vars, x, c.vars, r.value, store', a.next.vars);
  }

  lemma SparedNothing(store: Store, n: nat, dest: nat)
    ensures Spared(store, store, n, dest)
  {
  }

  lemma SparedLess(store: Store, store': Store, n: nat, dest: nat, m: nat)
    requires Spared(store, store', n, dest) && m <= n
    ensures Spared(store, store', m, dest)
  {
  }

  lemma UndefinedIsFree(env: Scopes<Value>, names: Names, store: Store, n: nat, x: string)
    requires Good(env, names, store, n)
    ensures Free(n, Bind(env, x, Undefined), Bind(names, x, n))
  {
  }

  /** Assignment and its += and -= forms: `update` overwrites the variable of x with v. */
  lemma UpdateRuns(w: World, program: seq<Inst>, p: nat, update: Inst, x: string, e: Expr, names: Names, c: Counters,
                   env: Scopes<Value>, trace: seq<Event>, store: Store, r: Evaluated, v: Value)
    returns (n: nat, k: Config)
    requires var a := ToValue(e, names, c);
             && UniqueLabels(program) && At(program, p, a.code + [update])
             && (update == Assign(VarNamed(names, x), a.vn) || (update.Arith?
                 && update == Arith(update.arith, VarNamed(names, x), a.vn)))
    requires Good(env, names, store, c.vars) && Resolves(names, x) && Resolves(env, x)
    requires Eval(w, e, env, trace) == Some(r)
    requires update.Assign? ==> v == r.value
    requires update.Arith? ==>
        Resolve(env, x) != Undefined && w.arith(update.arith, Resolve(env, x), r.value) == Some(v)
    ensures var a := ToValue(e, names, c);
            && Reaches(w, program, p, store, trace, n, k)
            && k.Running? && k.pc == p + |a.code| + 1 && k.trace == r.trace
            && Good(Set(env, x, v), names, k.store, a.next.vars) && Kept(store, k.store, names, c.vars)
  {
    hide At, UniqueLabels, Goes, Reaches, Find, Kept, Good, Matches, Below, Free, Spared, Distinct, StepInst, ToVar;
    var vn := VarNamed(names, x);
    var a := ToValue(e, names, c);
    ToValueGrows(e, names, c);
    AtParts(program, p, a.code, [update]);
    GoodParts(env, names, store, c.vars);
    var n1, store1 := ToValueRuns(w, program, p, e, names, c, env, trace, store, r);
    UpdatedGood(env, names, store, c.vars, store1, a.next.vars, x, v);
    var q := p + |a.code|;
    var store' := store1[vn := v];
    var n2 := UpdateStep(w, program, q, update, vn, a.vn, store1, r.trace, v);
    GoesOn(w, program, p, store, trace, n1, q, store1, r.trace, n2, q + 1, store', r.trace);
    n, k := n1 + n2, Running(q + 1, store', r.trace);
    GoesReaches(w, program, p, store, trace, n, q + 1, store', r.trace);
  }

  lemma GoodParts(env: Scopes<Value>, names: Names, store: Store, n: nat)
    requires Good(env, names, store, n)
    ensures names != [] && |env| == |names| && Matches(env, names, store) && Below(names, n) && Distinct(names)
  {
  }

  lemma UpdatedGood(env: Scopes<Value>, names: Names, store: Store, n: nat, store1: Store, n': nat, x: string, v: Value)
    requires Good(env, names, store, n) && Resolves(names, x) && n <= n'
    requires Spared(store, store1, n, n)
    ensures Resolves(env, x)
    ensures Good(Set(env, x, v), names, store1[VarNamed(names, x) := v], n')
    ensures Kept(store, store1[VarNamed(names, x) := v], names, n)
    ensures Resolve(env, x) != Undefined ==>
              VarNamed(names, x) in store1 && store1[VarNamed(names, x)] == Resolve(env, x)
  {
    hide Matches, Below, Free, Spared, Distinct, Kept, IsNamed;
    FreshIsFree(env, names, store, n, n);
    MatchesAfter(env, names, store, store1, n, n);
    ResolveMatches(env, names, store1, x);
    BelowMore(names, n, n');
    SetMatches(env, names, store1, n', x, v);
    SparedIsKept(store, store1, names, n, n, n);
    NamedChanges(store1, names, n, VarNamed(names, x), v);
    KeptChain(store, store1, store1[VarNamed(names, x) := v], names, n, names, n);
  }

  lemma NamedChanges(store: Store, names: Names, n: nat, vn: nat, v: Value)
    requires IsNamed(names, vn)
    ensures Kept(store, store[vn := v], names, n)
  {
  }

  lemma UpdateStep(w: World, program: seq<Inst>, p: nat, update: Inst, vn: nat, right: nat, store: Store,
                   trace: seq<Event>, v: Value)
    returns (n: nat)
    requires At(program, p, [update])
    requires right in store
    requires (update == Assign(vn, right) && v == store[right]) ||
             (update.Arith? && update == Arith(update.arith, vn, right) && vn in store
               && w.arith(update.arith, store[vn], store[right]) == Some(v))
    ensures n == 1 && Goes(w, program, p, store, trace, n, p + 1, store[vn := v], trace)
  {
    n := OneStep(w, program, p, update, store, trace, store[vn := v], trace);
  }

  lemma PlainRuns(w: World, program: seq<Inst>, p: nat, e: Expr, names: Names, c: Counters,
                  env: Scopes<Value>, trace: seq<Event>, store: Store)
    returns (n: nat, k: Config)
    requires e.Literal? || e.ProcCall?
    requires UniqueLabels(program) && At(program, p, ToValue(e, names, c).code)
    requires Good(env, names, store, c.vars) && Eval(w, e, env, trace).Some?
    ensures var a := ToValue(e, names, c);
            && Reaches(w, program, p, store, trace, n, k)
            && k.Running? && k.pc == p + |a.code| && k.trace == Eval(w, e, env, trace).value.trace
            && Good(env, names, k.store, a.next.vars) && Kept(store, k.store, names, c.vars)
  {
    hide At, UniqueLabels, Goes, Reaches, Find;
    var r := Eval(w, e, env, trace).value;
    var a := ToValue(e, names, c);
    var store';
    ToValueGrows(e, names, c);
    n, store' := ToValueRuns(w, program, p, e, names, c, env, trace, store, r);
    k := Running(p + |a.code|, store', r.trace);
    GoesReaches(w, program, p, store, trace, n, k.pc, store', r.trace);
    MatchesAfter(env, names, store, store', c.vars, c.vars);
    BelowMore(names, c.vars, a.next.vars);
    SparedIsKept(store, store', names, c.vars, c.vars, c.vars);
  }

  // ----- An empty innermost scope changes nothing -----

  lemma {:induction false} EvalEmptyScope(w: World, e: Expr, env: Scopes<Value>, trace: seq<Event>)
    ensures Eval(w, e, env + [map[]], trace) == Eval(w, e, env, trace)
    decreases e, 1
  {
    match e
    case Name(x) =>
      assert (env + [map[]])[..|env|] == env;
    case Literal(_) =>
    case ProcCall(_, args) => EvalAllEmptyScope(w, args, env, trace);
    case LogicalNot(r) => EvalEmptyScope(w, r, env, trace);
    case LogicalAnd(l, r) =>
      EvalEmptyScope(w, l, env, trace);
      if Eval(w, l, env, trace).Some? {
        EvalEmptyScope(w, r, env, Eval(w, l, env, trace).value.trace);
      }
    case LogicalOr(l, r) =>
      EvalEmptyScope(w, l, env, trace);
      if Eval(w, l, env, trace).Some? {
        EvalEmptyScope(w, r, env, Eval(w, l, env, trace).value.trace);
      }
    case Binary(_, l, r) =>
      EvalEmptyScope(w, l, env, trace);
      if Eval(w, l, env, trace).Some? {
        EvalEmptyScope(w, r, env, Eval(w, l, env, trace).value.trace);
      }
  }

  lemma {:induction false} EvalAllEmptyScope(w: World, es: seq<Expr>, env: Scopes<Value>, trace: seq<Event>)
    ensures EvalAll(w, es, env + [map[]], trace) == EvalAll(w, es, env, trace)
    decreases es, 0
  {
    if es != [] {
      EvalEmptyScope(w, es[0], env, trace);
      if Eval(w, es[0], env, trace).Some? {
        EvalAllEmptyScope(w, es[1..], env, Eval(w, es[0], env, trace).value.trace);
      }
    }
  }

  // ----- Blocks -----

  ghost predicate Entered(program: seq<Inst>, p: nat, code: seq<Inst>, loop: LoopId,
                          env: Scopes<Value>, names: Names, store: Store, vars: nat)
  {
    UniqueLabels(program) && At(program, p, code) && LoopLabels(program, loop) && Good(env, names, store, vars)
  }

  lemma {:induction false} BlockRuns(w: World, program: seq<Inst>, p: nat, stmts: seq<Stmt>, names: Names, loop: LoopId,
                                     c: Counters, env: Scopes<Value>, trace: seq<Event>, store: Store, fuel: nat)
    returns (n: nat, k: Config)
    requires Entered(program, p, LowerBlock(stmts, names, loop, c).code, loop, env, names, store, c.vars)
    requires AcceptedBlock(stmts, names, loop, c)
    ensures var a := LowerBlock(stmts, names, loop, c);
            var o := ExecBlock(w, stmts, env, trace, fuel);
            && Reaches(w, program, p, store, trace, n, k)
            && Ends(o, p + |a.code|, a.names, a.next.vars, names, store, c.vars, k)
            && Escapes(program, o, loop, names, store, c.vars, fuel, n, k)
    decreases fuel, stmts, 0
  {
    hide At, UniqueLabels, Goes, Reaches, Find, Good, Kept, LoopLabels, LowerStmt, ExecStmt, Accepted, Jumps;
    if stmts == [] {
      n, k := 0, Running(p, store, trace);
      StartsHere(w, program, p, store, trace);
      KeptNothing(store, names, c.vars);
    } else {
      var a := LowerStmt(stmts[0], names, loop, c);
      var b := LowerBlock(stmts[1..], a.names, loop, a.next);
      AtParts(program, p, a.code, b.code);
      var o1 := ExecStmt(w, stmts[0], env, trace, fuel);
      var n1, k1 := StmtRuns(w, program, p, stmts[0], names, loop, c, env, trace, store, fuel);
      if !o1.Normal? {
        n, k := n1, k1;
      } else {
        ReachesGoes(w, program, p, store, trace, n1, k1);
        var n2;
        n2, k := BlockRuns(w, program, p + |a.code|, stmts[1..], a.names, loop, a.next, o1.env, o1.trace, k1.store,
            fuel);
        n := n1 + n2;
        ReachesOn(w, program, p, store, trace, n1, k1.pc, k1.store, k1.trace, n2, k);
        StmtKeepsOutside(stmts[0], names, loop, c, env, store);
        var o := ExecBlock(w, stmts[1..], o1.env, o1.trace, fuel);
        if o.Normal? {
          KeptChain(store, k1.store, k.store, names, c.vars, a.names, a.next.vars);
        }
        EscapesLater(program, o, loop, names, store, c.vars, fuel, n1, a.names, k1.store, a.next.vars, n2, k);
      }
    }
  }

  lemma StmtKeepsOutside(s: Stmt, names: Names, loop: LoopId, c: Counters, env: Scopes<Value>, store: Store)
    requires Good(env, names, store, c.vars)
    ensures var a := LowerStmt(s, names, loop, c);
            && c.vars <= a.next.vars
            && |a.names| == |names| > 0 && a.names[..|names| - 1] == names[..|names| - 1]
            && (forall u: nat :: u < c.vars && IsNamed(a.names, u) ==> IsNamed(names, u))
  {
    hide LowerStmt;
    LowerStmtExtends(s, names, loop, c);
  }

  lemma {:induction false} StmtRuns(w: World, program: seq<Inst>, p: nat, s: Stmt, names: Names, loop: LoopId,
                                    c: Counters, env: Scopes<Value>, trace: seq<Event>, store: Store, fuel: nat)
    returns (n: nat, k: Config)
    requires Entered(program, p, LowerStmt(s, names, loop, c).code, loop, env, names, store, c.vars)
    requires Accepted(s, names, loop, c)
    ensures var a := LowerStmt(s, names, loop, c);
            var o := ExecStmt(w, s, env, trace, fuel);
            && Reaches(w, program, p, store, trace, n, k)
            && Ends(o, p + |a.code|, a.names, a.next.vars, names, store, c.vars, k)
            && Escapes(program, o, loop, names, store, c.vars, fuel, n, k)
    decreases fuel, s, 2
  {
    hide At, UniqueLabels, Goes, Reaches, Find, Kept, LoopLabels, Matches, Below, Distinct, LowerIf, LowerLoop,
        LowerRange;
    if IsSimple(s) {
      n, k := SimpleRuns(w, program, p, s, names, loop, c, env, trace, store, fuel);
      return;
    }
    match s
    case If(_, _) => n, k := IfRuns(w, program, p, s, names, loop, c, env, trace, store, fuel);
    case IfElse(_, _, _) => n, k := IfRuns(w, program, p, s, names, loop, c, env, trace, store, fuel);
    case Forever(_) => n, k := LoopRuns(w, program, p, s, names, loop, c, env, trace, store, fuel);
    case While(_, _) => n, k := LoopRuns(w, program, p, s, names, loop, c, env, trace, store, fuel);
    case ForRange(_, _, _, _) => n, k := RangeRuns(w, program, p, s, names, loop, c, env, trace, store, fuel);
    case Break => n, k := EscapeRuns(w, program, p, LoopExit, names, loop, c, env, trace, store);
    case Continue => n, k := EscapeRuns(w, program, p, LoopContinue, names, loop, c, env, trace, store);
    case ReturnStmt(values) => n, k := ReturnRuns(w, program, p, values, names, loop, c, env, trace, store, fuel);
    case _ =>
  }

  lemma EscapeRuns(w: World, program: seq<Inst>, p: nat, kind: LabelKind, names: Names, loop: LoopId, c: Counters,
                   env: Scopes<Value>, trace: seq<Event>, store: Store)
    returns (n: nat, k: Config)
    requires kind == LoopExit || kind == LoopContinue
    requires loop.Some? && Entered(program, p, [Jump(Label(kind, loop.GetOr(0)))], loop, env, names, store, c.vars)
    ensures Reaches(w, program, p, store, trace, n, k)
    ensures Jumps(program, kind, loop, env, trace, names, store, c.vars, k)
  {
    hide At, UniqueLabels, Below, Distinct, Find;
    StepAt(w, program, p, Jump(Label(kind, loop.value)), store, trace);
    n, k := 1, Running(Find(program, Label(kind, loop.value)).value, store, trace);
    KeptNothing(store, names, c.vars);
    OuterMatches(env, names, store);
  }

  lemma OuterMatches(env: Scopes<Value>, names: Names, store: Store)
    requires Matches(env, names, store) && names != []
    ensures Matches(env[..|names| - 1], names[..|names| - 1], store)
  {
  }

  lemma ReturnRuns(w: World, program: seq<Inst>, p: nat, values: seq<Expr>, names: Names, loop: LoopId, c: Counters,
                   env: Scopes<Value>, trace: seq<Event>, store: Store, fuel: nat)
    returns (n: nat, k: Config)
    requires Entered(program, p, LowerStmt(ReturnStmt(values), names, loop, c).code, loop, env, names, store, c.vars)
    ensures Reaches(w, program, p, store, trace, n, k)
    ensures var o := ExecStmt(w, ReturnStmt(values), env, trace, fuel);
            o.Meaningless? || (o.Returned? && k == Halted(o.values, o.trace))
  {
    hide At, UniqueLabels, Find, Distinct, Kept, LoopLabels, Matches, Below;
    var r := EvalAll(w, values, env, trace);
    var a := ToValues(values, names, c);
    if r.None? {
      n, k := 0, Running(p, store, trace);
    } else {
      AtParts(program, p, a.code, [Return(a.vns)]);
      var n1, store1 := ToValuesRuns(w, program, p, values, names, c, env, trace, store, r.value);
      var q := p + |a.code|;
      StepAt(w, program, q, Return(a.vns), store1, r.value.trace);
      n, k := n1 + 1, Halted(r.value.values, r.value.trace);
      ReachesOn(w, program, p, store, trace, n1, q, store1, r.value.trace, 1, k);
    }
  }

  // ----- Scopes inside statements -----

  /** A block in an inner scope, seen from the statement that opened the scope. */
  ghost predicate Left(program: seq<Inst>, o: Outcome, q: nat, loop: LoopId, names: Names, inner: Names, vars': nat,
                       store: Store, vars: nat, fuel: nat, n: nat, k: Config)
  {
    match o
    case Normal(env', trace') => LeftAt(Some(q), env', trace', names, inner, vars', store, vars, k)
    case Broke(env', trace') =>
      loop.Some? && LeftAt(Find(program, Label(LoopExit, loop.value)), env', trace', names, inner, vars', store, vars,
          k)
    case Continued(env', trace') =>
      loop.Some? && LeftAt(Find(program, Label(LoopContinue, loop.value)), env', trace', names, inner, vars', store,
          vars, k)
    case Returned(values, trace') => k == Halted(values, trace')
    case OutOfFuel(trace) => k.Running? && n >= fuel && k.trace == trace
    case Meaningless => true
  }

  ghost predicate LeftAt(q: Option<nat>, env': Scopes<Value>, trace': seq<Event>, names: Names, inner: Names,
                         vars': nat,
                         store: Store, vars: nat, k: Config)
  {
    && k.Running? && q == Some(k.pc) && k.trace == trace'
    && Good(env', names, k.store, vars') && Kept(store, k.store, inner, vars)
  }

  lemma LeftEscapes(program: seq<Inst>, o: Outcome, q: nat, loop: LoopId, names: Names, inner: Names, vars': nat,
                    store0: Store, vars0: nat, store: Store, vars: nat, fuel: nat, n: nat, n0: nat, k: Config)
    requires Left(program, o, q, loop, names, inner, vars', store, vars, fuel, n, k) && !o.Normal?
    requires Kept(store0, store, names, vars0) && vars0 <= vars && n <= n0
    requires forall u: nat :: u < vars0 && IsNamed(inner, u) ==> IsNamed(names, u)
    ensures Escapes(program, o, loop, names, store0, vars0, fuel, n0, k)
  {
    hide Find, IsNamed, Matches;
    if o.Broke? || o.Continued? {
      KeptChain(store0, store, k.store, names, vars0, inner, vars);
      GoodParts(o.env, names, k.store, vars');
      OuterMatches(o.env, names, k.store);
    }
  }

  lemma {:induction false} ScopeRuns(w: World, program: seq<Inst>, p: nat, stmts: seq<Stmt>, names: Names, inner: Names,
                                     loop: LoopId, c: Counters, env: Scopes<Value>, innerEnv: Scopes<Value>,
                                     trace: seq<Event>, store: Store, fuel: nat)
    returns (n: nat, k: Config)
    requires Entered(program, p, LowerBlock(stmts, inner, loop, c).code, loop, innerEnv, inner, store, c.vars)
    requires AcceptedBlock(stmts, inner, loop, c)
    requires Good(env, names, store, c.vars)
    requires |inner| == |names| + 1 && inner[..|names|] == names
    ensures var a := LowerBlock(stmts, inner, loop, c);
            var o := Leave(ExecBlock(w, stmts, innerEnv, trace, fuel), |env|);
            && c.vars <= a.next.vars
            && Reaches(w, program, p, store, trace, n, k)
            && Left(program, o, p + |a.code|, loop, names, inner, a.next.vars, store, c.vars, fuel, n, k)
    decreases fuel, stmts, 1
  {
    hide At, UniqueLabels, Reaches, Find, LoopLabels, Matches, Below, Distinct, LowerBlock, ExecBlock, Kept, Extends;
    var a := LowerBlock(stmts, inner, loop, c);
    var o := ExecBlock(w, stmts, innerEnv, trace, fuel);
    GoodParts(env, names, store, c.vars);
    n, k := BlockRuns(w, program, p, stmts, inner, loop, c, innerEnv, trace, store, fuel);
    BlockKeepsOutside(stmts, inner, loop, c);
    if o.Normal? {
      GoodParts(o.env, a.names, k.store, a.next.vars);
      assert a.names[..|names|] == names by {
        assert a.names[..|names|] == inner[..|names|];
      }
      LeaveScope(o.env, names, a.names, k.store, c.vars, a.next.vars);
    } else if o.Broke? || o.Continued? {
      assert inner[..|inner| - 1] == names;
      assert Matches(o.env[..|names|], names, k.store);
      LeaveScope(o.env, names, inner, k.store, c.vars, a.next.vars);
    }
  }

  lemma BlockKeepsOutside(stmts: seq<Stmt>, names: Names, loop: LoopId, c: Counters)
    requires names != []
    ensures var a := LowerBlock(stmts, names, loop, c);
            && c.vars <= a.next.vars && |a.names| == |names| && a.names[..|names| - 1] == names[..|names| - 1]
  {
    LowerBlockExtends(stmts, names, loop, c);
  }

  // ----- Instructions that only mark places -----

  predicate IsMarker(i: Inst) {
    i.LabelAt? || i.OptionSelectStart? || i.OptionEnd? || i.OptionSelectEnd? || i.OutsideLoopMutations? || i.LoopEnd?
  }

  lemma MarkerRuns(w: World, program: seq<Inst>, p: nat, i: Inst, store: Store, trace: seq<Event>)
    requires At(program, p, [i]) && IsMarker(i)
    ensures Goes(w, program, p, store, trace, 1, p + 1, store, trace)
  {
    StepAt(w, program, p, i, store, trace);
  }

  lemma TwoMarkersRun(w: World, program: seq<Inst>, p: nat, i: Inst, j: Inst, store: Store, trace: seq<Event>)
    requires At(program, p, [i, j]) && IsMarker(i) && IsMarker(j)
    ensures Goes(w, program, p, store, trace, 2, p + 2, store, trace)
  {
    assert [i, j] == [i] + [j];
    AtParts(program, p, [i], [j]);
    MarkerRuns(w, program, p, i, store, trace);
    MarkerRuns(w, program, p + 1, j, store, trace);
    GoesOn(w, program, p, store, trace, 1, p + 1, store, trace, 1, p + 2, store, trace);
  }

  lemma JumpRuns(w: World, program: seq<Inst>, p: nat, l: Label, q: nat, store: Store, trace: seq<Event>)
    requires At(program, p, [Jump(l)]) && Find(program, l) == Some(q)
    ensures Goes(w, program, p, store, trace, 1, q, store, trace)
  {
    StepAt(w, program, p, Jump(l), store, trace);
  }

  // ----- Branches -----

  /** Where the pieces of an if statement are. */
  lemma IfShape(program: seq<Inst>, p: nat, s: Stmt, names: Names, loop: LoopId, c: Counters)
    requires s.If? || s.IfElse?
    requires UniqueLabels(program) && At(program, p, LowerIf(s, names, loop, c).code)
    ensures var inner := names + [map[]];
            var a := ToValue(s.cond, inner, NewLabel(NewList(NewList(c))));
            var b := LowerBlock(s.thn, inner, loop, a.next);
            var q := p + 1 + |a.code|;
            var r := q + 1 + |b.code|;
            && LowerThen(s, names, loop, c).next == b.next
            && At(program, p, [OptionSelectStart(c.lists)])
            && At(program, p + 1, a.code)
            && At(program, q, [JumpIf(false, false, a.vn, Label(Else, c.labels))])
            && At(program, q + 1, b.code)
            && At(program, r, [OptionEnd(c.lists + 1)])
            && At(program, r + 2, [LabelAt(Label(Else, c.labels))])
            && Find(program, Label(Else, c.labels)) == Some(r + 2)
            && (s.If? ==>
                  && At(program, r + 1, [OptionSelectEnd])
                  && |LowerIf(s, names, loop, c).code| == r + 3 - p)
            && (s.IfElse? ==>
                  var end := Label(IfElseEnd, b.next.labels);
                  var e := LowerBlock(s.els, inner, loop, NewLabel(NewList(b.next)));
                  var z := r + 3 + |e.code|;
                  && At(program, r + 1, [Jump(end)])
                  && At(program, r + 3, e.code)
                  && At(program, z, [OptionEnd(b.next.lists), OptionSelectEnd])
                  && At(program, z + 2, [LabelAt(end)])
                  && Find(program, end) == Some(z + 2)
                  && |LowerIf(s, names, loop, c).code| == z + 3 - p)
  {
    hide At, UniqueLabels, Find, ToValue, LowerBlock, LowerIf, LowerThen;
    var inner := names + [map[]];
    var a := ToValue(s.cond, inner, NewLabel(NewList(NewList(c))));
    var b := LowerBlock(s.thn, inner, loop, a.next);
    var jump := JumpIf(false, false, a.vn, Label(Else, c.labels));
    var head := [OptionSelectStart(c.lists)] + a.code + [jump] + b.code + [OptionEnd(c.lists + 1)];
    var elseLabel := LabelAt(Label(Else, c.labels));
    IfCode(s, names, loop, c);
    if s.If? {
      AtParts(program, p, head + [OptionSelectEnd], [elseLabel]);
      AtParts(program, p, head, [OptionSelectEnd]);
    } else {
      var end := Label(IfElseEnd, b.next.labels);
      var e := LowerBlock(s.els, inner, loop, NewLabel(NewList(b.next)));
      ElseShape(program, p, head, Jump(end), elseLabel, e.code, [OptionEnd(b.next.lists), OptionSelectEnd], end);
    }
    FindsIt(program, p + |head| + 1, Label(Else, c.labels));
    AtParts(program, p, [OptionSelectStart(c.lists)] + a.code + [jump] + b.code, [OptionEnd(c.lists + 1)]);
    AtParts(program, p, [OptionSelectStart(c.lists)] + a.code + [jump], b.code);
    AtParts(program, p, [OptionSelectStart(c.lists)] + a.code, [jump]);
    AtParts(program, p, [OptionSelectStart(c.lists)], a.code);
  }

  lemma ElseShape(program: seq<Inst>, p: nat, head: seq<Inst>, jump: Inst, elseLabel: Inst, e: seq<Inst>,
                  close: seq<Inst>, end: Label)
    requires UniqueLabels(program) && At(program, p, head + [jump] + [elseLabel] + e + close + [LabelAt(end)])
    ensures var q := p + |head|;
            var z := q + 2 + |e|;
            && At(program, p, head) && At(program, q, [jump]) && At(program, q + 1, [elseLabel])
                && At(program, q + 2, e)
            && At(program, z, close) && At(program, z + |close|, [LabelAt(end)])
                && Find(program, end) == Some(z + |close|)
  {
    hide At, UniqueLabels, Find;
    AtParts(program, p, head + [jump] + [elseLabel] + e + close, [LabelAt(end)]);
    AtParts(program, p, head + [jump] + [elseLabel] + e, close);
    AtParts(program, p, head + [jump] + [elseLabel], e);
    AtParts(program, p, head + [jump], [elseLabel]);
    AtParts(program, p, head, [jump]);
    FindsIt(program, p + |head| + 2 + |e| + |close|, end);
  }

  lemma IfCode(s: Stmt, names: Names, loop: LoopId, c: Counters)
    requires s.If? || s.IfElse?
    ensures var inner := names + [map[]];
            var a := ToValue(s.cond, inner, NewLabel(NewList(NewList(c))));
            var b := LowerBlock(s.thn, inner, loop, a.next);
            var head := [OptionSelectStart(c.lists)] + a.code + [JumpIf(false, false, a.vn, Label(Else, c.labels))]
                        + b.code + [OptionEnd(c.lists + 1)];
            && LowerThen(s, names, loop, c) == Code(head, b.next)
            && (s.If? ==>
                LowerIf(s, names, loop, c).code == head + [OptionSelectEnd] + [LabelAt(Label(Else, c.labels))])
            && (s.IfElse? ==>
                  var end := Label(IfElseEnd, b.next.labels);
                  var e := LowerBlock(s.els, inner, loop, NewLabel(NewList(b.next)));
                  LowerIf(s, names, loop, c).code ==
                    head + [Jump(end)] + [LabelAt(Label(Else, c.labels))] + e.code
                    + [OptionEnd(b.next.lists), OptionSelectEnd] + [LabelAt(end)])
  {
    hide ToValue, LowerBlock;
  }

  /** The condition, and the jump over the first branch if it is false. */
  lemma CondRuns(w: World, program: seq<Inst>, p: nat, cond: Expr, names: Names, list: nat, target: Label, q: nat,
                 c: Counters, n0: nat, env: Scopes<Value>, trace: seq<Event>, store: Store, r: Evaluated)
    returns (n: nat, store': Store)
    requires var a := ToValue(cond, names + [map[]], c);
             && At(program, p, [OptionSelectStart(list)]) && At(program, p + 1, a.code)
             && At(program, p + 1 + |a.code|, [JumpIf(false, false, a.vn, target)])
    requires UniqueLabels(program) && Find(program, target) == Some(q)
    requires Good(env, names, store, n0) && n0 <= c.vars
    requires Eval(w, cond, env, trace) == Some(r) && r.value.Bool?
    ensures var a := ToValue(cond, names + [map[]], c);
            && Goes(w, program, p, store, trace, n, if r.value.b then p + 2 + |a.code| else q, store', r.trace)
            && n0 <= a.next.vars
            && Good(env, names, store', a.next.vars) && Kept(store, store', names, n0)
  {
    hide At, UniqueLabels, Find, Goes, Matches, Below, Distinct, Kept, Free, Spared;
    var inner, innerEnv := names + [map[]], env + [map[]];
    var a := ToValue(cond, inner, c);
    GoodParts(env, names, store, n0);
    BelowMore(names, n0, c.vars);
    EnterScope(env, names, store, c.vars);
    GoodParts(innerEnv, inner, store, c.vars);
    EvalEmptyScope(w, cond, env, trace);
    MarkerRuns(w, program, p, OptionSelectStart(list), store, trace);
    var n1;
    n1, store' := ToValueRuns(w, program, p + 1, cond, inner, c, innerEnv, trace, store, r);
    var at := p + 1 + |a.code|;
    GoesOn(w, program, p, store, trace, 1, p + 1, store, trace, n1, at, store', r.trace);
    var jump := JumpIf(false, false, a.vn, target);
    if r.value.b {
      var n2 := JumpNotTaken(w, program, at, jump, store', r.trace);
      GoesOn(w, program, p, store, trace, 1 + n1, at, store', r.trace, n2, at + 1, store', r.trace);
    } else {
      JumpTaken(w, program, at, jump, q, store', r.trace);
      GoesOn(w, program, p, store, trace, 1 + n1, at, store', r.trace, 1, q, store', r.trace);
    }
    n := 1 + n1 + 1;
    ToValueGrows(cond, inner, c);
    FreshIsFree(env, names, store, c.vars, c.vars);
    MatchesAfter(env, names, store, store', c.vars, c.vars);
    BelowMore(names, c.vars, a.next.vars);
    SparedIsKept(store, store', names, c.vars, n0, c.vars);
  }

  /** A block in an inner scope between code before it (n1 steps) and code after it (n3 steps). */
  lemma AroundScope(w: World, program: seq<Inst>, p: nat, store: Store, trace: seq<Event>, names: Names, vars0: nat,
                    n1: nat, p1: nat, store1: Store, trace1: seq<Event>, vars1: nat,
                    o: Outcome, q: nat, inner: Names, vars2: nat, n2: nat, k2: Config, n3: nat, end: nat,
                    vars': nat, loop: LoopId, fuel: nat)
    returns (n: nat, k: Config)
    requires Goes(w, program, p, store, trace, n1, p1, store1, trace1)
    requires Reaches(w, program, p1, store1, trace1, n2, k2)
    requires Left(program, o, q, loop, names, inner, vars2, store1, vars1, fuel, n2, k2)
    requires o.Normal? && k2.Running? ==> Goes(w, program, q, k2.store, k2.trace, n3, end, k2.store, k2.trace)
    requires Kept(store, store1, names, vars0) && vars0 <= vars1 && vars2 <= vars'
    requires forall u: nat :: u < vars0 && IsNamed(inner, u) ==> IsNamed(names, u)
    ensures Reaches(w, program, p, store, trace, n, k)
    ensures Ends(o, end, names, vars', names, store, vars0, k)
    ensures Escapes(program, o, loop, names, store, vars0, fuel, n, k)
  {
    hide Find, Goes, Reaches, Matches, IsNamed, Distinct, Kept;
    ReachesOn(w, program, p, store, trace, n1, p1, store1, trace1, n2, k2);
    n, k := n1 + n2, k2;
    if o.Normal? {
      ReachesGoes(w, program, p, store, trace, n, k2);
      GoesOn(w, program, p, store, trace, n, q, k2.store, k2.trace, n3, end, k2.store, k2.trace);
      n, k := n + n3, Running(end, k2.store, k2.trace);
      GoesReaches(w, program, p, store, trace, n, end, k2.store, k2.trace);
      KeptChain(store, store1, k2.store, names, vars0, inner, vars1);
      GoodParts(o.env, names, k2.store, vars2);
      BelowMore(names, vars2, vars');
    } else {
      LeftEscapes(program, o, q, loop, names, inner, vars2, store, vars0, store1, vars1, fuel, n2, n, k2);
    }
  }

  lemma ThreeMarkersRun(w: World, program: seq<Inst>, p: nat, i: Inst, j: Inst, l: Inst, store: Store,
                        trace: seq<Event>)
    requires At(program, p, [i, j]) && At(program, p + 2, [l]) && IsMarker(i) && IsMarker(j) && IsMarker(l)
    ensures Goes(w, program, p, store, trace, 3, p + 3, store, trace)
  {
    TwoMarkersRun(w, program, p, i, j, store, trace);
    MarkerRuns(w, program, p + 2, l, store, trace);
    GoesOn(w, program, p, store, trace, 2, p + 2, store, trace, 1, p + 3, store, trace);
  }

  /** From the end of a first branch that an else follows: past the marker, over the else. */
  lemma OverElse(w: World, program: seq<Inst>, p: nat, i: Inst, l: Label, q: nat, store: Store, trace: seq<Event>)
    requires At(program, p, [i]) && IsMarker(i) && At(program, p + 1, [Jump(l)])
    requires Find(program, l) == Some(q) && At(program, q, [LabelAt(l)])
    ensures Goes(w, program, p, store, trace, 3, q + 1, store, trace)
  {
    MarkerRuns(w, program, p, i, store, trace);
    JumpRuns(w, program, p + 1, l, q, store, trace);
    MarkerRuns(w, program, q, LabelAt(l), store, trace);
    GoesOn(w, program, p, store, trace, 1, p + 1, store, trace, 1, q, store, trace);
    GoesOn(w, program, p, store, trace, 2, q, store, trace, 1, q + 1, store, trace);
  }

  lemma PairAt(program: seq<Inst>, p: nat, i: Inst, j: Inst)
    requires At(program, p, [i]) && At(program, p + 1, [j])
    ensures At(program, p, [i, j])
  {
    AtOne(program, p, i);
    AtOne(program, p + 1, j);
  }

  lemma {:induction false} ThenRuns(w: World, program: seq<Inst>, p: nat, s: Stmt, names: Names, loop: LoopId,
                                    c: Counters, env: Scopes<Value>, trace: seq<Event>, store: Store, fuel: nat,
                                    n1: nat, store1: Store, r: Evaluated)
    returns (n: nat, k: Config)
    requires s.If? || s.IfElse?
    requires Entered(program, p, LowerIf(s, names, loop, c).code, loop, env, names, store, c.vars)
    requires AcceptedThen(s, names, loop, c)
    requires var a := ToValue(s.cond, names + [map[]], NewLabel(NewList(NewList(c))));
             && Goes(w, program, p, store, trace, n1, p + 2 + |a.code|, store1, r.trace)
             && c.vars <= a.next.vars && Good(env, names, store1, a.next.vars) && Kept(store, store1, names, c.vars)
    ensures var a := LowerIf(s, names, loop, c);
            var o := Leave(ExecBlock(w, s.thn, env + [map[]], r.trace, fuel), |env|);
            && Reaches(w, program, p, store, trace, n, k)
            && Ends(o, p + |a.code|, names, a.next.vars, names, store, c.vars, k)
            && Escapes(program, o, loop, names, store, c.vars, fuel, n, k)
    decreases fuel, s, 0
  {
    hide At, UniqueLabels, Find, Goes, Reaches, Good, Kept, LoopLabels, LowerBlock, ToValue, ExecBlock, LowerThen,
        AcceptedBlock;
    var inner := names + [map[]];
    var a := ToValue(s.cond, inner, NewLabel(NewList(NewList(c))));
    var b := LowerBlock(s.thn, inner, loop, a.next);
    var q := p + 1 + |a.code|;
    var r' := q + 1 + |b.code|;
    IfShape(program, p, s, names, loop, c);
    InnerNames(names, map[], c.vars);
    EnterScope(env, names, store1, a.next.vars);
    var n2, k2 := ScopeRuns(w, program, q + 1, s.thn, names, inner, loop, a.next, env, env + [map[]], r.trace, store1,
        fuel);
    var o := Leave(ExecBlock(w, s.thn, env + [map[]], r.trace, fuel), |env|);
    var code := LowerIf(s, names, loop, c);
    if k2.Running? {
      if s.If? {
        PairAt(program, r', OptionEnd(c.lists + 1), OptionSelectEnd);
        ThreeMarkersRun(w, program, r', OptionEnd(c.lists + 1), OptionSelectEnd, LabelAt(Label(Else, c.labels)),
            k2.store, k2.trace);
      } else {
        var e := LowerBlock(s.els, inner, loop, NewLabel(NewList(b.next)));
        BlockKeepsOutside(s.els, inner, loop, NewLabel(NewList(b.next)));
        OverElse(w, program, r', OptionEnd(c.lists + 1), Label(IfElseEnd, b.next.labels), r' + 3 + |e.code| + 2,
            k2.store, k2.trace);
      }
    }
    if s.IfElse? {
      BlockKeepsOutside(s.els, inner, loop, NewLabel(NewList(b.next)));
    }
    n, k := AroundScope(w, program, p, store, trace, names, c.vars, n1, q + 1, store1, r.trace, a.next.vars,
                        o, r', inner, b.next.vars, n2, k2, 3, p + |code.code|, code.next.vars, loop, fuel);
  }

  lemma {:induction false} ElseRuns(w: World, program: seq<Inst>, p: nat, s: Stmt, names: Names, loop: LoopId,
                                    c: Counters, env: Scopes<Value>, trace: seq<Event>, store: Store, fuel: nat,
                                    n1: nat, store1: Store, r: Evaluated)
    returns (n: nat, k: Config)
    requires s.IfElse?
    requires Entered(program, p, LowerIf(s, names, loop, c).code, loop, env, names, store, c.vars)
    requires Accepted(s, names, loop, c)
    requires var a := ToValue(s.cond, names + [map[]], NewLabel(NewList(NewList(c))));
             var b := LowerBlock(s.thn, names + [map[]], loop, a.next);
             && Goes(w, program, p, store, trace, n1, p + 4 + |a.code| + |b.code|, store1, r.trace)
             && c.vars <= a.next.vars && Good(env, names, store1, a.next.vars) && Kept(store, store1, names, c.vars)
    ensures var a := LowerIf(s, names, loop, c);
            var o := Leave(ExecBlock(w, s.els, env + [map[]], r.trace, fuel), |env|);
            && Reaches(w, program, p, store, trace, n, k)
            && Ends(o, p + |a.code|, names, a.next.vars, names, store, c.vars, k)
            && Escapes(program, o, loop, names, store, c.vars, fuel, n, k)
    decreases fuel, s, 0
  {
    hide At, UniqueLabels, Find, Goes, Reaches, Good, Kept, LoopLabels, LowerBlock, ToValue, ExecBlock, LowerThen,
        AcceptedBlock;
    var inner := names + [map[]];
    var a := ToValue(s.cond, inner, NewLabel(NewList(NewList(c))));
    var b := LowerBlock(s.thn, inner, loop, a.next);
    var c2 := NewLabel(NewList(b.next));
    var e := LowerBlock(s.els, inner, loop, c2);
    var at := p + 2 + |a.code| + |b.code| + 2;
    var z := at + 1 + |e.code|;
    IfShape(program, p, s, names, loop, c);
    InnerNames(names, map[], c.vars);
    BlockKeepsOutside(s.thn, inner, loop, a.next);
    GoodParts(env, names, store1, a.next.vars);
    BelowMore(names, a.next.vars, c2.vars);
    GoodAgain(env, names, store1, a.next.vars, c2.vars);
    EnterScope(env, names, store1, c2.vars);
    MarkerRuns(w, program, at, LabelAt(Label(Else, c.labels)), store1, r.trace);
    GoesOn(w, program, p, store, trace, n1, at, store1, r.trace, 1, at + 1, store1, r.trace);
    var n2, k2 := ScopeRuns(w, program, at + 1, s.els, names, inner, loop, c2, env, env + [map[]], r.trace, store1,
        fuel);
    var o := Leave(ExecBlock(w, s.els, env + [map[]], r.trace, fuel), |env|);
    var code := LowerIf(s, names, loop, c);
    if k2.Running? {
      ThreeMarkersRun(w, program, z, OptionEnd(b.next.lists), OptionSelectEnd,
          LabelAt(Label(IfElseEnd, b.next.labels)), k2.store, k2.trace);
    }
    n, k := AroundScope(w, program, p, store, trace, names, c.vars, n1 + 1, at + 1, store1, r.trace, c2.vars,
                        o, z, inner, e.next.vars, n2, k2, 3, p + |code.code|, code.next.vars, loop, fuel);
  }

  lemma GoodAgain(env: Scopes<Value>, names: Names, store: Store, n: nat, m: nat)
    requires Good(env, names, store, n) && Below(names, m)
    ensures Good(env, names, store, m)
  {
  }

  lemma {:induction false} IfRuns(w: World, program: seq<Inst>, p: nat, s: Stmt, names: Names, loop: LoopId,
                                  c: Counters, env: Scopes<Value>, trace: seq<Event>, store: Store, fuel: nat)
    returns (n: nat, k: Config)
    requires s.If? || s.IfElse?
    requires Entered(program, p, LowerIf(s, names, loop, c).code, loop, env, names, store, c.vars)
    requires Accepted(s, names, loop, c)
    ensures var a := LowerIf(s, names, loop, c);
            var o := ExecBranch(w, s, env, trace, fuel);
            && Reaches(w, program, p, store, trace, n, k)
            && Ends(o, p + |a.code|, a.names, a.next.vars, names, store, c.vars, k)
            && Escapes(program, o, loop, names, store, c.vars, fuel, n, k)
    decreases fuel, s, 1
  {
    hide At, UniqueLabels, Find, Goes, Reaches, Good, Kept, LoopLabels, LowerBlock, ToValue, ExecBlock, LowerThen,
        AcceptedBlock;
    var e := Eval(w, s.cond, env, trace);
    n, k := 0, Running(p, store, trace);
    StartsHere(w, program, p, store, trace);
    if e.None? || !e.value.value.Bool? {
      return;
    }
    var r := e.value;
    var c1 := NewLabel(NewList(NewList(c)));
    var a := ToValue(s.cond, names + [map[]], c1);
    var b := LowerBlock(s.thn, names + [map[]], loop, a.next);
    var elseAt := p + 2 + |a.code| + |b.code| + 2;
    IfShape(program, p, s, names, loop, c);
    var n1, store1 := CondRuns(w, program, p, s.cond, names, c.lists, Label(Else, c.labels), elseAt, c1, c.vars, env,
        trace, store, r);
    if r.value.b {
      n, k := ThenRuns(w, program, p, s, names, loop, c, env, trace, store, fuel, n1, store1, r);
    } else if s.IfElse? {
      n, k := ElseRuns(w, program, p, s, names, loop, c, env, trace, store, fuel, n1, store1, r);
    } else {
      MarkerRuns(w, program, elseAt, LabelAt(Label(Else, c.labels)), store1, r.trace);
      GoesOn(w, program, p, store, trace, n1, elseAt, store1, r.trace, 1, elseAt + 1, store1, r.trace);
      n, k := n1 + 1, Running(elseAt + 1, store1, r.trace);
      GoesReaches(w, program, p, store, trace, n, elseAt + 1, store1, r.trace);
      BlockKeepsOutside(s.thn, names + [map[]], loop, a.next);
      GoodParts(env, names, store1, a.next.vars);
      BelowMore(names, a.next.vars, b.next.vars);
      GoodAgain(env, names, store1, a.next.vars, b.next.vars);
    }
  }

  // ----- Loops -----

  /** Where the pieces of a loop are; `body` is where its first turn's own code starts. */
  lemma LoopBackShape(program: seq<Inst>, p: nat, before: seq<Inst>, step: seq<Inst>, id: nat)
    requires UniqueLabels(program)
    requires At(program, p, before + [LabelAt(Label(LoopContinue, id))] + step + LoopBack(id))
    ensures var q := p + |before|;
            var r := q + 1 + |step|;
            && At(program, p, before)
            && At(program, q, [LabelAt(Label(LoopContinue, id))]) && Find(program, Label(LoopContinue, id)) == Some(q)
            && At(program, q + 1, step)
            && At(program, r, [Jump(Label(LoopStart, id))])
            && At(program, r + 2, [LabelAt(Label(LoopExit, id))]) && Find(program, Label(LoopExit, id)) == Some(r + 2)
            && LoopLabels(program, Some(id))
  {
    hide At, UniqueLabels, Find;
    var continue' := [LabelAt(Label(LoopContinue, id))];
    var back := [Jump(Label(LoopStart, id))] + [LoopEnd] + [LabelAt(Label(LoopExit, id))];
    assert LoopBack(id) == back;
    AtParts(program, p, before + continue' + step, back);
    AtParts(program, p, before + continue', step);
    AtParts(program, p, before, continue');
    var r := p + |before| + 1 + |step|;
    AtParts(program, r, [Jump(Label(LoopStart, id))] + [LoopEnd], [LabelAt(Label(LoopExit, id))]);
    AtParts(program, r, [Jump(Label(LoopStart, id))], [LoopEnd]);
    FindsIt(program, p + |before|, Label(LoopContinue, id));
    FindsIt(program, r + 2, Label(LoopExit, id));
  }

  /** From the continue label back to the head. */
  lemma BackRuns(w: World, program: seq<Inst>, q: nat, id: nat, head: nat, store: Store, trace: seq<Event>)
    requires At(program, q, [LabelAt(Label(LoopContinue, id))]) && At(program, q + 1, [Jump(Label(LoopStart, id))])
    requires Find(program, Label(LoopStart, id)) == Some(head)
    ensures Goes(w, program, q, store, trace, 2, head, store, trace)
  {
    MarkerRuns(w, program, q, LabelAt(Label(LoopContinue, id)), store, trace);
    JumpRuns(w, program, q + 1, Label(LoopStart, id), head, store, trace);
    GoesOn(w, program, q, store, trace, 1, q + 1, store, trace, 1, head, store, trace);
  }

  ghost function LoopTest(s: Stmt, names: Names, c: Counters): Code
    requires s.Forever? || s.While?
  {
    var c1 := NewLabel(NewList(c));
    if s.While? then
      var t := ToVar(s.cond, names + [map[]], c1.vars, NewVar(c1));
      Code(t.code + [JumpIf(false, false, c1.vars, Label(LoopExit, c.labels))], t.next)
    else Code([], c1)
  }

  lemma LoopShape(program: seq<Inst>, p: nat, s: Stmt, names: Names, c: Counters)
    requires s.Forever? || s.While?
    requires UniqueLabels(program) && At(program, p, LowerLoop(s, names, c).code)
    ensures var test := LoopTest(s, names, c);
            var b := LowerBlock(s.body, names + [map[]], Some(c.labels), test.next);
            var q := p + 2 + |test.code| + |b.code|;
            && At(program, p, [OutsideLoopMutations(c.lists)])
            && At(program, p + 1, [LabelAt(Label(LoopStart, c.labels))])
            && Find(program, Label(LoopStart, c.labels)) == Some(p + 1)
            && At(program, p + 2, test.code)
            && At(program, p + 2 + |test.code|, b.code)
            && At(program, q, [LabelAt(Label(LoopContinue, c.labels))])
                && Find(program, Label(LoopContinue, c.labels)) == Some(q)
            && At(program, q + 1, [Jump(Label(LoopStart, c.labels))])
            && At(program, q + 3, [LabelAt(Label(LoopExit, c.labels))])
                && Find(program, Label(LoopExit, c.labels)) == Some(q + 3)
            && LoopLabels(program, Some(c.labels))
            && |LowerLoop(s, names, c).code| == q + 4 - p
            && LowerLoop(s, names, c).next == b.next
  {
    hide At, UniqueLabels, Find, LoopLabels, LowerBlock, LowerLoop, LoopTest;
    var test := LoopTest(s, names, c);
    var b := LowerBlock(s.body, names + [map[]], Some(c.labels), test.next);
    var start := [OutsideLoopMutations(c.lists)] + [LabelAt(Label(LoopStart, c.labels))];
    var before := start + test.code + b.code;
    LoopCode(s, names, c);
    LoopBackShape(program, p, before, [], c.labels);
    AtParts(program, p, start + test.code, b.code);
    AtParts(program, p, start, test.code);
    AtParts(program, p, [OutsideLoopMutations(c.lists)], [LabelAt(Label(LoopStart, c.labels))]);
    FindsIt(program, p + 1, Label(LoopStart, c.labels));
  }

  lemma LoopCode(s: Stmt, names: Names, c: Counters)
    requires s.Forever? || s.While?
    ensures var test := LoopTest(s, names, c);
            var b := LowerBlock(s.body, names + [map[]], Some(c.labels), test.next);
            && LowerLoop(s, names, c).next == b.next
            && LowerLoop(s, names, c).code ==
                 [OutsideLoopMutations(c.lists)] + [LabelAt(Label(LoopStart, c.labels))] + test.code + b.code
                 + [LabelAt(Label(LoopContinue, c.labels))] + [] + LoopBack(c.labels)
  {
    hide LowerBlock, ToVar;
  }

  /** The test of a while loop decides between its body and its exit. */
  lemma TestRuns(w: World, program: seq<Inst>, p: nat, s: Stmt, names: Names, c: Counters, exit: nat,
                 env: Scopes<Value>, trace: seq<Event>, store: Store, r: Evaluated)
    returns (n: nat, store': Store)
    requires s.Forever? || s.While?
    requires UniqueLabels(program) && At(program, p, LoopTest(s, names, c).code)
    requires Find(program, Label(LoopExit, c.labels)) == Some(exit)
    requires Good(env, names, store, c.vars)
    requires if s.While? then Eval(w, s.cond, env, trace) == Some(r) && r.value.Bool?
        else r == Evaluated(Bool(true), trace)
    ensures var test := LoopTest(s, names, c);
            && Goes(w, program, p, store, trace, n, if r.value.b then p + |test.code| else exit, store', r.trace)
            && c.vars <= test.next.vars
            && Good(env, names, store', test.next.vars) && Kept(store, store', names, c.vars)
  {
    hide At, UniqueLabels, Find, Goes, Matches, Below, Distinct, Kept, Free, Spared, ToVar, Eval, StepInst;
    n, store' := 0, store;
    if s.Forever? {
      StartsHere(w, program, p, store, trace);
      KeptNothing(store, names, c.vars);
      return;
    }
    var c1 := NewLabel(NewList(c));
    var inner, innerEnv := names + [map[]], env + [map[]];
    var t := ToVar(s.cond, inner, c1.vars, NewVar(c1));
    var jump := JumpIf(false, false, c1.vars, Label(LoopExit, c.labels));
    AtParts(program, p, t.code, [jump]);
    EnterScope(env, names, store, c.vars);
    GoodParts(innerEnv, inner, store, c.vars);
    GoodParts(env, names, store, c.vars);
    FreshIsFree(innerEnv, inner, store, c.vars, c1.vars);
    EvalEmptyScope(w, s.cond, env, trace);
    n, store' := ToVarRuns(w, program, p, s.cond, inner, c1.vars, NewVar(c1), innerEnv, trace, store, r);
    var at := p + |t.code|;
    if r.value.b {
      var n2 := JumpNotTaken(w, program, at, jump, store', r.trace);
      GoesOn(w, program, p, store, trace, n, at, store', r.trace, n2, at + 1, store', r.trace);
    } else {
      JumpTaken(w, program, at, jump, exit, store', r.trace);
      GoesOn(w, program, p, store, trace, n, at, store', r.trace, 1, exit, store', r.trace);
    }
    n := n + 1;
    ToVarGrows(s.cond, inner, c1.vars, NewVar(c1));
    FreshIsFree(env, names, store, c.vars, c1.vars);
    MatchesBelow(env, names, store, store', c.vars, c1.vars);
    BelowMore(names, c.vars, t.next.vars);
    SparedIsKept(store, store', names, c1.vars + 1, c.vars, c1.vars);
  }

  lemma MatchesBelow(env: Scopes<Value>, names: Names, store: Store, store': Store, n: nat, dest: nat)
    requires Matches(env, names, store) && Below(names, n) && n <= dest
    requires Spared(store, store', dest + 1, dest)
    ensures Matches(env, names, store')
  {
  }

  /** From the head of a loop to its body, or out of it. */
  lemma TurnStarts(w: World, program: seq<Inst>, p: nat, s: Stmt, names: Names, c: Counters, env: Scopes<Value>,
                   trace: seq<Event>, store: Store, r: Evaluated)
    returns (n: nat, store': Store)
    requires (s.Forever? || s.While?) && UniqueLabels(program) && At(program, p, LowerLoop(s, names, c).code)
    requires Good(env, names, store, c.vars)
    requires if s.While? then Eval(w, s.cond, env, trace) == Some(r) && r.value.Bool?
        else r == Evaluated(Bool(true), trace)
    ensures var test, a := LoopTest(s, names, c), LowerLoop(s, names, c);
            && Goes(w, program, p + 1, store, trace, n, if r.value.b then p + 2 + |test.code|
                else p + |a.code| - 1, store', r.trace)
            && c.vars <= test.next.vars && n > 0
            && Good(env, names, store', test.next.vars) && Kept(store, store', names, c.vars)
  {
    hide At, UniqueLabels, Find, Goes, Good, Kept, LowerLoop, LoopTest;
    var test := LoopTest(s, names, c);
    var exit := p + |LowerLoop(s, names, c).code| - 1;
    LoopShape(program, p, s, names, c);
    MarkerRuns(w, program, p + 1, LabelAt(Label(LoopStart, c.labels)), store, trace);
    var n1;
    n1, store' := TestRuns(w, program, p + 2, s, names, c, exit, env, trace, store, r);
    var at := if r.value.b then p + 2 + |test.code| else exit;
    GoesOn(w, program, p + 1, store, trace, 1, p + 2, store, trace, n1, at, store', r.trace);
    n := 1 + n1;
  }

  /** The turns of a loop, from its head. */
  lemma {:induction false} TurnsRun(w: World, program: seq<Inst>, p: nat, s: Stmt, names: Names, loop: LoopId,
                                    c: Counters, env: Scopes<Value>, trace: seq<Event>, store: Store, fuel: nat)
    returns (n: nat, k: Config)
    requires s.Forever? || s.While?
    requires Entered(program, p, LowerLoop(s, names, c).code, loop, env, names, store, c.vars)
    requires Accepted(s, names, loop, c)
    ensures var a := LowerLoop(s, names, c);
            var o := ExecLoop(w, s, env, trace, fuel);
            && Reaches(w, program, p + 1, store, trace, n, k)
            && Ends(o, p + |a.code|, names, a.next.vars, names, store, c.vars, k)
            && Escapes(program, o, loop, names, store, c.vars, fuel, n, k)
    decreases fuel, s, 0
  {
    hide At, UniqueLabels, Find, Goes, Reaches, Good, Kept, LoopLabels, LowerBlock, ToVar, ExecBlock, LoopTest;
    n, k := 0, Running(p + 1, store, trace);
    StartsHere(w, program, p + 1, store, trace);
    var e := if s.While? then Eval(w, s.cond, env, trace) else Some(Evaluated(Bool(true), trace));
    if fuel == 0 || e.None? || !e.value.value.Bool? {
      return;
    }
    var r := e.value;
    var a := LowerLoop(s, names, c);
    var test := LoopTest(s, names, c);
    var exit := p + |a.code| - 1;
    LoopShape(program, p, s, names, c);
    LowerLoopGrows(s, names, c);
    GoodParts(env, names, store, c.vars);
    BelowMore(names, c.vars, a.next.vars);
    var n1, store1 := TurnStarts(w, program, p, s, names, c, env, trace, store, r);
    var at := if r.value.b then p + 2 + |test.code| else exit;
    if !r.value.b {
      n, k := ExitRuns(w, program, p + 1, store, trace, names, c.vars, c.labels, n1, exit, store1, r.trace, env,
          test.next.vars, a.next.vars);
    } else {
      var n2;
      n2, k := LoopBodyRuns(w, program, p, s, names, loop, c, env, r.trace, store1, fuel);
      n := n1 + n2;
      RunsJoin(w, program, p + 1, store, trace, n1, at, store1, r.trace, n2, k, ExecLoop(w, s, env, trace, fuel),
          p + |a.code|, names,
               a.next.vars, loop, c.vars, fuel);
    }
  }

  /** The exit label is reached; the loop is over. */
  lemma ExitRuns(w: World, program: seq<Inst>, p: nat, store: Store, trace: seq<Event>, names: Names, vars: nat,
                 id: nat,
                 n1: nat, exit: nat, store1: Store, trace1: seq<Event>, env1: Scopes<Value>, vars1: nat, vars': nat)
    returns (n: nat, k: Config)
    requires Goes(w, program, p, store, trace, n1, exit, store1, trace1)
    requires At(program, exit, [LabelAt(Label(LoopExit, id))])
    requires Good(env1, names, store1, vars1) && Below(names, vars') && Kept(store, store1, names, vars)
    ensures Reaches(w, program, p, store, trace, n, k)
    ensures Ends(Normal(env1, trace1), exit + 1, names, vars', names, store, vars, k)
  {
    hide At, Goes, Reaches, Kept, Good;
    MarkerRuns(w, program, exit, LabelAt(Label(LoopExit, id)), store1, trace1);
    GoesOn(w, program, p, store, trace, n1, exit, store1, trace1, 1, exit + 1, store1, trace1);
    n, k := n1 + 1, Running(exit + 1, store1, trace1);
    GoesReaches(w, program, p, store, trace, n, exit + 1, store1, trace1);
    GoodAgain(env1, names, store1, vars1, vars');
  }

  /** What follows the body of one turn: the rest of ExecLoop once the test has come out true. */
  function AfterBody(w: World, s: Stmt, l: Outcome, fuel: nat): Outcome
    requires s.Forever? || s.While?
    requires fuel > 0
  {
    match l
    case Normal(env', trace') => ExecLoop(w, s, env', trace', fuel - 1)
    case Continued(env', trace') => ExecLoop(w, s, env', trace', fuel - 1)
    case Broke(env', trace') => Normal(env', trace')
    case o => o
  }

  lemma {:induction false} LoopBodyRuns(w: World, program: seq<Inst>, p: nat, s: Stmt, names: Names, loop: LoopId,
                                        c: Counters, env: Scopes<Value>, trace: seq<Event>, store: Store, fuel: nat)
    returns (n: nat, k: Config)
    requires s.Forever? || s.While?
    requires fuel > 0
    requires UniqueLabels(program) && At(program, p, LowerLoop(s, names, c).code) && LoopLabels(program, loop)
    requires Accepted(s, names, loop, c) && Below(names, c.vars)
    requires c.vars <= LoopTest(s, names, c).next.vars && Good(env, names, store, LoopTest(s, names, c).next.vars)
    ensures var a := LowerLoop(s, names, c);
            var o := AfterBody(w, s, Leave(ExecBlock(w, s.body, env + [map[]], trace, fuel), |env|), fuel);
            && Reaches(w, program, p + 2 + |LoopTest(s, names, c).code|, store, trace, n, k)
            && Ends(o, p + |a.code|, names, a.next.vars, names, store, c.vars, k)
            && Escapes(program, o, loop, names, store, c.vars, fuel, n, k)
    decreases fuel, s.body, 2
  {
    hide At, UniqueLabels, Find, Goes, Reaches, Good, Kept, LoopLabels, LowerBlock, ToVar, ExecBlock, ExecLoop,
        Matches, Below;
    var a := LowerLoop(s, names, c);
    var test := LoopTest(s, names, c);
    var inner := names + [map[]];
    var at := p + 2 + |test.code|;
    var b := LowerBlock(s.body, inner, Some(c.labels), test.next);
    var q := at + |b.code|;
    LoopShape(program, p, s, names, c);
    EnterScope(env, names, store, test.next.vars);
    InnerNames(names, map[], c.vars);
    LowerLoopGrows(s, names, c);
    BelowMore(names, c.vars, a.next.vars);
    var n2, k2 := ScopeRuns(w, program, at, s.body, names, inner, Some(c.labels), test.next, env, env + [map[]], trace,
        store, fuel);
    var l := Leave(ExecBlock(w, s.body, env + [map[]], trace, fuel), |env|);
    n, k := n2, k2;
    if l.Normal? || l.Continued? || l.Broke? {
      ReachesGoes(w, program, at, store, trace, n2, k2);
      KeptNothing(store, names, c.vars);
      KeptChain(store, store, k2.store, names, c.vars, inner, test.next.vars);
    }
    if l.Broke? {
      n, k := ExitRuns(w, program, at, store, trace, names, c.vars, c.labels, n2, q + 3, k2.store, l.trace, l.env,
          b.next.vars, a.next.vars);
    } else if l.Normal? || l.Continued? {
      BackRuns(w, program, q, c.labels, p + 1, k2.store, k2.trace);
      GoesOn(w, program, at, store, trace, n2, q, k2.store, l.trace, 2, p + 1, k2.store, l.trace);
      GoodAgain(l.env, names, k2.store, b.next.vars, c.vars);
      var n3;
      n3, k := TurnsRun(w, program, p, s, names, loop, c, l.env, l.trace, k2.store, fuel - 1);
      ReachesOn(w, program, at, store, trace, n2 + 2, p + 1, k2.store, l.trace, n3, k);
      n := n2 + 2 + n3;
      var o := ExecLoop(w, s, l.env, l.trace, fuel - 1);
      EscapesNextTurn(program, o, loop, names, store, c.vars, fuel, n, k2.store, n3, k);
      if o.Normal? {
        KeptChain(store, k2.store, k.store, names, c.vars, names, c.vars);
      }
    }
  }

  /** One turn costs at least one step, so using up one less fuel later uses up all of it now. */
  lemma EscapesNextTurn(program: seq<Inst>, o: Outcome, loop: LoopId, names: Names, store: Store, vars: nat, fuel: nat,
                        n: nat,
                        store': Store, n': nat, k: Config)
    requires fuel > 0 && Escapes(program, o, loop, names, store', vars, fuel - 1, n', k) && n > n'
    requires Kept(store, store', names, vars)
    ensures Escapes(program, o, loop, names, store, vars, fuel, n, k)
  {
    if o.Broke? || o.Continued? {
      KeptChain(store, store', k.store, names, vars, names, vars);
    }
  }

  lemma {:induction false} LoopRuns(w: World, program: seq<Inst>, p: nat, s: Stmt, names: Names, loop: LoopId,
                                    c: Counters, env: Scopes<Value>, trace: seq<Event>, store: Store, fuel: nat)
    returns (n: nat, k: Config)
    requires s.Forever? || s.While?
    requires Entered(program, p, LowerLoop(s, names, c).code, loop, env, names, store, c.vars)
    requires Accepted(s, names, loop, c)
    ensures var a := LowerLoop(s, names, c);
            var o := ExecLoop(w, s, env, trace, fuel);
            && Reaches(w, program, p, store, trace, n, k)
            && Ends(o, p + |a.code|, a.names, a.next.vars, names, store, c.vars, k)
            && Escapes(program, o, loop, names, store, c.vars, fuel, n, k)
    decreases fuel, s, 1
  {
    hide At, UniqueLabels, Find, Goes, Reaches, Good, Kept, LoopLabels, LowerBlock, ToVar, ExecLoop, Jumps;
    LoopShape(program, p, s, names, c);
    MarkerRuns(w, program, p, OutsideLoopMutations(c.lists), store, trace);
    n, k := TurnsRun(w, program, p, s, names, loop, c, env, trace, store, fuel);
    ReachesOn(w, program, p, store, trace, 1, p + 1, store, trace, n, k);
    n := n + 1;
  }

  // ----- Ranges -----

  /** The pieces of a range loop: its bounds, the counters after them, and what the body sees. */
  datatype RangeParts = RangeParts(hi: Valued, lo: Code, test: nat, named: seq<Inst>, inner: Names, c: Counters,
      body: Lowered)

  ghost function PartsOf(s: Stmt, names: Names, c: Counters): RangeParts
    requires s.ForRange?
  {
    var hi := ToValue(s.to, names, NewVar(NewLabel(NewList(c))));
    var lo := ToVar(s.from, names, c.vars, hi.next);
    var c1 := NewVar(lo.next);
    var inner := names + [CounterNames(s.counter, c1.vars)];
    var cb := if s.counter.Some? then NewVar(c1) else c1;
    RangeParts(hi, lo, lo.next.vars, if s.counter.Some? then [Assign(c1.vars, c.vars)] else [], inner, cb,
               LowerBlock(s.body, inner, Some(c.labels), cb))
  }

  lemma PartsGrow(s: Stmt, names: Names, c: Counters)
    requires s.ForRange?
    ensures var r := PartsOf(s, names, c);
            && c.vars < r.hi.next.vars <= r.lo.next.vars == r.test < r.c.vars <= r.body.next.vars
            && (!s.to.Name? ==> r.hi.vn == c.vars + 1 && r.hi.vn < r.hi.next.vars)
            && (s.counter.Some? ==> r.test + 1 < r.c.vars)
            && LowerRange(s, names, c).next == r.body.next
  {
    hide LowerBlock, ToVar, Extends;
    var r := PartsOf(s, names, c);
    ToValueGrows(s.to, names, NewVar(NewLabel(NewList(c))));
    if !s.to.Name? {
      var c0 := NewVar(NewLabel(NewList(c)));
      ToVarGrows(s.to, names, c0.vars, NewVar(c0));
    }
    ToVarGrows(s.from, names, c.vars, r.hi.next);
    if names != [] {
      BlockKeepsOutside(s.body, r.inner, Some(c.labels), r.c);
    } else {
      BlockKeepsOutside(s.body, r.inner, Some(c.labels), r.c);
    }
  }

  lemma RangeShape(program: seq<Inst>, p: nat, s: Stmt, names: Names, c: Counters)
    requires s.ForRange?
    requires UniqueLabels(program) && At(program, p, LowerRange(s, names, c).code)
    ensures var r := PartsOf(s, names, c);
            var head := p + |r.hi.code| + |r.lo.code| + 1;
            var q := head + 3 + |r.named| + |r.body.code|;
            && At(program, p, r.hi.code) && At(program, p + |r.hi.code|, r.lo.code)
            && At(program, head - 1, [OutsideLoopMutations(c.lists)])
            && At(program, head, [LabelAt(Label(LoopStart, c.labels))])
            && Find(program, Label(LoopStart, c.labels)) == Some(head)
            && At(program, head + 1, [Compare(LesserOrEqual, c.vars, r.hi.vn, r.test)])
            && At(program, head + 2, [JumpIf(false, false, r.test, Label(LoopExit, c.labels))])
            && At(program, head + 3, r.named)
            && At(program, head + 3 + |r.named|, r.body.code)
            && At(program, q, [LabelAt(Label(LoopContinue, c.labels))])
                && Find(program, Label(LoopContinue, c.labels)) == Some(q)
            && At(program, q + 1, [Increment(c.vars)])
            && At(program, q + 2, [Jump(Label(LoopStart, c.labels))])
            && At(program, q + 4, [LabelAt(Label(LoopExit, c.labels))])
                && Find(program, Label(LoopExit, c.labels)) == Some(q + 4)
            && LoopLabels(program, Some(c.labels))
            && |LowerRange(s, names, c).code| == q + 5 - p
  {
    hide At, UniqueLabels, Find, LoopLabels, PartsOf, LowerRange;
    var r := PartsOf(s, names, c);
    var compare := Compare(LesserOrEqual, c.vars, r.hi.vn, r.test);
    var jump := JumpIf(false, false, r.test, Label(LoopExit, c.labels));
    var start := LabelAt(Label(LoopStart, c.labels));
    var before := r.hi.code + r.lo.code + [OutsideLoopMutations(c.lists)] + [start] + [compare] + [jump] + r.named
        + r.body.code;
    RangeCode(s, names, c);
    LoopBackShape(program, p, before, [Increment(c.vars)], c.labels);
    RangeStartShape(program, p, r.hi.code, r.lo.code, OutsideLoopMutations(c.lists), start, compare, jump, r.named,
        r.body.code);
    FindsIt(program, p + |r.hi.code| + |r.lo.code| + 1, Label(LoopStart, c.labels));
  }

  lemma RangeStartShape(program: seq<Inst>, p: nat, hi: seq<Inst>, lo: seq<Inst>, i: Inst, start: Inst, compare: Inst,
                        jump: Inst,
                        named: seq<Inst>, body: seq<Inst>)
    requires At(program, p, hi + lo + [i] + [start] + [compare] + [jump] + named + body)
    ensures var q := p + |hi| + |lo|;
            && At(program, p, hi) && At(program, p + |hi|, lo) && At(program, q, [i]) && At(program, q + 1, [start])
            && At(program, q + 2, [compare]) && At(program, q + 3, [jump]) && At(program, q + 4, named)
            && At(program, q + 4 + |named|, body)
  {
    hide At;
    AtParts(program, p, hi + lo + [i] + [start] + [compare] + [jump] + named, body);
    AtParts(program, p, hi + lo + [i] + [start] + [compare] + [jump], named);
    AtParts(program, p, hi + lo + [i] + [start] + [compare], [jump]);
    AtParts(program, p, hi + lo + [i] + [start], [compare]);
    AtParts(program, p, hi + lo + [i], [start]);
    AtParts(program, p, hi + lo, [i]);
    AtParts(program, p, hi, lo);
  }

  lemma RangeCode(s: Stmt, names: Names, c: Counters)
    requires s.ForRange?
    ensures var r := PartsOf(s, names, c);
            LowerRange(s, names, c).code ==
              r.hi.code + r.lo.code + [OutsideLoopMutations(c.lists)] + [LabelAt(Label(LoopStart, c.labels))]
              + [Compare(LesserOrEqual, c.vars, r.hi.vn, r.test)]
                  + [JumpIf(false, false, r.test, Label(LoopExit, c.labels))]
              + r.named + r.body.code + [LabelAt(Label(LoopContinue, c.labels))] + [Increment(c.vars)]
                  + LoopBack(c.labels)
  {
    hide LowerBlock, ToVar, ToValue;
  }

  /** At the head of the loop: the hidden iteration variable holds i, and the bound is where the test will read it. */
  ghost predicate RangeHead(s: Stmt, names: Names, c: Counters, i: Value, bound: Bound, store: Store)
    requires s.ForRange?
  {
    && c.vars in store && store[c.vars] == i
    && match bound
       case Fixed(v) => !s.to.Name? && c.vars + 1 in store && store[c.vars + 1] == v
       case Reread(x) => s.to == Name(x)
  }

  lemma CounterEnters(s: Stmt, names: Names, c: Counters, env: Scopes<Value>, store: Store, i: Value, store': Store)
    requires s.ForRange? && Good(env, names, store, c.vars)
    requires var r := PartsOf(s, names, c);
             && Spared(store, store', r.test, r.test)
             && (s.counter.Some? ==> r.test + 1 in store' && store'[r.test + 1] == i)
    ensures var r := PartsOf(s, names, c);
            && Good(env + [CounterScope(s.counter, i)], r.inner, store', r.c.vars)
            && Good(env, names, store', r.c.vars)
            && |r.inner| == |names| + 1 && r.inner[..|names|] == names
            && (forall u: nat :: u < c.vars && IsNamed(r.inner, u) ==> IsNamed(names, u))
            && !IsNamed(r.inner, c.vars) && (!s.to.Name? ==> !IsNamed(r.inner, c.vars + 1))
  {
    hide PartsOf, Good, IsNamed, Spared;
    PartsGrow(s, names, c);
    PartsInner(s, names, c);
    var r := PartsOf(s, names, c);
    InnerNames(names, CounterNames(s.counter, r.test + 1), c.vars);
    SparedLess(store, store', r.test, r.test, c.vars);
    ScopeEntered(env, names, store, c.vars, s.counter, r.test + 1, i, store', r.c.vars);
  }

  lemma PartsInner(s: Stmt, names: Names, c: Counters)
    requires s.ForRange?
    ensures var r := PartsOf(s, names, c);
            && r.inner == names + [CounterNames(s.counter, r.test + 1)]
            && r.named == (if s.counter.Some? then [Assign(r.test + 1, c.vars)] else [])
            && r.body == LowerBlock(s.body, r.inner, Some(c.labels), r.c)
  {
    hide LowerBlock, ToVar, ToValue;
  }

  lemma PartsHi(s: Stmt, names: Names, c: Counters)
    requires s.ForRange?
    ensures s.to.Name? ==> PartsOf(s, names, c).hi.vn == VarNamed(names, s.to.name)
  {
  }

  /** A scope with at most one name, whose variable is fresh. */
  lemma ScopeEntered(env: Scopes<Value>, names: Names, store: Store, n: nat, counter: Option<string>, vn: nat, i: Value,
                     store': Store, n': nat)
    requires Good(env, names, store, n) && n + 2 <= vn <= n'
        && (counter.Some? ==> vn < n' && vn in store' && store'[vn] == i)
    requires Spared(store, store', n, vn - 1)
    ensures var inner := names + [CounterNames(counter, vn)];
            && Good(env + [CounterScope(counter, i)], inner, store', n')
            && Good(env, names, store', n')
            && inner[..|names|] == names
            && !IsNamed(inner, n) && !IsNamed(inner, n + 1)
  {
    hide Below, Distinct, Spared;
    var top, topEnv := CounterNames(counter, vn), CounterScope(counter, i);
    ScopeMatches(env, names, store, n, counter, vn, i, store');
    ScopeDistinct(names, n, counter, vn, n');
    FreshIsFree(env, names, store, n, vn - 1);
    MatchesAfter(env, names, store, store', n, vn - 1);
  }

  lemma ScopeMatches(env: Scopes<Value>, names: Names, store: Store, n: nat, counter: Option<string>, vn: nat,
                     i: Value, store': Store)
    requires Matches(env, names, store) && Below(names, n) && n + 2 <= vn
    requires counter.Some? ==> vn in store' && store'[vn] == i
    requires Spared(store, store', n, vn - 1)
    ensures Matches(env + [CounterScope(counter, i)], names + [CounterNames(counter, vn)], store')
  {
  }

  lemma ScopeDistinct(names: Names, n: nat, counter: Option<string>, vn: nat, n': nat)
    requires Below(names, n) && Distinct(names) && n + 2 <= vn <= n' && (counter.Some? ==> vn < n')
    ensures var inner := names + [CounterNames(counter, vn)];
            Below(names, n') && Below(inner, n') && Distinct(inner) && !IsNamed(inner, n) && !IsNamed(inner, n + 1)
  {
  }

  lemma CompareRuns(w: World, program: seq<Inst>, p: nat, left: nat, right: nat, result: nat, store: Store,
                    trace: seq<Event>, b: bool)
    returns (n: nat)
    requires At(program, p, [Compare(LesserOrEqual, left, right, result)])
    requires left in store && right in store && w.compare(LesserOrEqual, store[left], store[right]) == Some(b)
    ensures n == 1 && Goes(w, program, p, store, trace, n, p + 1, store[result := Bool(b)], trace)
  {
    n := OneStep(w, program, p, Compare(LesserOrEqual, left, right, result), store, trace, store[result := Bool(b)],
        trace);
  }

  /** The counter is older than the variable of the test. */
  lemma TestIsNew(s: Stmt, names: Names, c: Counters, i: Value, bound: Bound, store: Store)
    requires s.ForRange? && RangeHead(s, names, c, i, bound, store)
    ensures c.vars < PartsOf(s, names, c).test && c.vars in store && store[c.vars] == i
  {
    hide PartsOf;
    PartsGrow(s, names, c);
  }

  /** From the head of a range loop past the comparison. */
  lemma RangeCompareRuns(w: World, program: seq<Inst>, p: nat, s: Stmt, names: Names, c: Counters, i: Value,
                         bound: Bound,
                         env: Scopes<Value>, trace: seq<Event>, store: Store, hi: Value, more: bool)
    returns (n: nat)
    requires s.ForRange? && UniqueLabels(program) && At(program, p, LowerRange(s, names, c).code)
    requires Good(env, names, store, c.vars) && RangeHead(s, names, c, i, bound, store)
    requires BoundValue(bound, env) == Some(hi) && w.compare(LesserOrEqual, i, hi) == Some(more)
    ensures var r := PartsOf(s, names, c);
            var head := p + |r.hi.code| + |r.lo.code| + 1;
            Goes(w, program, head, store, trace, n, head + 2, store[r.test := Bool(more)], trace) && n > 0
  {
    hide At, UniqueLabels, Find, Goes, PartsOf, Below, Distinct, LowerRange, StepInst, Matches;
    PartsGrow(s, names, c);
    PartsHi(s, names, c);
    RangeShape(program, p, s, names, c);
    var r := PartsOf(s, names, c);
    var head := p + |r.hi.code| + |r.lo.code| + 1;
    MarkerRuns(w, program, head, LabelAt(Label(LoopStart, c.labels)), store, trace);
    if bound.Reread? {
      ResolveMatches(env, names, store, bound.name);
    }
    var store1 := store[r.test := Bool(more)];
    var n1 := CompareRuns(w, program, head + 1, c.vars, r.hi.vn, r.test, store, trace, more);
    GoesOn(w, program, head, store, trace, 1, head + 1, store, trace, n1, head + 2, store1, trace);
    n := 1 + n1;
  }

  /** The test at the head, and the copy of the counter if the loop names one. */
  lemma RangeTestRuns(w: World, program: seq<Inst>, p: nat, s: Stmt, names: Names, c: Counters, i: Value, bound: Bound,
                      env: Scopes<Value>, trace: seq<Event>, store: Store, hi: Value, more: bool)
    returns (n: nat, store': Store)
    requires s.ForRange? && UniqueLabels(program) && At(program, p, LowerRange(s, names, c).code)
    requires Good(env, names, store, c.vars) && RangeHead(s, names, c, i, bound, store)
    requires BoundValue(bound, env) == Some(hi) && w.compare(LesserOrEqual, i, hi) == Some(more)
    ensures var r := PartsOf(s, names, c);
            var head := p + |r.hi.code| + |r.lo.code| + 1;
            && Goes(w, program, head, store, trace, n,
                    if more then head + 3 + |r.named| else head + 3 + |r.named| + |r.body.code| + 4, store', trace)
            && n > 0
            && Spared(store, store', r.test, r.test)
            && (more && s.counter.Some? ==> r.test + 1 in store' && store'[r.test + 1] == i)
  {
    hide At, UniqueLabels, Find, Goes, PartsOf, Below, Distinct, LowerRange, StepInst, Matches, Good, RangeHead;
    var n1 := RangeCompareRuns(w, program, p, s, names, c, i, bound, env, trace, store, hi, more);
    RangeShape(program, p, s, names, c);
    PartsInner(s, names, c);
    TestIsNew(s, names, c, i, bound, store);
    var r := PartsOf(s, names, c);
    var head := p + |r.hi.code| + |r.lo.code| + 1;
    var store1 := store[r.test := Bool(more)];
    var jump := JumpIf(false, false, r.test, Label(LoopExit, c.labels));
    if !more {
      var exit := head + 3 + |r.named| + |r.body.code| + 4;
      JumpTaken(w, program, head + 2, jump, exit, store1, trace);
      GoesOn(w, program, head, store, trace, n1, head + 2, store1, trace, 1, exit, store1, trace);
      n, store' := n1 + 1, store1;
    } else {
      var n2 := JumpNotTaken(w, program, head + 2, jump, store1, trace);
      GoesOn(w, program, head, store, trace, n1, head + 2, store1, trace, n2, head + 3, store1, trace);
      n, store' := n1 + 1, store1;
      if s.counter.Some? {
        store' := store1[r.test + 1 := i];
        var n3 := UpdateStep(w, program, head + 3, Assign(r.test + 1, c.vars), r.test + 1, c.vars, store1, trace, i);
        GoesOn(w, program, head, store, trace, n1 + 1, head + 3, store1, trace, n3, head + 4, store', trace);
        n := n1 + 2;
      }
    }
  }

  /** Only the hidden variables matter to the head, and bodies leave them alone. */
  lemma HeadSurvives(s: Stmt, names: Names, c: Counters, i: Value, bound: Bound, store: Store, store1: Store,
                     inner: Names, n: nat, store2: Store, i': Value)
    requires s.ForRange? && RangeHead(s, names, c, i, bound, store)
    requires c.vars < n && (!s.to.Name? ==> c.vars + 1 < n) && Spared(store, store1, n, n)
        && Kept(store1, store2, inner, n)
    requires !IsNamed(inner, c.vars) && (!s.to.Name? ==> !IsNamed(inner, c.vars + 1))
    ensures c.vars in store2 && store2[c.vars] == i
    ensures RangeHead(s, names, c, i', bound, store2[c.vars := i'])
  {
  }

  /** What follows the body of one turn. */
  function AfterTurn(w: World, s: Stmt, i: Value, bound: Bound, l: Outcome, fuel: nat): Outcome
    requires s.ForRange? && fuel > 0
  {
    match l
    case Normal(env', trace') => NextTurn(w, s, i, bound, env', trace', fuel)
    case Continued(env', trace') => NextTurn(w, s, i, bound, env', trace', fuel)
    case Broke(env', trace') => Normal(env', trace')
    case o => o
  }

  lemma {:induction false} RangeTurnsRun(w: World, program: seq<Inst>, p: nat, s: Stmt, names: Names, loop: LoopId,
                                         c: Counters, i: Value, bound: Bound,
                                         env: Scopes<Value>, trace: seq<Event>, store: Store, fuel: nat)
    returns (n: nat, k: Config)
    requires s.ForRange?
    requires Entered(program, p, LowerRange(s, names, c).code, loop, env, names, store, c.vars)
    requires Accepted(s, names, loop, c)
    requires RangeHead(s, names, c, i, bound, store)
    ensures var a := LowerRange(s, names, c);
            var r := PartsOf(s, names, c);
            var o := ExecRange(w, s, i, bound, env, trace, fuel);
            && Reaches(w, program, p + |r.hi.code| + |r.lo.code| + 1, store, trace, n, k)
            && Ends(o, p + |a.code|, names, a.next.vars, names, store, c.vars, k)
            && Escapes(program, o, loop, names, store, c.vars, fuel, n, k)
    decreases fuel, s, 0
  {
    hide At, UniqueLabels, Find, Goes, Reaches, Good, Kept, LoopLabels, ExecBlock, PartsOf, Matches, Below, Distinct,
        Spared,
         LowerRange, RangeHead, BoundValue, ExecRange, IsNamed, Accepted, Leave, CounterScope;
    RangeUnfolds(w, s, i, bound, env, trace, fuel);
    var r := PartsOf(s, names, c);
    var a := LowerRange(s, names, c);
    var head := p + |r.hi.code| + |r.lo.code| + 1;
    n, k := 0, Running(head, store, trace);
    StartsHere(w, program, head, store, trace);
    var hi := BoundValue(bound, env);
    if fuel == 0 || hi.None? || w.compare(LesserOrEqual, i, hi.value).None? {
      return;
    }
    var more := w.compare(LesserOrEqual, i, hi.value).value;
    RangeShape(program, p, s, names, c);
    PartsGrow(s, names, c);
    GoodParts(env, names, store, c.vars);
    BelowMore(names, c.vars, a.next.vars);
    var n1, store1 := RangeTestRuns(w, program, p, s, names, c, i, bound, env, trace, store, hi.value, more);
    SparedIsKept(store, store1, names, r.test, c.vars, r.test);
    var at := head + 3 + |r.named|;
    if !more {
      SparedLess(store, store1, r.test, r.test, c.vars);
      GoodAfter(env, names, store, store1, c.vars, r.test);
      n, k := ExitRuns(w, program, head, store, trace, names, c.vars, c.labels, n1, at + |r.body.code| + 4, store1,
          trace, env, c.vars, a.next.vars);
    } else {
      var n2;
      n2, k := RangeBodyRuns(w, program, p, s, names, loop, c, i, bound, env, trace, store, store1, fuel);
      n := n1 + n2;
      ReachesOn(w, program, head, store, trace, n1, at, store1, trace, n2, k);
      var o := ExecRange(w, s, i, bound, env, trace, fuel);
      EscapesLater(program, o, loop, names, store, c.vars, fuel, n1, names, store1, c.vars, n2, k);
      if o.Normal? {
        KeptChain(store, store1, k.store, names, c.vars, names, c.vars);
      }
    }
  }

  lemma RangeUnfolds(w: World, s: Stmt, i: Value, bound: Bound, env: Scopes<Value>, trace: seq<Event>, fuel: nat)
    requires s.ForRange?
    ensures var o := ExecRange(w, s, i, bound, env, trace, fuel);
            var hi := BoundValue(bound, env);
            if fuel == 0 then o == OutOfFuel(trace)
            else if hi.None? || w.compare(LesserOrEqual, i, hi.value).None? then o == Meaningless
            else if !w.compare(LesserOrEqual, i, hi.value).value then o == Normal(env, trace)
            else o == AfterTurn(w, s, i, bound,
                                Leave(ExecBlock(w, s.body, env + [CounterScope(s.counter, i)], trace, fuel), |env|),
                                fuel)
  {
  }

  lemma GoodAfter(env: Scopes<Value>, names: Names, store: Store, store': Store, n: nat, dest: nat)
    requires Good(env, names, store, n) && Spared(store, store', n, dest) && n <= dest
    ensures Good(env, names, store', n)
  {
    FreshIsFree(env, names, store, n, dest);
    MatchesAfter(env, names, store, store', n, dest);
  }

  /** The body of one turn of a range loop, in its own scope. */
  lemma {:induction false} RangeScopeRuns(w: World, program: seq<Inst>, p: nat, s: Stmt, names: Names, loop: LoopId,
                                          c: Counters, i: Value, env: Scopes<Value>, trace: seq<Event>,
                                          store0: Store, store: Store, fuel: nat)
    returns (n: nat, k: Config)
    requires s.ForRange?
    requires UniqueLabels(program) && At(program, p, LowerRange(s, names, c).code)
    requires Accepted(s, names, loop, c) && Good(env, names, store0, c.vars)
    requires var r := PartsOf(s, names, c);
             && Spared(store0, store, r.test, r.test)
             && (s.counter.Some? ==> r.test + 1 in store && store[r.test + 1] == i)
    ensures var r := PartsOf(s, names, c);
            var at := p + |r.hi.code| + |r.lo.code| + 4 + |r.named|;
            var l := Leave(ExecBlock(w, s.body, env + [CounterScope(s.counter, i)], trace, fuel), |env|);
            && Reaches(w, program, at, store, trace, n, k)
            && Left(program, l, at + |r.body.code|, Some(c.labels), names, r.inner, r.body.next.vars, store, r.c.vars,
                fuel, n, k)
            && (forall u: nat :: u < c.vars && IsNamed(r.inner, u) ==> IsNamed(names, u))
            && !IsNamed(r.inner, c.vars) && (!s.to.Name? ==> !IsNamed(r.inner, c.vars + 1))
    decreases fuel, s.body, 2
  {
    hide At, UniqueLabels, Find, Reaches, Kept, LoopLabels, ExecBlock, PartsOf, Matches, Below, Distinct,
         Spared, LowerRange, CounterScope, IsNamed, Accepted, Leave, LowerBlock, Left;
    var r := PartsOf(s, names, c);
    RangeShape(program, p, s, names, c);
    PartsInner(s, names, c);
    CounterEnters(s, names, c, env, store0, i, store);
    AcceptedBody(s, names, loop, c);
    n, k := ScopeRuns(w, program, p + |r.hi.code| + |r.lo.code| + 4 + |r.named|, s.body, names, r.inner,
        Some(c.labels), r.c,
                      env, env + [CounterScope(s.counter, i)], trace, store, fuel);
  }

  lemma {:induction false} RangeBodyRuns(w: World, program: seq<Inst>, p: nat, s: Stmt, names: Names, loop: LoopId,
                                         c: Counters, i: Value, bound: Bound, env: Scopes<Value>, trace: seq<Event>,
                                         store0: Store, store: Store, fuel: nat)
    returns (n: nat, k: Config)
    requires s.ForRange? && fuel > 0
    requires UniqueLabels(program) && At(program, p, LowerRange(s, names, c).code) && LoopLabels(program, loop)
    requires Accepted(s, names, loop, c) && Good(env, names, store0, c.vars)
    requires RangeHead(s, names, c, i, bound, store0)
    requires var r := PartsOf(s, names, c);
             && Spared(store0, store, r.test, r.test)
             && (s.counter.Some? ==> r.test + 1 in store && store[r.test + 1] == i)
    ensures var a := LowerRange(s, names, c);
            var r := PartsOf(s, names, c);
            var o := AfterTurn(w, s, i, bound, Leave(ExecBlock(w, s.body, env + [CounterScope(s.counter, i)], trace,
                fuel), |env|), fuel);
            && Reaches(w, program, p + |r.hi.code| + |r.lo.code| + 4 + |r.named|, store, trace, n, k)
            && Ends(o, p + |a.code|, names, a.next.vars, names, store, c.vars, k)
            && Escapes(program, o, loop, names, store, c.vars, fuel, n, k)
    decreases fuel, s.body, 3
  {
    hide At, UniqueLabels, Find, Goes, Reaches, Kept, LoopLabels, ExecBlock, ExecRange, PartsOf, Matches, Below,
        Distinct,
         Spared, LowerRange, RangeHead, CounterScope, IsNamed, Accepted, Leave, NextTurn;
    var r := PartsOf(s, names, c);
    var a := LowerRange(s, names, c);
    var at := p + |r.hi.code| + |r.lo.code| + 4 + |r.named|;
    var q := at + |r.body.code|;
    RangeShape(program, p, s, names, c);
    PartsGrow(s, names, c);
    BelowMore(names, c.vars, a.next.vars);
    var n2, k2 := RangeScopeRuns(w, program, p, s, names, loop, c, i, env, trace, store0, store, fuel);
    var l := Leave(ExecBlock(w, s.body, env + [CounterScope(s.counter, i)], trace, fuel), |env|);
    n, k := n2, k2;
    if l.Normal? || l.Continued? || l.Broke? {
      ReachesGoes(w, program, at, store, trace, n2, k2);
      KeptNothing(store, names, c.vars);
      KeptChain(store, store, k2.store, names, c.vars, r.inner, r.c.vars);
      NextTurnStops(w, s, i, bound, l.env, l.trace, fuel);
    }
    if l.Broke? {
      n, k := ExitRuns(w, program, at, store, trace, names, c.vars, c.labels, n2, q + 4, k2.store, l.trace, l.env,
          r.body.next.vars, a.next.vars);
    } else if (l.Normal? || l.Continued?) && w.arith(Add, i, Int(1)).Some? {
      KeptLess(store, k2.store, r.inner, r.c.vars, r.test);
      HeadSurvives(s, names, c, i, bound, store0, store, r.inner, r.test, k2.store, w.arith(Add, i, Int(1)).value);
      GoodAgain(l.env, names, k2.store, r.body.next.vars, c.vars);
      var n3;
      n3, k := RangeOnward(w, program, p, s, names, loop, c, i, bound, l.env, l.trace, k2.store, fuel);
      n := n2 + n3;
      RunsJoin(w, program, at, store, trace, n2, q, k2.store, l.trace, n3, k,
          NextTurn(w, s, i, bound, l.env, l.trace, fuel),
               p + |a.code|, names, a.next.vars, loop, c.vars, fuel);
    }
  }

  lemma NextTurnStops(w: World, s: Stmt, i: Value, bound: Bound, env: Scopes<Value>, trace: seq<Event>, fuel: nat)
    requires s.ForRange? && fuel > 0
    ensures w.arith(Add, i, Int(1)).None? ==> NextTurn(w, s, i, bound, env, trace, fuel) == Meaningless
  {
  }

  /** From the continue label on: one more step of the counter, and the remaining turns. */
  lemma {:induction false} RangeOnward(w: World, program: seq<Inst>, p: nat, s: Stmt, names: Names, loop: LoopId,
                                       c: Counters, i: Value, bound: Bound, env: Scopes<Value>, trace: seq<Event>,
                                       store: Store, fuel: nat)
    returns (n: nat, k: Config)
    requires s.ForRange? && fuel > 0
    requires UniqueLabels(program) && At(program, p, LowerRange(s, names, c).code) && LoopLabels(program, loop)
    requires Accepted(s, names, loop, c) && Good(env, names, store, c.vars)
    requires w.arith(Add, i, Int(1)).Some?
    requires var i' := w.arith(Add, i, Int(1)).value;
             c.vars in store && store[c.vars] == i && RangeHead(s, names, c, i', bound, store[c.vars := i'])
    ensures var a := LowerRange(s, names, c);
            var r := PartsOf(s, names, c);
            var o := NextTurn(w, s, i, bound, env, trace, fuel);
            && Reaches(w, program, p + |r.hi.code| + |r.lo.code| + 4 + |r.named| + |r.body.code|, store, trace, n, k)
            && Ends(o, p + |a.code|, names, a.next.vars, names, store, c.vars, k)
            && Escapes(program, o, loop, names, store, c.vars, fuel, n, k)
    decreases fuel, s.body, 1
  {
    hide At, UniqueLabels, Find, Goes, Reaches, Good, Kept, LoopLabels, ExecRange, PartsOf, Matches, Below, Distinct,
         Spared, LowerRange, RangeHead, IsNamed, Accepted;
    var r := PartsOf(s, names, c);
    var head := p + |r.hi.code| + |r.lo.code| + 1;
    var q := head + 3 + |r.named| + |r.body.code|;
    var i' := w.arith(Add, i, Int(1)).value;
    var store' := store[c.vars := i'];
    RangeShape(program, p, s, names, c);
    var n1 := StepBackRuns(w, program, q, c.labels, head, c.vars, store, trace, i, i');
    SparedBut(store, c.vars, i', c.vars);
    GoodAfter(env, names, store, store', c.vars, c.vars);
    SparedIsKept(store, store', names, c.vars, c.vars, c.vars);
    var n2;
    n2, k := RangeTurnsRun(w, program, p, s, names, loop, c, i', bound, env, trace, store', fuel - 1);
    ReachesOn(w, program, q, store, trace, n1, head, store', trace, n2, k);
    n := n1 + n2;
    var o := ExecRange(w, s, i', bound, env, trace, fuel - 1);
    EscapesNextTurn(program, o, loop, names, store, c.vars, fuel, n, store', n2, k);
    if o.Normal? {
      KeptChain(store, store', k.store, names, c.vars, names, c.vars);
    }
  }

  lemma AcceptedBody(s: Stmt, names: Names, loop: LoopId, c: Counters)
    requires s.ForRange? && Accepted(s, names, loop, c)
    ensures var r := PartsOf(s, names, c); AcceptedBlock(s.body, r.inner, Some(c.labels), r.c)
    ensures Scoped(s.to, names) && Scoped(s.from, names)
  {
    hide LowerBlock, ToVar, Scoped, ToValue;
  }

  lemma KeptLess(store: Store, store': Store, names: Names, n: nat, m: nat)
    requires Kept(store, store', names, n) && m <= n
    ensures Kept(store, store', names, m)
  {
  }

  /** From the continue label of a range loop back to its head, with the hidden variable moved on. */
  lemma StepBackRuns(w: World, program: seq<Inst>, q: nat, id: nat, head: nat, iter: nat, store: Store,
                     trace: seq<Event>,
                     i: Value, i': Value)
    returns (n: nat)
    requires At(program, q, [LabelAt(Label(LoopContinue, id))]) && At(program, q + 1, [Increment(iter)])
    requires At(program, q + 2, [Jump(Label(LoopStart, id))]) && Find(program, Label(LoopStart, id)) == Some(head)
    requires iter in store && store[iter] == i && w.arith(Add, i, Int(1)) == Some(i')
    ensures n > 0 && Goes(w, program, q, store, trace, n, head, store[iter := i'], trace)
  {
    var store' := store[iter := i'];
    MarkerRuns(w, program, q, LabelAt(Label(LoopContinue, id)), store, trace);
    var n1 := OneStep(w, program, q + 1, Increment(iter), store, trace, store', trace);
    GoesOn(w, program, q, store, trace, 1, q + 1, store, trace, n1, q + 2, store', trace);
    JumpRuns(w, program, q + 2, Label(LoopStart, id), head, store', trace);
    GoesOn(w, program, q, store, trace, 1 + n1, q + 2, store', trace, 1, head, store', trace);
    n := 2 + n1;
  }

  lemma {:induction false} RangeRuns(w: World, program: seq<Inst>, p: nat, s: Stmt, names: Names, loop: LoopId,
                                     c: Counters, env: Scopes<Value>, trace: seq<Event>, store: Store, fuel: nat)
    returns (n: nat, k: Config)
    requires s.ForRange?
    requires Entered(program, p, LowerRange(s, names, c).code, loop, env, names, store, c.vars)
    requires Accepted(s, names, loop, c)
    ensures var a := LowerRange(s, names, c);
            var o := ExecStmt(w, s, env, trace, fuel);
            && Reaches(w, program, p, store, trace, n, k)
            && Ends(o, p + |a.code|, a.names, a.next.vars, names, store, c.vars, k)
            && Escapes(program, o, loop, names, store, c.vars, fuel, n, k)
    decreases fuel, s, 1
  {
    hide At, UniqueLabels, Find, Goes, Reaches, Kept, LoopLabels, LowerBlock, ExecRange, Matches, Below, Distinct,
        Free, Spared, Jumps, LowerRange;
    n, k := 0, Running(p, store, trace);
    StartsHere(w, program, p, store, trace);
    var eb := EvalBound(w, s.to, env, trace);
    if eb.None? {
      return;
    }
    var bound, trace1 := eb.value.0, eb.value.1;
    var ef := Eval(w, s.from, env, trace1);
    if ef.None? {
      return;
    }
    var r := PartsOf(s, names, c);
    var head := p + |r.hi.code| + |r.lo.code| + 1;
    LowerRangeGrows(s, names, c);
    var n1, store1 := RangeStarts(w, program, p, s, names, c, env, trace, store, bound, trace1, ef.value);
    var n2;
    n2, k := RangeTurnsRun(w, program, p, s, names, loop, c, ef.value.value, bound, env, ef.value.trace, store1, fuel);
    n := n1 + n2;
    var a := LowerRange(s, names, c);
    RunsJoin(w, program, p, store, trace, n1, head, store1, ef.value.trace, n2, k, ExecStmt(w, s, env, trace, fuel),
        p + |a.code|, names,
             a.next.vars, loop, c.vars, fuel);
  }

  /** Both bounds, the upper one first. */
  /** From the start of a range loop to its head. */
  lemma RangeStarts(w: World, program: seq<Inst>, p: nat, s: Stmt, names: Names, c: Counters,
                    env: Scopes<Value>, trace: seq<Event>, store: Store, bound: Bound, trace1: seq<Event>,
                    lo: Evaluated)
    returns (n: nat, store': Store)
    requires s.ForRange? && UniqueLabels(program) && At(program, p, LowerRange(s, names, c).code)
        && Good(env, names, store, c.vars)
    requires EvalBound(w, s.to, env, trace) == Some((bound, trace1)) && Eval(w, s.from, env, trace1) == Some(lo)
    ensures var r := PartsOf(s, names, c);
            && Goes(w, program, p, store, trace, n, p + |r.hi.code| + |r.lo.code| + 1, store', lo.trace) && n > 0
            && Good(env, names, store', c.vars) && Kept(store, store', names, c.vars)
            && RangeHead(s, names, c, lo.value, bound, store')
  {
    hide At, UniqueLabels, Find, Goes, Good, LowerRange, PartsOf, RangeHead, Spared, Kept;
    var r := PartsOf(s, names, c);
    RangeShape(program, p, s, names, c);
    PartsGrow(s, names, c);
    var n1, store1 := BoundsRun(w, program, p, s, names, c, env, trace, store, bound, trace1, lo);
    MarkerRuns(w, program, p + |r.hi.code| + |r.lo.code|, OutsideLoopMutations(c.lists), store1, lo.trace);
    var head := p + |r.hi.code| + |r.lo.code| + 1;
    GoesOn(w, program, p, store, trace, n1, head - 1, store1, lo.trace, 1, head, store1, lo.trace);
    GoodAfter(env, names, store, store1, c.vars, c.vars);
    SparedIsKept(store, store1, names, c.vars, c.vars, c.vars);
    n, store' := n1 + 1, store1;
  }

  lemma BoundsRun(w: World, program: seq<Inst>, p: nat, s: Stmt, names: Names, c: Counters,
                  env: Scopes<Value>, trace: seq<Event>, store: Store, bound: Bound, trace1: seq<Event>, lo: Evaluated)
    returns (n: nat, store': Store)
    requires s.ForRange? && UniqueLabels(program) && Good(env, names, store, c.vars)
    requires var r := PartsOf(s, names, c); At(program, p, r.hi.code) && At(program, p + |r.hi.code|, r.lo.code)
    requires EvalBound(w, s.to, env, trace) == Some((bound, trace1)) && Eval(w, s.from, env, trace1) == Some(lo)
    ensures var r := PartsOf(s, names, c);
            && Goes(w, program, p, store, trace, n, p + |r.hi.code| + |r.lo.code|, store', lo.trace)
            && Spared(store, store', c.vars, c.vars)
            && RangeHead(s, names, c, lo.value, bound, store')
  {
    hide At, UniqueLabels, Find, Goes, Matches, Below, Distinct, LowerBlock, Free, Spared, ToVar;
    var r := PartsOf(s, names, c);
    var c0 := NewVar(NewLabel(NewList(c)));
    PartsGrow(s, names, c);
    GoodParts(env, names, store, c.vars);
    BelowMore(names, c.vars, c0.vars);
    var n1, store1 := 0, store;
    if s.to.Name? {
      StartsHere(w, program, p, store, trace);
      SparedNothing(store, c.vars, c.vars);
    } else {
      var hi := Eval(w, s.to, env, trace).value;
      n1, store1 := ToValueRuns(w, program, p, s.to, names, c0, env, trace, store, hi);
      FreshIsFree(env, names, store, c.vars, c0.vars);
      MatchesAfter(env, names, store, store1, c0.vars, c0.vars);
    }
    BelowMore(names, c.vars, r.hi.next.vars);
    FreshIsFree(env, names, store1, c.vars, c.vars);
    var n2;
    n2, store' := ToVarRuns(w, program, p + |r.hi.code|, s.from, names, c.vars, r.hi.next, env, trace1, store1, lo);
    GoesOn(w, program, p, store, trace, n1, p + |r.hi.code|, store1, trace1, n2, p + |r.hi.code| + |r.lo.code|, store',
        lo.trace);
    n := n1 + n2;
    if !s.to.Name? {
      SparedOne(store1, store', r.hi.next.vars, c.vars, c.vars + 1);
      SparedLess(store, store1, c0.vars, c0.vars, c.vars);
      SparedLess(store1, store', r.hi.next.vars, c.vars, c.vars);
      SparedChain(store, store1, store', c.vars, c.vars, c0.vars, c.vars, c.vars, c.vars);
    } else {
      SparedLess(store1, store', r.hi.next.vars, c.vars, c.vars);
    }
  }
}
