/** Well-typed bodies have a meaning, and what they are compiled to never gets stuck. */
module TypeSafety {
  import opened Ir
  import opened Options
  import opened Language
  import opened Typing
  import L = Lowering
  import T = Typers
  import P = Procs
  import E = Typable
  import W = Precompute

  predicate HasType(v: Value, t: Type) {
    match t
    case IntType => v.Int?
    case BoolType => v.Bool?
    case VoidType => v != Undefined
  }

  // ----- What is needed of the world -----

  /** Arithmetic but for division is there for all integers, comparison as far as it is allowed, and calls return what
      their signatures say. */
  ghost predicate Complete(w: World, rules: Rules) {
    && rules.strict
    && (forall op: ArithOp, a: int, b: int :: op != Div ==>
          w.arith(op, Int(a), Int(b)).Some? && w.arith(op, Int(a), Int(b)).value.Int?)
    && (forall how: ComparisonMethod, a: int, b: int :: w.compare(how, Int(a), Int(b)).Some?)
    && (forall how: ComparisonMethod, a: bool, b: bool :: how == AreEqual || how == NotEqual ==>
          w.compare(how, Bool(a), Bool(b)).Some?)
    && CallsReturn(w.call, rules.sigs)
  }

  lemma AreStrict(w: World, rules: Rules)
    requires Complete(w, rules)
    ensures rules.strict
  {
  }

  ghost predicate CallsReturn(call: (string, seq<Value>, seq<Event>) -> Value, sigs: Signatures) {
    forall callee: string, vs: seq<Value>, trace: seq<Event> | callee in sigs ::
      HasType(call(callee, vs, trace), sigs[callee].result)
  }

  /** The world of 64-bit integers is one. */
  lemma WordsAreComplete(call: (string, seq<Value>, seq<Event>) -> Value, sigs: Signatures)
    requires CallsReturn(call, sigs)
    ensures Complete(W.Words(call), Rules(sigs, true))
  {
  }

  /** Each name has a value of its type. */
  ghost predicate Agrees(env: Scopes<Value>, ctx: Context) {
    |env| == |ctx| && forall i :: 0 <= i < |ctx| ==> LevelAgrees(env[i], ctx[i])
  }

  ghost predicate LevelAgrees(level: map<string, Value>, types: map<string, Type>) {
    level.Keys == types.Keys && forall x :: x in types ==> HasType(level[x], types[x])
  }

  lemma {:induction false} ResolvesTyped(env: Scopes<Value>, ctx: Context, x: string)
    requires Agrees(env, ctx)
    ensures Resolves(env, x) <==> Resolves(ctx, x)
    ensures Resolves(ctx, x) ==> HasType(Resolve(env, x), Resolve(ctx, x))
    decreases |ctx|
  {
    if ctx != [] {
      var n := |ctx| - 1;
      assert LevelAgrees(env[n], ctx[n]);
      ResolvesTyped(env[..n], ctx[..n], x);
    }
  }

  lemma BindAgrees(env: Scopes<Value>, ctx: Context, x: string, v: Value, t: Type)
    requires Agrees(env, ctx) && ctx != [] && HasType(v, t)
    ensures Agrees(Bind(env, x, v), Bind(ctx, x, t))
  {
    var n := |ctx| - 1;
    assert LevelAgrees(env[n], ctx[n]);
    assert LevelAgrees(env[n][x := v], ctx[n][x := t]);
  }

  lemma {:induction false} SetAgrees(env: Scopes<Value>, ctx: Context, x: string, v: Value)
    requires Agrees(env, ctx) && Resolves(ctx, x) && HasType(v, Resolve(ctx, x))
    ensures Resolves(env, x) && Agrees(Set(env, x, v), ctx)
    decreases |ctx|
  {
    ResolvesTyped(env, ctx, x);
    var n := |ctx| - 1;
    assert LevelAgrees(env[n], ctx[n]);
    if x in ctx[n] {
      assert LevelAgrees(env[n][x := v], ctx[n]);
    } else {
      SetAgrees(env[..n], ctx[..n], x, v);
    }
  }

  lemma PushAgrees(env: Scopes<Value>, ctx: Context, level: map<string, Value>, types: map<string, Type>)
    requires Agrees(env, ctx) && LevelAgrees(level, types)
    ensures Agrees(env + [level], ctx + [types])
  {
  }

  // ----- Expressions -----

  /** The value of a typed expression is there and has the type. */
  lemma {:induction false} EvalTyped(w: World, e: Expr, env: Scopes<Value>, trace: seq<Event>, ctx: Context,
                                     rules: Rules)
    requires Complete(w, rules) && Agrees(env, ctx) && TypeOf(e, ctx, rules).Some?
    ensures Eval(w, e, env, trace).Some? && HasType(Eval(w, e, env, trace).value.value, TypeOf(e, ctx, rules).value)
    decreases e, 1
  {
    hide Complete, Agrees;
    match e
    case Name(x) => ResolvesTyped(env, ctx, x);
    case Literal(_) =>
    case ProcCall(callee, args) =>
      EvalAllTyped(w, args, env, trace, ctx, rules);
      var a := EvalAll(w, args, env, trace).value;
      CallTyped(w, callee, a.values, a.trace, rules);
    case LogicalNot(r) => EvalTyped(w, r, env, trace, ctx, rules);
    case LogicalAnd(l, r) => EvalShortTyped(w, e, false, env, trace, ctx, rules);
    case LogicalOr(l, r) => EvalShortTyped(w, e, true, env, trace, ctx, rules);
    case Binary(op, l, r) =>
      EvalTyped(w, l, env, trace, ctx, rules);
      var a := Eval(w, l, env, trace).value;
      EvalTyped(w, r, env, a.trace, ctx, rules);
      AreStrict(w, rules);
      OperationTyped(w, op, a.value, Eval(w, r, env, a.trace).value.value, TypeOf(l, ctx, rules).value,
        TypeOf(r, ctx, rules).value, rules);
  }

  lemma CallTyped(w: World, callee: string, vs: seq<Value>, trace: seq<Event>, rules: Rules)
    requires Complete(w, rules) && callee in rules.sigs
    ensures HasType(w.call(callee, vs, trace), rules.sigs[callee].result)
  {
  }

  lemma OperationTyped(w: World, op: BinaryOp, a: Value, b: Value, s: Type, t: Type, rules: Rules)
    requires Complete(w, rules) && HasType(a, s) && HasType(b, t) && Combined(op, s, t, true).Some?
    ensures var v := Apply(w, op, a, b); v.Some? && HasType(v.value, Combined(op, s, t, true).value)
  {
    if s == IntType {
      assert op.Comparison? ==> w.compare(op.how, Int(a.i), Int(b.i)).Some?;
      assert op.Arithmetic? ==> w.arith(op.arith, Int(a.i), Int(b.i)).Some?;
    } else {
      assert w.compare(op.how, Bool(a.b), Bool(b.b)).Some?;
    }
  }

  lemma {:induction false} EvalShortTyped(w: World, e: Expr, decisive: bool, env: Scopes<Value>, trace: seq<Event>,
                                          ctx: Context, rules: Rules)
    requires Complete(w, rules) && Agrees(env, ctx) && (e.LogicalAnd? || e.LogicalOr?)
    requires TypeOf(e, ctx, rules).Some?
    ensures var r := EvalShort(w, e, decisive, env, trace); r.Some? && r.value.value.Bool?
    decreases e, 0
  {
    hide Complete, Agrees;
    ShortIs(e, ctx, rules);
    EvalTyped(w, e.left, env, trace, ctx, rules);
    EvalTyped(w, e.right, env, Eval(w, e.left, env, trace).value.trace, ctx, rules);
  }

  lemma {:induction false} EvalAllTyped(w: World, es: seq<Expr>, env: Scopes<Value>, trace: seq<Event>, ctx: Context,
                                        rules: Rules)
    requires Complete(w, rules) && Agrees(env, ctx) && TypesOf(es, ctx, rules).Some?
    ensures EvalAll(w, es, env, trace).Some?
    decreases es, 0
  {
    hide Complete, Agrees;
    if es != [] {
      EvalTyped(w, es[0], env, trace, ctx, rules);
      EvalAllTyped(w, es[1..], env, Eval(w, es[0], env, trace).value.trace, ctx, rules);
    }
  }

  // ----- Statements -----

  /** The statement means something, and leaves names with values of their types: those in scope after it, or, where
      a loop is left or goes on, those of the scopes around. */
  ghost predicate Fine(o: Outcome, after: Context) {
    after != [] &&
    match o
    case Normal(env, _) => Agrees(env, after)
    case Broke(env, _) => |env| == |after| && Agrees(env[..|after| - 1], after[..|after| - 1])
    case Continued(env, _) => |env| == |after| && Agrees(env[..|after| - 1], after[..|after| - 1])
    case Meaningless => false
    case _ => true
  }

  /** Whatever happens in an inner scope, the scopes around it are fine. */
  lemma LeaveFine(o: Outcome, ctx: Context, inner: Context)
    requires Fine(o, inner) && ctx != [] && |inner| == |ctx| + 1 && inner[..|ctx|] == ctx
    ensures Fine(Leave(o, |ctx|), ctx)
    ensures var l := Leave(o, |ctx|);
      (l.Normal? || l.Broke? || l.Continued?) ==> Agrees(l.env, ctx)
  {
    if o.Normal? || o.Broke? || o.Continued? {
      var env := o.env[..|ctx|];
      assert forall i :: 0 <= i < |ctx| ==> ctx[i] == inner[i];
      assert Agrees(env, ctx) by {
        forall i | 0 <= i < |ctx| ensures LevelAgrees(env[i], ctx[i]) {
          if o.Normal? {
            assert LevelAgrees(o.env[i], inner[i]);
          } else {
            assert LevelAgrees(o.env[..|ctx|][i], inner[..|ctx|][i]);
          }
        }
      }
      OuterAgrees(env, ctx);
    }
  }

  lemma OuterAgrees(env: Scopes<Value>, ctx: Context)
    requires Agrees(env, ctx) && ctx != []
    ensures Agrees(env[..|ctx| - 1], ctx[..|ctx| - 1])
  {
  }

  /** What follows in a block may bind more names of the innermost scope, but of no other. */
  lemma {:induction false} BlockFine(w: World, stmts: seq<Stmt>, env: Scopes<Value>, trace: seq<Event>, fuel: nat,
                                     ctx: Context, rules: Rules)
    returns (after: Context)
    requires Complete(w, rules) && Agrees(env, ctx) && ctx != [] && TypedBlock(stmts, ctx, rules)
    ensures |after| == |ctx| && after[..|ctx| - 1] == ctx[..|ctx| - 1]
    ensures Fine(ExecBlock(w, stmts, env, trace, fuel), after)
    decreases fuel, stmts, 0
  {
    hide Complete, Agrees, Typed, Extended;
    if stmts == [] {
      after := ctx;
      NothingFine(env, trace, ctx);
    } else {
      StmtFine(w, stmts[0], env, trace, fuel, ctx, rules);
      var mid := Extended(stmts[0], ctx, rules);
      match ExecStmt(w, stmts[0], env, trace, fuel) {
        case Normal(env', trace') =>
          after := BlockFine(w, stmts[1..], env', trace', fuel, mid, rules);
        case _ =>
          after := mid;
      }
    }
  }

  lemma NothingFine(env: Scopes<Value>, trace: seq<Event>, ctx: Context)
    requires Agrees(env, ctx) && ctx != []
    ensures Fine(Normal(env, trace), ctx)
  {
  }

  lemma {:induction false} StmtFine(w: World, s: Stmt, env: Scopes<Value>, trace: seq<Event>, fuel: nat, ctx: Context,
                                    rules: Rules)
    requires Complete(w, rules) && Agrees(env, ctx) && ctx != [] && Typed(s, ctx, rules)
    ensures Fine(ExecStmt(w, s, env, trace, fuel), Extended(s, ctx, rules))
    decreases fuel, s, 2
  {
    hide Complete, Bind, Set, Resolves, Resolve, TypedBlock, TypesOf, ExecBranch, ExecLoop, ExecRange, ExecUpdate,
        EvalBound;
    assert env != [];
    match s
    case Declaration(x, zero) => BindAgrees(env, ctx, x, zero, TypeOfValue(zero).value);
    case Declare(x, e) => DeclareFine(w, s, env, trace, fuel, ctx, rules);
    case SetTo(x, e) =>
      EvalTyped(w, e, env, trace, ctx, rules);
      SetAgrees(env, ctx, x, Eval(w, e, env, trace).value.value);
    case PlusEqual(x, e) => UpdateFine(w, Add, x, e, env, trace, ctx, rules);
    case MinusEqual(x, e) => UpdateFine(w, Sub, x, e, env, trace, ctx, rules);
    case Plain(e) =>
      if e.ProcCall? {
        EvalTyped(w, e, env, trace, ctx, rules);
      }
    case If(_, _) => BranchFine(w, s, env, trace, fuel, ctx, rules);
    case IfElse(_, _, _) => BranchFine(w, s, env, trace, fuel, ctx, rules);
    case Forever(_) => LoopFine(w, s, env, trace, fuel, ctx, rules);
    case While(_, _) => LoopFine(w, s, env, trace, fuel, ctx, rules);
    case ForRange(_, from, to, _) =>
      BoundTyped(w, to, env, trace, ctx, rules);
      var b := EvalBound(w, to, env, trace).value;
      EvalTyped(w, from, env, b.1, ctx, rules);
      var a := Eval(w, from, env, b.1).value;
      RangeFine(w, s, a.value, b.0, env, a.trace, fuel, ctx, rules);
    case Break => OuterAgrees(env, ctx);
    case Continue => OuterAgrees(env, ctx);
    case ReturnStmt(values) => EvalAllTyped(w, values, env, trace, ctx, rules);
  }

  /** The new name is in sight already while its value is computed, but has no type that the value could rely on. */
  lemma DeclareFine(w: World, s: Stmt, env: Scopes<Value>, trace: seq<Event>, fuel: nat, ctx: Context, rules: Rules)
    requires Complete(w, rules) && Agrees(env, ctx) && ctx != [] && s.Declare? && Typed(s, ctx, rules)
    ensures Fine(ExecStmt(w, s, env, trace, fuel), Extended(s, ctx, rules))
  {
    hide Complete, Agrees, Bind, Resolve, Eval;
    AreStrict(w, rules);
    var x, e := s.name, s.e;
    ResolvesTyped(env, ctx, x);
    if !Resolves(env, x) {
      EvalWithout(w, e, env, trace, ctx, rules, x);
    }
    EvalTyped(w, e, env, trace, ctx, rules);
    BindAgrees(env, ctx, x, Eval(w, e, env, trace).value.value, TypeOf(e, ctx, rules).value);
    assert env != [] by { assert |env| == |ctx| by { ShapeIs(env, ctx); } }
  }

  lemma ShapeIs(env: Scopes<Value>, ctx: Context)
    requires Agrees(env, ctx)
    ensures |env| == |ctx|
  {
  }

  /** A name that is not in sight does not matter to an expression that has a type. */
  lemma {:induction false} EvalWithout(w: World, e: Expr, env: Scopes<Value>, trace: seq<Event>, ctx: Context,
                                       rules: Rules, x: string)
    requires Complete(w, rules) && Agrees(env, ctx) && ctx != [] && !Resolves(ctx, x) && TypeOf(e, ctx, rules).Some?
    ensures Eval(w, e, Bind(env, x, Undefined), trace) == Eval(w, e, env, trace)
    decreases e, 1
  {
    hide Complete, Agrees, Bind, Apply, HasType;
    match e
    case Name(y) =>
      ResolvesTyped(env, ctx, x);
      assert |env| == |ctx| by { ShapeIs(env, ctx); }
      BindElsewhere(env, x, Undefined, y);
    case Literal(_) =>
    case ProcCall(_, args) => EvalAllWithout(w, args, env, trace, ctx, rules, x);
    case LogicalNot(r) => EvalWithout(w, r, env, trace, ctx, rules, x);
    case LogicalAnd(l, r) => EvalShortWithout(w, e, false, env, trace, ctx, rules, x);
    case LogicalOr(l, r) => EvalShortWithout(w, e, true, env, trace, ctx, rules, x);
    case Binary(_, l, r) =>
      EvalTyped(w, l, env, trace, ctx, rules);
      EvalWithout(w, l, env, trace, ctx, rules, x);
      EvalWithout(w, r, env, Eval(w, l, env, trace).value.trace, ctx, rules, x);
  }

  lemma EvalShortWithout(w: World, e: Expr, decisive: bool, env: Scopes<Value>, trace: seq<Event>, ctx: Context,
                         rules: Rules, x: string)
    requires Complete(w, rules) && Agrees(env, ctx) && ctx != [] && !Resolves(ctx, x) && TypeOf(e, ctx, rules).Some?
    requires e.LogicalAnd? || e.LogicalOr?
    ensures EvalShort(w, e, decisive, Bind(env, x, Undefined), trace) == EvalShort(w, e, decisive, env, trace)
    decreases e, 0
  {
    hide Complete, Agrees, Bind, HasType;
    ShortIs(e, ctx, rules);
    EvalTyped(w, e.left, env, trace, ctx, rules);
    EvalWithout(w, e.left, env, trace, ctx, rules, x);
    EvalWithout(w, e.right, env, Eval(w, e.left, env, trace).value.trace, ctx, rules, x);
  }

  lemma {:induction false} EvalAllWithout(w: World, es: seq<Expr>, env: Scopes<Value>, trace: seq<Event>, ctx: Context,
                                          rules: Rules, x: string)
    requires Complete(w, rules) && Agrees(env, ctx) && ctx != [] && !Resolves(ctx, x) && TypesOf(es, ctx, rules).Some?
    ensures EvalAll(w, es, Bind(env, x, Undefined), trace) == EvalAll(w, es, env, trace)
    decreases es, 0
  {
    hide Complete, Agrees, Bind, HasType;
    if es != [] {
      EvalTyped(w, es[0], env, trace, ctx, rules);
      EvalWithout(w, es[0], env, trace, ctx, rules, x);
      EvalAllWithout(w, es[1..], env, Eval(w, es[0], env, trace).value.trace, ctx, rules, x);
    }
  }

  lemma UpdateFine(w: World, op: ArithOp, x: string, e: Expr, env: Scopes<Value>, trace: seq<Event>, ctx: Context,
                   rules: Rules)
    requires Complete(w, rules) && Agrees(env, ctx) && ctx != [] && op != Div
    requires Resolves(ctx, x) && TypeOf(e, ctx, rules) == Some(Resolve(ctx, x)) == Some(IntType)
    ensures Fine(ExecUpdate(w, op, x, e, env, trace), ctx)
  {
    hide Agrees, Set, Resolves, Resolve, Eval;
    EvalTyped(w, e, env, trace, ctx, rules);
    ResolvesTyped(env, ctx, x);
    var a, b := Resolve(env, x), Eval(w, e, env, trace).value.value;
    assert w.arith(op, Int(a.i), Int(b.i)).Some?;
    SetAgrees(env, ctx, x, w.arith(op, a, b).value);
  }

  lemma {:induction false} BranchFine(w: World, s: Stmt, env: Scopes<Value>, trace: seq<Event>, fuel: nat, ctx: Context,
                                      rules: Rules)
    requires Complete(w, rules) && Agrees(env, ctx) && ctx != [] && (s.If? || s.IfElse?) && Typed(s, ctx, rules)
    ensures Fine(ExecBranch(w, s, env, trace, fuel), ctx)
    decreases fuel, s, 0
  {
    hide Complete, TypedBlock, Eval, Leave;
    AreStrict(w, rules);
    EvalTyped(w, s.cond, env, trace, ctx, rules);
    PushAgrees(env, ctx, map[], map[]);
    var a := Eval(w, s.cond, env, trace).value;
    if a.value.b {
      var inner := BlockFine(w, s.thn, env + [map[]], a.trace, fuel, ctx + [map[]], rules);
      LeaveFine(ExecBlock(w, s.thn, env + [map[]], a.trace, fuel), ctx, inner);
    } else if s.IfElse? {
      var inner := BlockFine(w, s.els, env + [map[]], a.trace, fuel, ctx + [map[]], rules);
      LeaveFine(ExecBlock(w, s.els, env + [map[]], a.trace, fuel), ctx, inner);
    }
  }

  lemma {:induction false} LoopFine(w: World, s: Stmt, env: Scopes<Value>, trace: seq<Event>, fuel: nat, ctx: Context,
                                    rules: Rules)
    requires Complete(w, rules) && Agrees(env, ctx) && ctx != [] && (s.Forever? || s.While?) && Typed(s, ctx, rules)
    ensures Fine(ExecLoop(w, s, env, trace, fuel), ctx)
    decreases fuel, s, 1
  {
    hide Complete, TypedBlock, Eval, Leave;
    AreStrict(w, rules);
    if fuel > 0 {
      if s.While? {
        EvalTyped(w, s.cond, env, trace, ctx, rules);
      }
      var a := if s.While? then Eval(w, s.cond, env, trace).value else Evaluated(Bool(true), trace);
      if a.value.b {
        PushAgrees(env, ctx, map[], map[]);
        var inner := BlockFine(w, s.body, env + [map[]], a.trace, fuel, ctx + [map[]], rules);
        var o := Leave(ExecBlock(w, s.body, env + [map[]], a.trace, fuel), |env|);
        LeaveFine(ExecBlock(w, s.body, env + [map[]], a.trace, fuel), ctx, inner);
        if o.Normal? || o.Continued? {
          LoopFine(w, s, o.env, o.trace, fuel - 1, ctx, rules);
        }
      }
    }
  }

  ghost predicate BoundFits(bound: Bound, ctx: Context) {
    match bound
    case Fixed(v) => v.Int?
    case Reread(x) => Resolves(ctx, x) && Resolve(ctx, x) == IntType
  }

  lemma BoundTyped(w: World, to: Expr, env: Scopes<Value>, trace: seq<Event>, ctx: Context, rules: Rules)
    requires Complete(w, rules) && Agrees(env, ctx) && TypeOf(to, ctx, rules) == Some(IntType)
    ensures EvalBound(w, to, env, trace).Some? && BoundFits(EvalBound(w, to, env, trace).value.0, ctx)
  {
    EvalTyped(w, to, env, trace, ctx, rules);
  }

  lemma BoundIsInt(bound: Bound, env: Scopes<Value>, ctx: Context)
    requires Agrees(env, ctx) && BoundFits(bound, ctx)
    ensures BoundValue(bound, env).Some? && BoundValue(bound, env).value.Int?
  {
    if bound.Reread? {
      ResolvesTyped(env, ctx, bound.name);
    }
  }

  lemma {:induction false} RangeFine(w: World, s: Stmt, i: Value, bound: Bound, env: Scopes<Value>, trace: seq<Event>,
                                     fuel: nat, ctx: Context, rules: Rules)
    requires Complete(w, rules) && Agrees(env, ctx) && ctx != [] && s.ForRange? && Typed(s, ctx, rules)
    requires i.Int? && BoundFits(bound, ctx)
    ensures Fine(ExecRange(w, s, i, bound, env, trace, fuel), ctx)
    decreases fuel, s, 1
  {
    hide TypedBlock, Leave, BoundFits, BoundValue;
    if fuel > 0 {
      BoundIsInt(bound, env, ctx);
      var hi := BoundValue(bound, env).value;
      assert w.compare(LesserOrEqual, Int(i.i), Int(hi.i)).Some?;
      if w.compare(LesserOrEqual, i, hi).value {
        var env', ctx' := env + [CounterScope(s.counter, i)], ctx + [CounterTypes(s.counter)];
        PushAgrees(env, ctx, CounterScope(s.counter, i), CounterTypes(s.counter));
        var inner := BlockFine(w, s.body, env', trace, fuel, ctx', rules);
        var o := Leave(ExecBlock(w, s.body, env', trace, fuel), |env|);
        LeaveFine(ExecBlock(w, s.body, env', trace, fuel), ctx, inner);
        assert w.arith(Add, Int(i.i), Int(1)).Some?;
        if o.Normal? || o.Continued? {
          RangeFine(w, s, w.arith(Add, i, Int(1)).value, bound, o.env, o.trace, fuel - 1, ctx, rules);
        }
      }
    }
  }

  // ----- Procedures -----

  /** The typer accepts a procedure that is strictly typed; and compiled, and called with arguments of its parameters'
      types, it is never stuck: it reaches its end, returns, or is still running after any number of steps. */
  lemma TypedProcRuns(w: World, name: string, params: seq<string>, types: seq<Type>, body: seq<Stmt>, labels: nat,
                      args: seq<Value>, fuel: nat, sigs: Signatures)
    returns (n: nat)
    requires Complete(w, Rules(sigs, true)) && |args| == |params| == |types|
    requires forall i :: 0 <= i < |args| ==> HasType(args[i], types[i])
    requires L.AcceptedBlock(body, [P.ParamNames(params)], None, L.Counters(|params|, labels, 0))
    requires TypedBlock(body, [T.ParamTypes(params, types)], Rules(sigs, true))
    ensures T.Check(sigs, T.ArgTypes(types), P.ProcCode(name, params, body, labels)).Some?
    ensures var program := P.ProcCode(name, params, body, labels);
            match Steps(w, program, Running(0, P.ArgStore(args), []), n)
            case Running(pc, _, _) => (pc == |program| - 1 && program[pc] == EndProc) || n >= fuel
            case Halted(_, _) => true
            case Stuck => false
  {
    hide Complete, TypedBlock, ExecBlock, P.ProcCode, Steps, T.Check;
    StrictBlockIsTyped(body, [T.ParamTypes(params, types)], sigs);
    E.TyperAcceptsExactly(name, params, types, body, labels, sigs);
    var env, ctx := [P.ParamValues(params, args)], [T.ParamTypes(params, types)];
    assert LevelAgrees(env[0], ctx[0]);
    var after := BlockFine(w, body, env, [], fuel, ctx, Rules(sigs, true));
    n := P.ProcRuns(w, name, params, body, labels, args, fuel);
  }
}
