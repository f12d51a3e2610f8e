/** On emitted code the typer accepts exactly what is typed. */
module Typable {
  import opened Ir
  import opened Options
  import opened Language
  import opened Lowering
  import opened ExprLowering
  import opened StmtLowering
  import opened Simulation
  import opened Typing
  import opened Typers
  import P = Procs

  function Lax(sigs: Signatures): Rules { Rules(sigs, false) }

  // ----- Names and the table -----

  ghost predicate LevelFits(level: map<string, nat>, types: map<string, Type>, t: Types) {
    level.Keys == types.Keys && forall x :: x in types ==> IsAt(t, level[x], types[x])
  }

  /** The variable of each name has the name's type. */
  ghost predicate Fits(names: Names, ctx: Context, t: Types) {
    names != [] && |names| == |ctx| && forall i :: 0 <= i < |ctx| ==> LevelFits(names[i], ctx[i], t)
  }

  /** A new name and its variable, while its value is computed. */
  type Self = Option<(string, nat)>

  /** The same, but for the new name, which has no type yet. */
  ghost predicate FitsBut(names: Names, ctx: Context, t: Types, self: Self) {
    match self
    case None => Fits(names, ctx, t)
    case Some((x, own)) =>
      && names != [] && x in names[|names| - 1] && names[|names| - 1][x] == own && own !in t && !Resolves(ctx, x)
      && Fits(Without(names, x), ctx, t)
  }

  function Without(names: Names, x: string): Names
    requires names != []
  {
    names[..|names| - 1] + [names[|names| - 1] - {x}]
  }

  /** The new name if it is for this variable. */
  function For(self: Self, dest: nat): Option<string> {
    if self.Some? && self.value.1 == dest then Some(self.value.0) else None
  }

  ghost predicate Under(t: Types, n: nat) {
    forall v :: v in t ==> v < n
  }

  /** Of the variables below n only dest may have been given a type, and there are none from m on. */
  ghost predicate Grown(t: Types, t': Types, n: nat, dest: nat, m: nat) {
    && n <= m && Under(t', m)
    && forall v: nat :: v < n && v != dest ==> (v in t' <==> v in t) && (v in t ==> t'[v] == t[v])
  }

  lemma {:induction false} ResolveFits(names: Names, ctx: Context, t: Types, y: string)
    requires Fits(names, ctx, t)
    ensures Resolves(names, y) <==> Resolves(ctx, y)
    ensures Resolves(ctx, y) ==> IsAt(t, Resolve(names, y), Resolve(ctx, y))
    decreases |ctx|
  {
    var n := |ctx| - 1;
    assert LevelFits(names[n], ctx[n], t);
    if n > 0 && y !in ctx[n] {
      ResolveFits(names[..n], ctx[..n], t, y);
    }
  }

  lemma ResolveWithout(names: Names, x: string, y: string)
    requires names != [] && y != x
    ensures Resolves(Without(names, x), y) <==> Resolves(names, y)
    ensures Resolves(names, y) ==> Resolve(Without(names, x), y) == Resolve(names, y)
  {
    assert Without(names, x)[..|names| - 1] == names[..|names| - 1];
  }

  /** A name's type is that of its variable, if it has one. */
  lemma NameFits(names: Names, ctx: Context, t: Types, self: Self, y: string)
    requires FitsBut(names, ctx, t, self) && Resolves(names, y)
    ensures var v := Resolve(names, y);
      && (Resolves(ctx, y) <==> v in t) && (Resolves(ctx, y) ==> t[v] == Resolve(ctx, y))
    ensures self.None? ==> Resolve(names, y) in t
  {
    match self
    case None => ResolveFits(names, ctx, t, y);
    case Some((x, own)) =>
      if y != x {
        ResolveWithout(names, x, y);
        ResolveFits(Without(names, x), ctx, t, y);
      }
  }

  lemma FitsLater(names: Names, ctx: Context, t: Types, t': Types, n: nat, dest: nat, m: nat)
    requires Fits(names, ctx, t) && Below(names, n) && Grown(t, t', n, dest, m) && (dest !in t || dest >= n)
    ensures Fits(names, ctx, t')
  {
    forall i | 0 <= i < |ctx| ensures LevelFits(names[i], ctx[i], t') {
      assert LevelFits(names[i], ctx[i], t);
    }
  }

  lemma FitsButLater(names: Names, ctx: Context, t: Types, t': Types, self: Self, n: nat, dest: nat, m: nat)
    requires FitsBut(names, ctx, t, self) && Below(names, n) && Grown(t, t', n, dest, m) && (dest !in t || dest >= n)
    requires For(self, dest).None?
    ensures FitsBut(names, ctx, t', self)
  {
    match self
    case None => FitsLater(names, ctx, t, t', n, dest, m);
    case Some((x, own)) =>
      var last := |names| - 1;
      assert own < n by { assert names[last][x] < n; }
      var less := Without(names, x);
      forall i, y | 0 <= i < |less| && y in less[i] ensures less[i][y] < n {
        assert names[i][y] < n;
      }
      FitsLater(less, ctx, t, t', n, dest, m);
  }

  lemma GrownChain(t: Types, t1: Types, t2: Types, n: nat, dest: nat, n1: nat, dest1: nat, m: nat)
    requires Grown(t, t1, n, dest, n1) && Grown(t1, t2, n1, dest1, m) && (dest1 >= n || dest1 == dest)
    ensures Grown(t, t2, n, dest, m)
  {
  }

  // ----- Expressions -----

  /** The code gives dest the type, or is refused when there is none. */
  ghost predicate Gives(r: Option<Types>, ty: Option<Type>, t: Types, n: nat, dest: nat, m: nat) {
    (r.Some? <==> ty.Some?) && (r.Some? ==> IsAt(r.value, dest, ty.value) && Grown(t, r.value, n, dest, m))
  }

  /** The variable has the type after the code. Where there is none, the code is refused or the variable has none. */
  ghost predicate Yields(r: Option<Types>, ty: Option<Type>, t: Types, n: nat, vn: nat, m: nat, self: Self) {
    && ty == (if r.Some? && vn in r.value then Some(r.value[vn]) else None)
    && (r.Some? ==> Grown(t, r.value, n, n, m) && vn < m && (self.None? ==> vn in r.value))
  }

  ghost predicate YieldsAll(r: Option<Types>, tys: Option<seq<Type>>, t: Types, n: nat, vns: seq<nat>, m: nat,
                            self: Self)
  {
    && tys == (if r.Some? then TypesAt(r.value, vns) else None)
    && (r.Some? ==> Grown(t, r.value, n, n, m) && (self.None? ==> TypesAt(r.value, vns).Some?))
  }

  /** The instruction that gives dest its type after the code before it. */
  lemma GivesAfter(sigs: Signatures, t: Types, code: seq<Inst>, i: Inst, n: nat, dest: nat, m: nat, ty: Option<Type>)
    requires var r := Check(sigs, t, code);
      && (r.Some? ==> Grown(t, r.value, n, n, m) && dest !in r.value)
      && (ty.Some? <==> r.Some? && CheckInst(sigs, r.value, i).Some?)
      && (ty.Some? ==> CheckInst(sigs, r.value, i) == Some(r.value[dest := ty.value]))
    requires dest < n
    ensures Gives(Check(sigs, t, code + [i]), ty, t, n, dest, m)
  {
    hide Check, CheckInst;
    CheckConcat(sigs, t, code, [i]);
    if Check(sigs, t, code).Some? {
      CheckOne(sigs, Check(sigs, t, code).value, i);
    }
  }

  lemma {:induction false} ToVarChecks(e: Expr, names: Names, dest: nat, c: Counters, ctx: Context, t: Types,
                                       sigs: Signatures, self: Self)
    requires FitsBut(names, ctx, t, self) && Scoped(e, names) && Below(names, c.vars) && Under(t, c.vars)
    requires dest < c.vars && dest !in t
    ensures var a := ToVar(e, names, dest, c);
      Gives(Check(sigs, t, a.code), TypeInto(e, ctx, Lax(sigs), For(self, dest)), t, c.vars, dest, a.next.vars)
    decreases e, 2
  {
    hide Check, FitsBut, Below, Scoped, TypeOf, ShortType, ToValue, ToValues, Chain, Gives, YieldsAll, Yields, Resolve,
        Resolves, Grown;
    match e
    case Name(x) => NameChecks(x, names, dest, c, ctx, t, sigs, self);
    case Literal(v) => LiteralChecks(v, dest, c, ctx, t, sigs);
    case ProcCall(_, _) => CallChecks(e, names, dest, c, ctx, t, sigs, self);
    case LogicalNot(_) => NotChecks(e, names, dest, c, ctx, t, sigs, self);
    case LogicalAnd(_, _) => ShortChecks(e, false, names, dest, c, ctx, t, sigs, self);
    case LogicalOr(_, _) => ShortChecks(e, true, names, dest, c, ctx, t, sigs, self);
    case Binary(_, _, _) => BinaryChecks(e, names, dest, c, ctx, t, sigs, self);
  }

  lemma NameChecks(x: string, names: Names, dest: nat, c: Counters, ctx: Context, t: Types, sigs: Signatures,
                   self: Self)
    requires FitsBut(names, ctx, t, self) && Scoped(Name(x), names) && Under(t, c.vars) && dest < c.vars && dest !in t
    ensures Gives(Check(sigs, t, ToVar(Name(x), names, dest, c).code), TypeOf(Name(x), ctx, Lax(sigs)), t, c.vars, dest,
                  c.vars)
  {
    hide Check, FitsBut, Resolve, Resolves, Gives;
    NameFits(names, ctx, t, self, x);
    CheckNothing(sigs, t);
    var i := Assign(dest, Resolve(names, x));
    GivesAfter(sigs, t, [], i, c.vars, dest, c.vars, TypeOf(Name(x), ctx, Lax(sigs)));
    assert [] + [i] == [i];
  }

  lemma LiteralChecks(v: Value, dest: nat, c: Counters, ctx: Context, t: Types, sigs: Signatures)
    requires Under(t, c.vars) && dest < c.vars && dest !in t
    ensures Gives(Check(sigs, t, [AssignImm(dest, v)]), TypeOf(Literal(v), ctx, Lax(sigs)), t, c.vars, dest, c.vars)
  {
    hide Check, Gives;
    CheckNothing(sigs, t);
    var i := AssignImm(dest, v);
    GivesAfter(sigs, t, [], i, c.vars, dest, c.vars, TypeOf(Literal(v), ctx, Lax(sigs)));
    assert [] + [i] == [i];
  }

  lemma {:induction false} CallChecks(e: Expr, names: Names, dest: nat, c: Counters, ctx: Context, t: Types,
                                      sigs: Signatures, self: Self)
    requires FitsBut(names, ctx, t, self) && Scoped(e, names) && Below(names, c.vars) && Under(t, c.vars)
    requires dest < c.vars && dest !in t && e.ProcCall?
    ensures var a := ToVar(e, names, dest, c);
      Gives(Check(sigs, t, a.code), TypeOf(e, ctx, Lax(sigs)), t, c.vars, dest, a.next.vars)
    decreases e, 1
  {
    hide Check, FitsBut, Below, Gives, ToValues, TypesAt;
    var a := ToValues(e.args, names, c);
    ToValuesChecks(e.args, names, c, ctx, t, sigs, self);
    GivesAfter(sigs, t, a.code, Call(dest, e.callee, a.vns), c.vars, dest, a.next.vars, TypeOf(e, ctx, Lax(sigs)));
  }

  lemma {:induction false} NotChecks(e: Expr, names: Names, dest: nat, c: Counters, ctx: Context, t: Types,
                                     sigs: Signatures, self: Self)
    requires FitsBut(names, ctx, t, self) && Scoped(e, names) && Below(names, c.vars) && Under(t, c.vars)
    requires dest < c.vars && dest !in t && e.LogicalNot?
    ensures var a := ToVar(e, names, dest, c);
      Gives(Check(sigs, t, a.code), TypeOf(e, ctx, Lax(sigs)), t, c.vars, dest, a.next.vars)
    decreases e, 1
  {
    hide Check, FitsBut, Below, Gives, ToValue;
    var a := ToValue(e.right, names, c);
    ToValueChecks(e.right, names, c, ctx, t, sigs, self);
    GivesAfter(sigs, t, a.code, Not(dest, a.vn), c.vars, dest, a.next.vars, TypeOf(e, ctx, Lax(sigs)));
  }

  lemma {:induction false} ShortChecks(e: Expr, isOr: bool, names: Names, dest: nat, c: Counters, ctx: Context,
                                       t: Types,
                                       sigs: Signatures, self: Self)
    requires FitsBut(names, ctx, t, self) && Scoped(e, names) && Below(names, c.vars) && Under(t, c.vars)
    requires dest < c.vars && dest !in t && IsChain(e, isOr)
    ensures var a := ToVar(e, names, dest, c);
      Gives(Check(sigs, t, a.code), TypeInto(e, ctx, Lax(sigs), For(self, dest)), t, c.vars, dest, a.next.vars)
    decreases e, 1, 1
  {
    hide Check, FitsBut, Below, TypeInto, Scoped, Chain;
    var end := ChainEnd(isOr, c.labels);
    var a := Chain(e, isOr, names, dest, end, NewLabel(c));
    ChainChecks(e, isOr, names, dest, end, NewLabel(c), ctx, t, sigs, self);
    CheckConcat(sigs, t, a.code, [LabelAt(end)]);
    if Check(sigs, t, a.code).Some? {
      CheckOne(sigs, Check(sigs, t, a.code).value, LabelAt(end));
    }
  }

  lemma {:induction false} BinaryChecks(e: Expr, names: Names, dest: nat, c: Counters, ctx: Context, t: Types,
                                        sigs: Signatures, self: Self)
    requires FitsBut(names, ctx, t, self) && Scoped(e, names) && Below(names, c.vars) && Under(t, c.vars)
    requires dest < c.vars && dest !in t && e.Binary?
    ensures var a := ToVar(e, names, dest, c);
      Gives(Check(sigs, t, a.code), TypeOf(e, ctx, Lax(sigs)), t, c.vars, dest, a.next.vars)
    decreases e, 1
  {
    hide Check, FitsBut, Below, ToVar, ToValue;
    var a := ToVar(e.left, names, c.vars, NewVar(c));
    var b := ToValue(e.right, names, a.next);
    var o := Operate(e.op, dest, c.vars, b.vn);
    BinaryIs(e, names, dest, c);
    OwnBelow(names, ctx, t, self, c.vars);
    BelowMore(names, c.vars, c.vars + 1);
    ToVarChecks(e.left, names, c.vars, NewVar(c), ctx, t, sigs, self);
    NoneInto(e.left, ctx, Lax(sigs));
    var r := Check(sigs, t, a.code);
    CheckConcat(sigs, t, a.code, b.code);
    CheckConcat(sigs, t, a.code + b.code, o);
    if r.Some? {
      FitsButLater(names, ctx, t, r.value, self, c.vars + 1, c.vars, a.next.vars);
      BelowMore(names, c.vars, a.next.vars);
      ToValueChecks(e.right, names, a.next, ctx, r.value, sigs, self);
      OperateChecks(e, dest, c.vars, b.vn, ctx, t, r.value, sigs, self, a.next.vars, b.next.vars,
          Check(sigs, r.value, b.code));
    }
  }

  /** The instructions that combine two operands. */
  lemma OperateChecks(e: Expr, dest: nat, left: nat, right: nat, ctx: Context, t: Types, t1: Types, sigs: Signatures,
                      self: Self, m1: nat, m: nat, r: Option<Types>)
    requires e.Binary? && dest < left && dest !in t && Grown(t, t1, left + 1, left, m1)
    requires TypeOf(e.left, ctx, Lax(sigs)).Some? && IsAt(t1, left, TypeOf(e.left, ctx, Lax(sigs)).value)
    requires Yields(r, TypeOf(e.right, ctx, Lax(sigs)), t1, m1, right, m, self)
    ensures var all := if r.None? then None else Check(sigs, r.value, Operate(e.op, dest, left, right));
      Gives(all, TypeOf(e, ctx, Lax(sigs)), t, left, dest, m)
  {
    hide Check, TypeOf, Combined;
    TypeOfBinary(e, ctx, Lax(sigs));
    if r.Some? {
      var t2 := r.value;
      assert IsAt(t2, left, t1[left]) && dest !in t2 && Grown(t, t2, left, left, m);
      CombinedChecks(e.op, dest, left, right, t2, sigs, t2[left]);
    }
  }

  lemma TypeOfBinary(e: Expr, ctx: Context, rules: Rules)
    requires e.Binary?
    ensures var a, b := TypeOf(e.left, ctx, rules), TypeOf(e.right, ctx, rules);
      TypeOf(e, ctx, rules) ==
        if a.None? || b.None? then None else Combined(e.op, a.value, b.value, rules.strict)
  {
  }

  lemma CombinedChecks(op: BinaryOp, dest: nat, left: nat, right: nat, t: Types, sigs: Signatures, a: Type)
    requires IsAt(t, left, a) && dest !in t
    ensures Check(sigs, t, Operate(op, dest, left, right)) ==
      if right in t && Combined(op, a, t[right], false).Some?
      then Some(t[dest := Combined(op, a, t[right], false).value]) else None
  {
    hide Check;
    match op
    case Arithmetic(arith) =>
      var first, second := Arith(arith, left, right), Assign(dest, left);
      assert Operate(op, dest, left, right) == [first] + [second];
      CheckConcat(sigs, t, [first], [second]);
      CheckOne(sigs, t, first);
      CheckOne(sigs, t, second);
    case Comparison(how) =>
      CheckOne(sigs, t, Compare(how, left, right, dest));
  }

  lemma NoneInto(e: Expr, ctx: Context, rules: Rules)
    ensures TypeInto(e, ctx, rules, None) == TypeOf(e, ctx, rules)
  {
  }

  lemma OwnBelow(names: Names, ctx: Context, t: Types, self: Self, n: nat)
    requires FitsBut(names, ctx, t, self) && Below(names, n)
    ensures For(self, n).None?
  {
    if self.Some? {
      assert names[|names| - 1][self.value.0] < n;
    }
  }

  lemma BinaryIs(e: Expr, names: Names, dest: nat, c: Counters)
    requires e.Binary?
    ensures var a := ToVar(e.left, names, c.vars, NewVar(c)); var b := ToValue(e.right, names, a.next);
      ToVar(e, names, dest, c) == Code(a.code + b.code + Operate(e.op, dest, c.vars, b.vn), b.next)
  {
  }

  lemma {:induction false} ChainChecks(e: Expr, isOr: bool, names: Names, dest: nat, end: Label, c: Counters,
                                       ctx: Context, t: Types, sigs: Signatures, self: Self)
    requires FitsBut(names, ctx, t, self) && Scoped(e, names) && Below(names, c.vars) && Under(t, c.vars)
    requires dest < c.vars && dest !in t
    ensures var a := Chain(e, isOr, names, dest, end, c);
      Gives(Check(sigs, t, a.code), TypeInto(e, ctx, Lax(sigs), For(self, dest)), t, c.vars, dest, a.next.vars)
    decreases e, (if IsChain(e, isOr) then 1 else 3), 0
  {
    hide Check, FitsBut, Below, ToVar, ToValue, TypeOf, Scoped;
    if !IsChain(e, isOr) {
      ToVarChecks(e, names, dest, c, ctx, t, sigs, self);
      return;
    }
    var a := Chain(e.left, isOr, names, dest, end, c);
    var b := ToValue(e.right, names, a.next);
    var jump, combine := JumpIf(isOr, true, dest, end), Combine(isOr, dest, b.vn);
    ChainScoped(e, names);
    ChainChecks(e.left, isOr, names, dest, end, c, ctx, t, sigs, self);
    var r := Check(sigs, t, a.code);
    CheckConcat(sigs, t, a.code, [jump]);
    CheckConcat(sigs, t, a.code + [jump], b.code);
    CheckConcat(sigs, t, a.code + [jump] + b.code, [combine]);
    if r.Some? {
      CheckOne(sigs, r.value, jump);
      var ty := r.value[dest];
      var later := Later(ctx, self, dest, ty);
      LaterFits(names, ctx, t, r.value, self, c.vars, dest, a.next.vars);
      BelowMore(names, c.vars, a.next.vars);
      ToValueChecks(e.right, names, a.next, later.0, r.value, sigs, later.1);
      CombineChecks(e, isOr, dest, b.vn, ctx, t, r.value, sigs, self, c.vars, a.next.vars, b.next.vars,
          Check(sigs, r.value, b.code));
    }
  }

  /** The instruction that combines two truth values. */
  lemma CombineChecks(e: Expr, isOr: bool, dest: nat, right: nat, ctx: Context, t: Types, t1: Types, sigs: Signatures,
                      self: Self, n: nat, m1: nat, m: nat, r: Option<Types>)
    requires IsChain(e, isOr) && dest < n && Grown(t, t1, n, dest, m1)
    requires TypeInto(e.left, ctx, Lax(sigs), For(self, dest)).Some?
    requires IsAt(t1, dest, TypeInto(e.left, ctx, Lax(sigs), For(self, dest)).value)
    requires var l := Later(ctx, self, dest, t1[dest]);
      Yields(r, TypeOf(e.right, l.0, Lax(sigs)), t1, m1, right, m, l.1)
    ensures var all := if r.None? then None else Check(sigs, r.value, [Combine(isOr, dest, right)]);
      Gives(all, TypeInto(e, ctx, Lax(sigs), For(self, dest)), t, n, dest, m)
  {
    hide Check, TypeOf;
    assert t1[dest] == BoolType ==> Later(ctx, self, dest, t1[dest]).0 == Within(ctx, For(self, dest));
    if r.Some? {
      CheckOne(sigs, r.value, Combine(isOr, dest, right));
    }
  }

  lemma ChainScoped(e: Expr, names: Names)
    requires (e.LogicalAnd? || e.LogicalOr?) && Scoped(e, names)
    ensures Scoped(e.left, names) && Scoped(e.right, names)
  {
  }

  /** Once dest has a type, so has the new name it is for. */
  function Later(ctx: Context, self: Self, dest: nat, ty: Type): (Context, Self) {
    if For(self, dest).None? || ctx == [] then (ctx, self) else (Bind(ctx, self.value.0, ty), None)
  }

  lemma LaterFits(names: Names, ctx: Context, t: Types, t': Types, self: Self, n: nat, dest: nat, m: nat)
    requires FitsBut(names, ctx, t, self) && Below(names, n) && Grown(t, t', n, dest, m) && dest !in t && dest in t'
    ensures var l := Later(ctx, self, dest, t'[dest]); FitsBut(names, l.0, t', l.1)
  {
    if For(self, dest).None? {
      FitsButLater(names, ctx, t, t', self, n, dest, m);
    } else {
      var x, last := self.value.0, |names| - 1;
      var less := Without(names, x);
      forall i, y | 0 <= i < |less| && y in less[i] ensures less[i][y] < n {
        assert names[i][y] < n;
      }
      FitsLater(less, ctx, t, t', n, dest, m);
      var ctx' := Bind(ctx, x, t'[dest]);
      forall i | 0 <= i < |ctx'| ensures LevelFits(names[i], ctx'[i], t') {
        assert LevelFits(less[i], ctx[i], t');
      }
    }
  }

  lemma {:induction false} ToValueChecks(e: Expr, names: Names, c: Counters, ctx: Context, t: Types, sigs: Signatures,
                                         self: Self)
    requires FitsBut(names, ctx, t, self) && Scoped(e, names) && Below(names, c.vars) && Under(t, c.vars)
    ensures var a := ToValue(e, names, c);
      Yields(Check(sigs, t, a.code), TypeOf(e, ctx, Lax(sigs)), t, c.vars, a.vn, a.next.vars, self)
    decreases e, 4
  {
    hide Check, FitsBut, Below, ToVar, TypeOf, Resolve;
    if e.Name? {
      CheckNothing(sigs, t);
      NameIs(e.name, names, ctx, Lax(sigs), c.vars);
      NameFits(names, ctx, t, self, e.name);
    } else {
      OwnBelow(names, ctx, t, self, c.vars);
      BelowMore(names, c.vars, c.vars + 1);
      ToVarChecks(e, names, c.vars, NewVar(c), ctx, t, sigs, self);
      NoneInto(e, ctx, Lax(sigs));
    }
  }

  lemma NameIs(x: string, names: Names, ctx: Context, rules: Rules, n: nat)
    requires Scoped(Name(x), names) && Below(names, n)
    ensures Resolves(names, x)
    ensures VarNamed(names, x) == Resolve(names, x) && VarNamed(names, x) < n
    ensures TypeOf(Name(x), ctx, rules) == if Resolves(ctx, x) then Some(Resolve(ctx, x)) else None
  {
    var i := ResolveFinds(names, x);
    assert names[i][x] < n;
  }

  lemma {:induction false} ToValuesChecks(es: seq<Expr>, names: Names, c: Counters, ctx: Context, t: Types,
                                          sigs: Signatures, self: Self)
    requires FitsBut(names, ctx, t, self) && ScopedAll(es, names) && Below(names, c.vars) && Under(t, c.vars)
    ensures var a := ToValues(es, names, c);
      YieldsAll(Check(sigs, t, a.code), TypesOf(es, ctx, Lax(sigs)), t, c.vars, a.vns, a.next.vars, self)
    decreases es, 0
  {
    hide Check, FitsBut, Below, ToValue, TypeOf;
    if es == [] {
      CheckNothing(sigs, t);
    } else {
      var a := ToValue(es[0], names, c);
      var b := ToValues(es[1..], names, a.next);
      ToValueChecks(es[0], names, c, ctx, t, sigs, self);
      var r := Check(sigs, t, a.code);
      CheckConcat(sigs, t, a.code, b.code);
      if r.Some? {
        OwnBelow(names, ctx, t, self, c.vars);
        FitsButLater(names, ctx, t, r.value, self, c.vars, c.vars, a.next.vars);
        BelowMore(names, c.vars, a.next.vars);
        ToValuesChecks(es[1..], names, a.next, ctx, r.value, sigs, self);
        assert ([a.vn] + b.vns)[1..] == b.vns;
      }
    }
  }

  // ----- Statements -----

  /** The code is accepted if and only if the statement is typed, and then the table goes with the names after it. */
  ghost predicate Follows(r: Option<Types>, typed: bool, t: Types, n: nat, m: nat, names: Names, ctx: Context) {
    (r.Some? <==> typed) && (r.Some? ==> Grown(t, r.value, n, n, m) && Fits(names, ctx, r.value))
  }

  ghost predicate BlockFollows(r: Option<Types>, typed: bool, t: Types, n: nat, m: nat) {
    (r.Some? <==> typed) && (r.Some? ==> Grown(t, r.value, n, n, m))
  }

  /** The typer passes over it. */
  predicate Passed(i: Inst) {
    match i
    case Return(_) => true
    case Jump(_) => true
    case StartProc(_) => true
    case EndProc => true
    case LabelAt(_) => true
    case OutsideLoopMutations(_) => true
    case OptionSelectStart(_) => true
    case OptionEnd(_) => true
    case OptionSelectEnd => true
    case LoopEnd => true
    case Increment(_) => true
    case JumpIf(_, _, _, _) => true
    case _ => false
  }

  lemma {:induction false} CheckPassed(sigs: Signatures, t: Types, code: seq<Inst>)
    requires forall i :: 0 <= i < |code| ==> Passed(code[i])
    ensures Check(sigs, t, code) == Some(t)
    decreases |code|
  {
    if code != [] {
      CheckPassed(sigs, t, code[..|code| - 1]);
    }
  }

  /** Code around which there is nothing that the typer looks at. */
  lemma CheckWithin(sigs: Signatures, t: Types, before: seq<Inst>, code: seq<Inst>, after: seq<Inst>)
    requires forall i :: 0 <= i < |before| ==> Passed(before[i])
    requires forall i :: 0 <= i < |after| ==> Passed(after[i])
    ensures Check(sigs, t, before + code + after) == Check(sigs, t, code)
  {
    hide Check, Passed;
    CheckConcat(sigs, t, before + code, after);
    CheckConcat(sigs, t, before, code);
    CheckPassed(sigs, t, before);
    if Check(sigs, t, code).Some? {
      CheckPassed(sigs, Check(sigs, t, code).value, after);
    }
  }

  lemma InnerFits(names: Names, ctx: Context, t: Types, level: map<string, nat>, types: map<string, Type>)
    requires Fits(names, ctx, t) && LevelFits(level, types, t)
    ensures Fits(names + [level], ctx + [types], t)
  {
  }

  /** A new name in the innermost scope, with its variable and its type. */
  lemma BoundFits(names: Names, ctx: Context, t: Types, t': Types, n: nat, x: string, vn: nat, ty: Type, m: nat)
    requires Fits(names, ctx, t) && Below(names, n) && Grown(t, t', n, n, m) && IsAt(t', vn, ty)
    ensures Fits(Bind(names, x, vn), Bind(ctx, x, ty), t')
  {
    FitsLater(names, ctx, t, t', n, n, m);
    var names', ctx' := Bind(names, x, vn), Bind(ctx, x, ty);
    forall i | 0 <= i < |ctx'| ensures LevelFits(names'[i], ctx'[i], t') {
      assert LevelFits(names[i], ctx[i], t');
    }
  }

  lemma {:induction false} BlockChecks(stmts: seq<Stmt>, names: Names, loop: LoopId, c: Counters, ctx: Context,
                                       t: Types,
                                       sigs: Signatures)
    requires Fits(names, ctx, t) && Below(names, c.vars) && Under(t, c.vars) && AcceptedBlock(stmts, names, loop, c)
    ensures var a := LowerBlock(stmts, names, loop, c);
      BlockFollows(Check(sigs, t, a.code), TypedBlock(stmts, ctx, Lax(sigs)), t, c.vars, a.next.vars)
    decreases stmts, 0
  {
    hide Check, Fits, Below, Typed, Accepted, LowerStmt, Extended;
    if stmts == [] {
      CheckNothing(sigs, t);
    } else {
      var a := LowerStmt(stmts[0], names, loop, c);
      var b := LowerBlock(stmts[1..], a.names, loop, a.next);
      StmtChecks(stmts[0], names, loop, c, ctx, t, sigs);
      var r := Check(sigs, t, a.code);
      CheckConcat(sigs, t, a.code, b.code);
      if r.Some? {
        StmtBelow(stmts[0], names, loop, c, ctx, t);
        BlockChecks(stmts[1..], a.names, loop, a.next, Extended(stmts[0], ctx, Lax(sigs)), r.value, sigs);
      }
    }
  }

  lemma StmtBelow(s: Stmt, names: Names, loop: LoopId, c: Counters, ctx: Context, t: Types)
    requires Fits(names, ctx, t) && Below(names, c.vars)
    ensures var a := LowerStmt(s, names, loop, c); Below(a.names, a.next.vars)
  {
    LowerStmtExtends(s, names, loop, c);
  }

  lemma {:induction false} StmtChecks(s: Stmt, names: Names, loop: LoopId, c: Counters, ctx: Context, t: Types,
                                      sigs: Signatures)
    requires Fits(names, ctx, t) && Below(names, c.vars) && Under(t, c.vars) && Accepted(s, names, loop, c)
    ensures var a := LowerStmt(s, names, loop, c);
      Follows(Check(sigs, t, a.code), Typed(s, ctx, Lax(sigs)), t, c.vars, a.next.vars, a.names,
              Extended(s, ctx, Lax(sigs)))
    decreases s, 1
  {
    hide Check, Fits, Below, TypeOf, TypedBlock, ToValue, ToValues, ToVar, LowerIf, LowerLoop, LowerRange, Follows,
        Resolve, Resolves, Scoped, ScopedAll, Bind;
    NamesThere(names, ctx, t);
    match s
    case Declaration(x, zero) => DeclarationChecks(x, zero, names, c, ctx, t, sigs);
    case Declare(x, e) => DeclareChecks(x, e, names, loop, c, ctx, t, sigs);
    case SetTo(x, e) => SetChecks(x, e, names, c, ctx, t, sigs);
    case PlusEqual(x, e) => UpdateChecks(Add, x, e, names, c, ctx, t, sigs);
    case MinusEqual(x, e) => UpdateChecks(Sub, x, e, names, c, ctx, t, sigs);
    case Plain(e) => PlainChecks(e, names, c, ctx, t, sigs);
    case If(_, _) => IfChecks(s, names, loop, c, ctx, t, sigs);
    case IfElse(_, _, _) => IfChecks(s, names, loop, c, ctx, t, sigs);
    case Forever(_) => LoopChecks(s, names, loop, c, ctx, t, sigs);
    case While(_, _) => LoopChecks(s, names, loop, c, ctx, t, sigs);
    case ForRange(_, _, _, _) => RangeChecks(s, names, loop, c, ctx, t, sigs);
    case Break => JumpChecks(Jump(Label(LoopExit, loop.GetOr(0))), names, c, ctx, t, sigs);
    case Continue => JumpChecks(Jump(Label(LoopContinue, loop.GetOr(0))), names, c, ctx, t, sigs);
    case ReturnStmt(values) => ReturnChecks(values, names, c, ctx, t, sigs);
  }

  lemma NamesThere(names: Names, ctx: Context, t: Types)
    requires Fits(names, ctx, t)
    ensures names != [] && ctx != [] && FitsBut(names, ctx, t, None)
  {
  }

  lemma JumpChecks(i: Inst, names: Names, c: Counters, ctx: Context, t: Types, sigs: Signatures)
    requires Fits(names, ctx, t) && Under(t, c.vars) && Passed(i)
    ensures Follows(Check(sigs, t, [i]), true, t, c.vars, c.vars, names, ctx)
  {
    hide Check;
    CheckPassed(sigs, t, [i]);
  }

  lemma DeclarationChecks(x: string, zero: Value, names: Names, c: Counters, ctx: Context, t: Types, sigs: Signatures)
    requires Fits(names, ctx, t) && Below(names, c.vars) && Under(t, c.vars)
    ensures Follows(Check(sigs, t, [AssignImm(c.vars, zero)]), TypeOfValue(zero).Some?, t, c.vars, c.vars + 1,
                    Bind(names, x, c.vars), Bind(ctx, x, TypeOfValue(zero).GetOr(IntType)))
  {
    hide Check, Fits, Below, Bind;
    NamesThere(names, ctx, t);
    CheckOne(sigs, t, AssignImm(c.vars, zero));
    if TypeOfValue(zero).Some? {
      var ty := TypeOfValue(zero).value;
      BoundFits(names, ctx, t, t[c.vars := ty], c.vars, x, c.vars, ty, c.vars + 1);
    }
  }

  lemma DeclareChecks(x: string, e: Expr, names: Names, loop: LoopId, c: Counters, ctx: Context, t: Types,
                      sigs: Signatures)
    requires Fits(names, ctx, t) && Below(names, c.vars) && Under(t, c.vars) && Accepted(Declare(x, e), names, loop, c)
    ensures names != [] && ctx != []
    ensures var a := LowerDeclare(x, e, names, c); var ty := TypeOfNew(x, e, ctx, Lax(sigs));
      Follows(Check(sigs, t, a.code), ty.Some?, t, c.vars, a.next.vars, a.names, Bind(ctx, x, ty.GetOr(IntType)))
  {
    hide Check, Fits, Below, TypeOf, TypeInto, ToValue, ToVar, Bind, Follows, Scoped, Resolves;
    NamesThere(names, ctx, t);
    ResolveFits(names, ctx, t, x);
    if Resolves(names, x) {
      RedeclareChecks(x, e, names, c, ctx, t, sigs);
    } else {
      NewNameChecks(x, e, names, c, ctx, t, sigs);
    }
  }

  lemma RedeclareChecks(x: string, e: Expr, names: Names, c: Counters, ctx: Context, t: Types, sigs: Signatures)
    requires Fits(names, ctx, t) && Below(names, c.vars) && Under(t, c.vars) && names != [] && ctx != []
    requires Scoped(e, names)
    ensures var a := ToValue(e, names, c); var vn := a.next.vars; var ty := TypeOf(e, ctx, Lax(sigs));
      Follows(Check(sigs, t, a.code + [Assign(vn, a.vn)]), ty.Some?, t, c.vars, vn + 1, Bind(names, x, vn),
              Bind(ctx, x, ty.GetOr(IntType)))
  {
    hide Check, Fits, Below, TypeOf, ToValue, Bind, Scoped;
    NamesThere(names, ctx, t);
    var a := ToValue(e, names, c);
    var vn := a.next.vars;
    ToValueChecks(e, names, c, ctx, t, sigs, None);
    CheckConcat(sigs, t, a.code, [Assign(vn, a.vn)]);
    var r := Check(sigs, t, a.code);
    if r.Some? {
      CheckOne(sigs, r.value, Assign(vn, a.vn));
      var ty := r.value[a.vn];
      BoundFits(names, ctx, t, r.value[vn := ty], c.vars, x, vn, ty, vn + 1);
    }
  }

  lemma NewNameChecks(x: string, e: Expr, names: Names, c: Counters, ctx: Context, t: Types, sigs: Signatures)
    requires Fits(names, ctx, t) && Below(names, c.vars) && Under(t, c.vars) && names != [] && ctx != []
    requires !Resolves(names, x) && Scoped(e, Bind(names, x, c.vars))
    ensures var a := ToVar(e, Bind(names, x, c.vars), c.vars, NewVar(c));
        var ty := TypeInto(e, ctx, Lax(sigs), Some(x));
      Follows(Check(sigs, t, a.code), ty.Some?, t, c.vars, a.next.vars, Bind(names, x, c.vars),
              Bind(ctx, x, ty.GetOr(IntType)))
  {
    hide Check, Fits, FitsBut, Below, TypeOf, TypeInto, ToVar, Bind, Scoped, Resolves;
    var names' := Bind(names, x, c.vars);
    NewNameFits(names, ctx, t, x, c.vars);
    ToVarChecks(e, names', c.vars, NewVar(c), ctx, t, sigs, Some((x, c.vars)));
    var a := ToVar(e, names', c.vars, NewVar(c));
    var r := Check(sigs, t, a.code);
    if r.Some? {
      BoundFits(names, ctx, t, r.value, c.vars, x, c.vars, r.value[c.vars], a.next.vars);
    }
  }

  lemma NewNameFits(names: Names, ctx: Context, t: Types, x: string, vn: nat)
    requires Fits(names, ctx, t) && Below(names, vn) && Under(t, vn) && !Resolves(names, x)
    ensures FitsBut(Bind(names, x, vn), ctx, t, Some((x, vn))) && Below(Bind(names, x, vn), vn + 1)
  {
    hide Fits, Below, Resolve;
    NamesThere(names, ctx, t);
    ResolveFits(names, ctx, t, x);
    WithoutNew(names, x, vn);
    BelowNew(names, x, vn);
  }

  lemma WithoutNew(names: Names, x: string, vn: nat)
    requires names != [] && !Resolves(names, x)
    ensures Without(Bind(names, x, vn), x) == names
  {
    var last := |names| - 1;
    assert names[last][x := vn] - {x} == names[last];
  }

  lemma BelowNew(names: Names, x: string, vn: nat)
    requires names != [] && Below(names, vn)
    ensures Below(Bind(names, x, vn), vn + 1)
  {
  }

  lemma SetChecks(x: string, e: Expr, names: Names, c: Counters, ctx: Context, t: Types, sigs: Signatures)
    requires Fits(names, ctx, t) && Below(names, c.vars) && Under(t, c.vars) && Resolves(names, x) && Scoped(e, names)
    ensures var a := ToValue(e, names, c);
      Follows(Check(sigs, t, a.code + [Assign(VarNamed(names, x), a.vn)]),
              Resolves(ctx, x) && TypeOf(e, ctx, Lax(sigs)) == Some(Resolve(ctx, x)), t, c.vars, a.next.vars, names,
              ctx)
  {
    hide Check, Fits, Below, TypeOf, ToValue, Resolve, Resolves, Scoped;
    var a := ToValue(e, names, c);
    NamesThere(names, ctx, t);
    ToValueChecks(e, names, c, ctx, t, sigs, None);
    CheckConcat(sigs, t, a.code, [Assign(VarNamed(names, x), a.vn)]);
    ResolveFits(names, ctx, t, x);
    var r := Check(sigs, t, a.code);
    if r.Some? {
      FitsLater(names, ctx, t, r.value, c.vars, c.vars, a.next.vars);
      ResolveFits(names, ctx, r.value, x);
      CheckOne(sigs, r.value, Assign(VarNamed(names, x), a.vn));
    }
  }

  lemma UpdateChecks(op: ArithOp, x: string, e: Expr, names: Names, c: Counters, ctx: Context, t: Types,
                     sigs: Signatures)
    requires Fits(names, ctx, t) && Below(names, c.vars) && Under(t, c.vars) && Resolves(names, x) && Scoped(e, names)
    ensures var a := ToValue(e, names, c);
      Follows(Check(sigs, t, a.code + [Arith(op, VarNamed(names, x), a.vn)]),
              Resolves(ctx, x) && TypeOf(e, ctx, Lax(sigs)) == Some(Resolve(ctx, x)) == Some(IntType), t, c.vars,
              a.next.vars, names, ctx)
  {
    hide Check, Fits, Below, TypeOf, ToValue, Resolve, Resolves, Scoped;
    var a := ToValue(e, names, c);
    NamesThere(names, ctx, t);
    ToValueChecks(e, names, c, ctx, t, sigs, None);
    CheckConcat(sigs, t, a.code, [Arith(op, VarNamed(names, x), a.vn)]);
    ResolveFits(names, ctx, t, x);
    var r := Check(sigs, t, a.code);
    if r.Some? {
      FitsLater(names, ctx, t, r.value, c.vars, c.vars, a.next.vars);
      ResolveFits(names, ctx, r.value, x);
      CheckOne(sigs, r.value, Arith(op, VarNamed(names, x), a.vn));
    }
  }

  lemma PlainChecks(e: Expr, names: Names, c: Counters, ctx: Context, t: Types, sigs: Signatures)
    requires Fits(names, ctx, t) && Below(names, c.vars) && Under(t, c.vars)
    requires (e.Name? || e.Literal? || e.ProcCall?) ==> Scoped(e, names)
    ensures var simple := e.Name? || e.Literal? || e.ProcCall?; var a := ToValue(e, names, c);
      Follows(Check(sigs, t, if simple then a.code else []), simple ==> TypeOf(e, ctx, Lax(sigs)).Some?, t, c.vars,
              if simple then a.next.vars else c.vars, names, ctx)
  {
    hide Check, Fits, Below, TypeOf, ToValue, Scoped;
    NamesThere(names, ctx, t);
    if e.Name? || e.Literal? || e.ProcCall? {
      var a := ToValue(e, names, c);
      ToValueChecks(e, names, c, ctx, t, sigs, None);
      var r := Check(sigs, t, a.code);
      if r.Some? {
        FitsLater(names, ctx, t, r.value, c.vars, c.vars, a.next.vars);
      }
    } else {
      CheckNothing(sigs, t);
    }
  }

  lemma ReturnChecks(values: seq<Expr>, names: Names, c: Counters, ctx: Context, t: Types, sigs: Signatures)
    requires Fits(names, ctx, t) && Below(names, c.vars) && Under(t, c.vars) && ScopedAll(values, names)
    ensures var a := ToValues(values, names, c);
      Follows(Check(sigs, t, a.code + [Return(a.vns)]), TypesOf(values, ctx, Lax(sigs)).Some?, t, c.vars, a.next.vars,
              names, ctx)
  {
    hide Check, Fits, Below, TypesOf, ToValues, ScopedAll, TypesAt;
    NamesThere(names, ctx, t);
    var a := ToValues(values, names, c);
    ToValuesChecks(values, names, c, ctx, t, sigs, None);
    CheckWithin(sigs, t, [], a.code, [Return(a.vns)]);
    assert [] + a.code == a.code;
    var r := Check(sigs, t, a.code);
    if r.Some? {
      FitsLater(names, ctx, t, r.value, c.vars, c.vars, a.next.vars);
    }
  }

  // ----- Statements with blocks -----

  lemma {:induction false} ThenChecks(s: Stmt, names: Names, loop: LoopId, c: Counters, ctx: Context, t: Types,
                                      sigs: Signatures)
    requires Fits(names, ctx, t) && Below(names, c.vars) && Under(t, c.vars)
    requires (s.If? || s.IfElse?) && AcceptedThen(s, names, loop, c)
    ensures var a := LowerThen(s, names, loop, c);
      BlockFollows(Check(sigs, t, a.code),
                   Decides(s.cond, ctx, Lax(sigs)) && TypedBlock(s.thn, ctx + [map[]], Lax(sigs)), t, c.vars,
                   a.next.vars)
    decreases s, 0, 0
  {
    hide Check, Fits, Below, TypeOf, TypedBlock, ToValue, LowerBlock, AcceptedBlock, Scoped;
    var inner, ctx' := names + [map[]], ctx + [map[]];
    var a := ToValue(s.cond, inner, NewLabel(NewList(NewList(c))));
    var b := LowerBlock(s.thn, inner, loop, a.next);
    var jump := JumpIf(false, false, a.vn, Label(Else, c.labels));
    InnerOpens(names, ctx, t, c.vars);
    EmptyScope(s.cond, ctx, Lax(sigs));
    ToValueChecks(s.cond, inner, NewLabel(NewList(NewList(c))), ctx', t, sigs, None);
    CheckConcat(sigs, t, [OptionSelectStart(c.lists)] + a.code + [jump], b.code);
    CheckConcat(sigs, t, [OptionSelectStart(c.lists)] + a.code + [jump] + b.code, [OptionEnd(c.lists + 1)]);
    CheckWithin(sigs, t, [OptionSelectStart(c.lists)], a.code, [jump]);
    var r := Check(sigs, t, a.code);
    if r.Some? {
      FitsLater(inner, ctx', t, r.value, c.vars, c.vars, a.next.vars);
      BelowMore(inner, c.vars, a.next.vars);
      BlockChecks(s.thn, inner, loop, a.next, ctx', r.value, sigs);
      var r2 := Check(sigs, r.value, b.code);
      if r2.Some? {
        CheckPassed(sigs, r2.value, [OptionEnd(c.lists + 1)]);
      }
    }
  }

  lemma InnerOpens(names: Names, ctx: Context, t: Types, n: nat)
    requires Fits(names, ctx, t) && Below(names, n)
    ensures Fits(names + [map[]], ctx + [map[]], t) && Below(names + [map[]], n)
    ensures FitsBut(names + [map[]], ctx + [map[]], t, None)
  {
    var level: map<string, nat>, types: map<string, Type> := map[], map[];
    InnerFits(names, ctx, t, level, types);
  }

  lemma {:induction false} IfChecks(s: Stmt, names: Names, loop: LoopId, c: Counters, ctx: Context, t: Types,
                                    sigs: Signatures)
    requires Fits(names, ctx, t) && Below(names, c.vars) && Under(t, c.vars)
    requires (s.If? || s.IfElse?) && Accepted(s, names, loop, c)
    ensures var a := LowerIf(s, names, loop, c);
      Follows(Check(sigs, t, a.code), Typed(s, ctx, Lax(sigs)), t, c.vars, a.next.vars, a.names, ctx)
    decreases s, 0, 1
  {
    hide Check, Fits, Below, TypeOf, TypedBlock, LowerThen, LowerBlock, AcceptedBlock, AcceptedThen;
    NamesThere(names, ctx, t);
    var a := LowerThen(s, names, loop, c);
    ThenChecks(s, names, loop, c, ctx, t, sigs);
    var r := Check(sigs, t, a.code);
    if s.If? {
      var after := [OptionSelectEnd, LabelAt(Label(Else, c.labels))];
      CheckConcat(sigs, t, a.code, after);
      if r.Some? {
        CheckPassed(sigs, r.value, after);
        FitsLater(names, ctx, t, r.value, c.vars, c.vars, a.next.vars);
      }
    } else {
      var end := Label(IfElseEnd, a.next.labels);
      var e := LowerBlock(s.els, names + [map[]], loop, NewLabel(NewList(a.next)));
      var mid, after := [Jump(end), LabelAt(Label(Else, c.labels))],
          [OptionEnd(a.next.lists), OptionSelectEnd, LabelAt(end)];
      assert a.code + mid + e.code + after == a.code + (mid + e.code + after);
      CheckConcat(sigs, t, a.code, mid + e.code + after);
      if r.Some? {
        CheckWithin(sigs, r.value, mid, e.code, after);
        FitsLater(names, ctx, t, r.value, c.vars, c.vars, a.next.vars);
        BelowMore(names, c.vars, a.next.vars);
        InnerOpens(names, ctx, r.value, a.next.vars);
        BlockChecks(s.els, names + [map[]], loop, NewLabel(NewList(a.next)), ctx + [map[]], r.value, sigs);
        var r2 := Check(sigs, r.value, e.code);
        if r2.Some? {
          FitsLater(names, ctx, t, r2.value, c.vars, c.vars, e.next.vars);
        }
      }
    }
  }

  lemma {:induction false} LoopChecks(s: Stmt, names: Names, loop: LoopId, c: Counters, ctx: Context, t: Types,
                                      sigs: Signatures)
    requires Fits(names, ctx, t) && Below(names, c.vars) && Under(t, c.vars)
    requires (s.Forever? || s.While?) && Accepted(s, names, loop, c)
    ensures var a := LowerLoop(s, names, c);
      Follows(Check(sigs, t, a.code), Typed(s, ctx, Lax(sigs)), t, c.vars, a.next.vars, a.names, ctx)
    decreases s, 0, 1
  {
    hide Check, Fits, Below, TypeOf, TypedBlock, ToVar, LowerBlock, AcceptedBlock, Scoped;
    NamesThere(names, ctx, t);
    InnerOpens(names, ctx, t, c.vars);
    var inner, ctx', c1 := names + [map[]], ctx + [map[]], NewLabel(NewList(c));
    var test := if s.While? then ToVar(s.cond, inner, c1.vars, NewVar(c1)) else Code([], c1);
    var exit := if s.While? then [JumpIf(false, false, c1.vars, Label(LoopExit, c.labels))] else [];
    var b := LowerBlock(s.body, inner, Some(c.labels), test.next);
    var before := [OutsideLoopMutations(c.lists), LabelAt(Label(LoopStart, c.labels))];
    var after := [LabelAt(Label(LoopContinue, c.labels))] + LoopBack(c.labels);
    var head := before + test.code + exit;
    assert LowerLoop(s, names, c).code == head + b.code + after;
    CheckConcat(sigs, t, head + b.code, after);
    CheckConcat(sigs, t, head, b.code);
    CheckWithin(sigs, t, before, test.code, exit);
    TestChecks(s, names, c, ctx, t, sigs);
    var r := Check(sigs, t, test.code);
    if r.Some? {
      FitsLater(inner, ctx', t, r.value, c.vars, c.vars, test.next.vars);
      BelowMore(inner, c.vars, test.next.vars);
      BlockChecks(s.body, inner, Some(c.labels), test.next, ctx', r.value, sigs);
      var r2 := Check(sigs, r.value, b.code);
      if r2.Some? {
        CheckPassed(sigs, r2.value, after);
        FitsLater(names, ctx, t, r2.value, c.vars, c.vars, b.next.vars);
      }
    }
  }

  lemma TestChecks(s: Stmt, names: Names, c: Counters, ctx: Context, t: Types, sigs: Signatures)
    requires Fits(names, ctx, t) && Below(names, c.vars) && Under(t, c.vars)
    requires s.Forever? || (s.While? && Scoped(s.cond, names + [map[]]))
    ensures var c1 := NewLabel(NewList(c));
      var test := if s.While? then ToVar(s.cond, names + [map[]], c1.vars, NewVar(c1)) else Code([], c1);
      BlockFollows(Check(sigs, t, test.code), s.While? ==> Decides(s.cond, ctx, Lax(sigs)), t, c.vars, test.next.vars)
  {
    hide Check, Fits, Below, TypeOf, ToVar, Scoped;
    if s.While? {
      var c1 := NewLabel(NewList(c));
      InnerOpens(names, ctx, t, c.vars);
      BelowMore(names + [map[]], c.vars, c.vars + 1);
      EmptyScope(s.cond, ctx, Lax(sigs));
      NoneInto(s.cond, ctx + [map[]], Lax(sigs));
      ToVarChecks(s.cond, names + [map[]], c1.vars, NewVar(c1), ctx + [map[]], t, sigs, None);
    } else {
      CheckNothing(sigs, t);
    }
  }

  /** Both ends of a range. */
  lemma EndsCheck(s: Stmt, names: Names, c: Counters, ctx: Context, t: Types, sigs: Signatures)
    requires Fits(names, ctx, t) && Below(names, c.vars) && Under(t, c.vars)
    requires s.ForRange? && Scoped(s.to, names) && Scoped(s.from, names)
    ensures var hi := ToValue(s.to, names, NewVar(NewLabel(NewList(c))));
        var lo := ToVar(s.from, names, c.vars, hi.next);
      var r := Check(sigs, t, hi.code + lo.code);
      && (r.Some? <==> TypeOf(s.to, ctx, Lax(sigs)).Some? && TypeOf(s.from, ctx, Lax(sigs)).Some?)
      && (r.Some? ==>
           && IsAt(r.value, hi.vn, TypeOf(s.to, ctx, Lax(sigs)).value)
           && IsAt(r.value, c.vars, TypeOf(s.from, ctx, Lax(sigs)).value)
           && Grown(t, r.value, c.vars, c.vars, lo.next.vars))
  {
    hide Check, Fits, Below, TypeOf, ToVar, ToValue, Scoped;
    var c1 := NewVar(NewLabel(NewList(c)));
    var hi := ToValue(s.to, names, c1);
    var lo := ToVar(s.from, names, c.vars, hi.next);
    NamesThere(names, ctx, t);
    BelowMore(names, c.vars, c1.vars);
    ToValueChecks(s.to, names, c1, ctx, t, sigs, None);
    CheckConcat(sigs, t, hi.code, lo.code);
    var r := Check(sigs, t, hi.code);
    if r.Some? {
      FitsLater(names, ctx, t, r.value, c1.vars, c1.vars, hi.next.vars);
      NamesThere(names, ctx, r.value);
      BelowMore(names, c.vars, hi.next.vars);
      NoneInto(s.from, ctx, Lax(sigs));
      ToVarChecks(s.from, names, c.vars, hi.next, ctx, r.value, sigs, None);
    }
  }

  /** The test of a range and the copy of its counter. */
  lemma CounterChecks(s: Stmt, iter: nat, hi: nat, test: nat, to: Type, from: Type, t: Types, before: seq<Inst>,
                      exit: Inst, sigs: Signatures)
    requires s.ForRange? && IsAt(t, hi, to) && IsAt(t, iter, from) && Under(t, test)
    requires (forall i :: 0 <= i < |before| ==> Passed(before[i])) && Passed(exit)
    ensures var named := if s.counter.Some? then [Assign(test + 1, iter)] else [];
      var next := if s.counter.Some? then test + 2 else test + 1;
      var r := Check(sigs, t, before + [Compare(LesserOrEqual, iter, hi, test), exit] + named);
      && (r.Some? <==> to == from == IntType)
      && (r.Some? ==> Grown(t, r.value, test, test, next))
      && (r.Some? ==> LevelFits(CounterNames(s.counter, test + 1), CounterTypes(s.counter), r.value))
  {
    hide Check, Passed;
    var named := if s.counter.Some? then [Assign(test + 1, iter)] else [];
    var compare := Compare(LesserOrEqual, iter, hi, test);
    CheckConcat(sigs, t, before + [compare, exit], named);
    assert before + [compare, exit] == before + [compare] + [exit];
    CheckWithin(sigs, t, before, [compare], [exit]);
    CheckOne(sigs, t, compare);
    if to == from == IntType {
      var t1 := t[test := BoolType];
      if s.counter.Some? {
        CheckOne(sigs, t1, Assign(test + 1, iter));
      } else {
        CheckNothing(sigs, t1);
      }
    }
  }

  lemma {:induction false} RangeChecks(s: Stmt, names: Names, loop: LoopId, c: Counters, ctx: Context, t: Types,
                                       sigs: Signatures)
    requires Fits(names, ctx, t) && Below(names, c.vars) && Under(t, c.vars)
    requires s.ForRange? && Accepted(s, names, loop, c)
    ensures var a := LowerRange(s, names, c);
      Follows(Check(sigs, t, a.code), Typed(s, ctx, Lax(sigs)), t, c.vars, a.next.vars, a.names, ctx)
    decreases s, 0, 1
  {
    hide Check, Fits, Below, TypeOf, TypedBlock, ToVar, ToValue, LowerBlock, AcceptedBlock, Scoped, LevelFits, Under;
    NamesThere(names, ctx, t);
    AcceptedBody(s, names, loop, c);
    PartsGrow(s, names, c);
    var p := PartsOf(s, names, c);
    var iter, ends := c.vars, p.hi.code + p.lo.code;
    var before := [OutsideLoopMutations(c.lists), LabelAt(Label(LoopStart, c.labels))];
    var exit := JumpIf(false, false, p.test, Label(LoopExit, c.labels));
    var head := before + [Compare(LesserOrEqual, iter, p.hi.vn, p.test), exit] + p.named;
    var after := [LabelAt(Label(LoopContinue, c.labels)), Increment(iter)] + LoopBack(c.labels);
    assert LowerRange(s, names, c).code == ends + head + p.body.code + after;
    CheckConcat(sigs, t, ends + head + p.body.code, after);
    CheckConcat(sigs, t, ends + head, p.body.code);
    CheckConcat(sigs, t, ends, head);
    EndsCheck(s, names, c, ctx, t, sigs);
    var r := Check(sigs, t, ends);
    if r.Some? {
      assert Under(r.value, p.test) by { assert Grown(t, r.value, c.vars, c.vars, p.test); }
      CounterChecks(s, iter, p.hi.vn, p.test, TypeOf(s.to, ctx, Lax(sigs)).value, TypeOf(s.from, ctx, Lax(sigs)).value,
          r.value, before, exit, sigs);
      var r1 := Check(sigs, r.value, head);
      if r1.Some? {
        GrownChain(t, r.value, r1.value, c.vars, c.vars, p.test, p.test, p.c.vars);
        BodyFits(s, names, c, ctx, t, r1.value);
        BlockChecks(s.body, p.inner, Some(c.labels), p.c, ctx + [CounterTypes(s.counter)], r1.value, sigs);
        var r2 := Check(sigs, r1.value, p.body.code);
        if r2.Some? {
          CheckPassed(sigs, r2.value, after);
          GrownChain(t, r1.value, r2.value, c.vars, c.vars, p.c.vars, p.c.vars, p.body.next.vars);
          FitsLater(names, ctx, t, r2.value, c.vars, c.vars, p.body.next.vars);
        }
      }
    }
  }

  lemma BodyFits(s: Stmt, names: Names, c: Counters, ctx: Context, t: Types, t': Types)
    requires Fits(names, ctx, t) && Below(names, c.vars) && s.ForRange?
    requires var p := PartsOf(s, names, c);
      && c.vars <= p.test < p.c.vars && (s.counter.Some? ==> p.test + 1 < p.c.vars)
      && Grown(t, t', c.vars, c.vars, p.c.vars)
      && LevelFits(CounterNames(s.counter, p.test + 1), CounterTypes(s.counter), t')
    ensures var p := PartsOf(s, names, c);
      Fits(p.inner, ctx + [CounterTypes(s.counter)], t') && Below(p.inner, p.c.vars) && Under(t', p.c.vars)
  {
    hide ToVar, ToValue, LowerBlock, LevelFits;
    var p := PartsOf(s, names, c);
    FitsLater(names, ctx, t, t', c.vars, c.vars, p.c.vars);
    InnerFits(names, ctx, t', CounterNames(s.counter, p.test + 1), CounterTypes(s.counter));
  }

  // ----- Procedures -----

  /** The typer accepts a compiled procedure if and only if its body is typed, as far as the compiler looks. */
  lemma TyperAcceptsExactly(name: string, params: seq<string>, types: seq<Type>, body: seq<Stmt>, labels: nat,
                            sigs: Signatures)
    requires |types| == |params|
    requires AcceptedBlock(body, [P.ParamNames(params)], None, Counters(|params|, labels, 0))
    ensures Check(sigs, ArgTypes(types), P.ProcCode(name, params, body, labels)).Some? <==>
      TypedBlock(body, [ParamTypes(params, types)], Lax(sigs))
  {
    hide Check, TypedBlock, LowerBlock, AcceptedBlock;
    var names, ctx, c := [P.ParamNames(params)], [ParamTypes(params, types)], Counters(|params|, labels, 0);
    var t := ArgTypes(types);
    assert LevelFits(names[0], ctx[0], t);
    BlockChecks(body, names, None, c, ctx, t, sigs);
    CheckWithin(sigs, t, [StartProc(name)], LowerBlock(body, names, None, c).code, [EndProc]);
  }

  /** The typer does not look at conditions: a number as one is accepted, though it has no meaning. */
  lemma NumberAsCondition(w: World, sigs: Signatures, fuel: nat)
    ensures var body := [If(Literal(Int(1)), [])];
      && TypedBlock(body, [map[]], Lax(sigs)) && !TypedBlock(body, [map[]], Rules(sigs, true))
      && ExecBlock(w, body, [map[]], [], fuel) == Meaningless
  {
    var s, ctx: Context, env: Scopes<Value> := If(Literal(Int(1)), []), [map[]], [map[]];
    assert TypeOf(s.cond, ctx, Lax(sigs)) == TypeOf(s.cond, ctx, Rules(sigs, true)) == Some(IntType);
    assert Typed(s, ctx, Lax(sigs)) && TypedBlock([], Extended(s, ctx, Lax(sigs)), Lax(sigs));
    assert Eval(w, s.cond, env, []) == Some(Evaluated(Int(1), []));
    assert ExecBranch(w, s, env, [], fuel) == Meaningless;
  }

  /** And it accepts a new name in its own value, if that is after the first operand of && or ||. */
  lemma NameInItsOwnValue(w: World, sigs: Signatures, fuel: nat)
    ensures var body := [Declare("x", LogicalAnd(Literal(Bool(true)), Name("x")))];
      && TypedBlock(body, [map[]], Lax(sigs)) && !TypedBlock(body, [map[]], Rules(sigs, true))
      && ExecBlock(w, body, [map[]], [], fuel) == Meaningless
  {
    var e := LogicalAnd(Literal(Bool(true)), Name("x"));
    var ctx: Context, env: Scopes<Value> := [map[]], [map[]];
    ShortIs(e, ctx, Rules(sigs, true));
    assert Bind(ctx, "x", BoolType)[0]["x"] == BoolType;
    assert TypeOf(Name("x"), Bind(ctx, "x", BoolType), Lax(sigs)) == Some(BoolType);
    assert TypeInto(e, ctx, Lax(sigs), Some("x")) == Some(BoolType);
    assert Resolve(Bind(env, "x", Undefined), "x") == Undefined;
    assert Eval(w, Name("x"), Bind(env, "x", Undefined), []) == None;
    assert Eval(w, e, Bind(env, "x", Undefined), []) == None;
  }
}
