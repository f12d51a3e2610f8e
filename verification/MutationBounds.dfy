/** Emitted code mutates named variables and new ones, nothing else: of the variables older than a scope, only those
    that names in sight stand for, or that are the destination of an expression, can be in a list. */
module MutationBounds {
  import opened Ir
  import opened Options
  import opened Language
  import opened Lowering
  import opened ExprLowering
  import opened StmtLowering
  import opened Simulation
  import opened Mutations

  lemma MutatedJoin(a: seq<Inst>, b: seq<Inst>, n: nat, m: nat, dests: set<nat>)
    requires n <= m && Mutated(a, n) <= dests && Mutated(b, m) <= dests
    ensures Mutated(a + b, n) <= dests
  {
    hide Mutated;
    MutatedConcat(a, b, n);
    MutatedBelow(b, m, n);
  }

  lemma MutatesNothing(code: seq<Inst>, n: nat)
    requires forall i :: 0 <= i < |code| ==> MutationVar(code[i]).None?
    ensures Mutated(code, n) == {}
  {
  }

  lemma {:induction false} ToVarMutates(e: Expr, names: Names, dest: nat, c: Counters)
    ensures Mutated(ToVar(e, names, dest, c).code, c.vars) <= {dest}
    decreases e, 2
  {
    hide Mutated;
    match e
    case Name(_) => MutatedOne(Assign(dest, VarNamed(names, e.name)), c.vars);
    case Literal(v) => MutatedOne(AssignImm(dest, v), c.vars);
    case ProcCall(callee, args) =>
      var a := ToValues(args, names, c);
      ToValuesMutate(args, names, c);
      MutatedOne(Call(dest, callee, a.vns), c.vars);
      MutatedJoin(a.code, [Call(dest, callee, a.vns)], c.vars, c.vars, {dest});
    case LogicalNot(r) =>
      var a := ToValue(r, names, c);
      ToValueMutates(r, names, c);
      MutatedOne(Not(dest, a.vn), c.vars);
      MutatedJoin(a.code, [Not(dest, a.vn)], c.vars, c.vars, {dest});
    case LogicalAnd(_, _) => ChainEndMutates(e, false, names, dest, c);
    case LogicalOr(_, _) => ChainEndMutates(e, true, names, dest, c);
    case Binary(op, l, r) => BinaryMutates(e, names, dest, c);
  }

  lemma {:induction false} BinaryMutates(e: Expr, names: Names, dest: nat, c: Counters)
    requires e.Binary?
    ensures Mutated(ToVar(e, names, dest, c).code, c.vars) <= {dest}
    decreases e, 1
  {
    hide Mutated, ToValue;
    var a := ToVar(e.left, names, c.vars, NewVar(c));
    var b := ToValue(e.right, names, a.next);
    var o := Operate(e.op, dest, c.vars, b.vn);
    ToVarMutates(e.left, names, c.vars, NewVar(c));
    ToVarGrows(e.left, names, c.vars, NewVar(c));
    MutatedBelow(a.code, c.vars + 1, c.vars);
    ToValueMutates(e.right, names, a.next);
    MutatedJoin(a.code, b.code, c.vars, a.next.vars, {dest});
    MutatedOne(o[0], c.vars);
    match e.op
    case Arithmetic(_) =>
      MutatedOne(o[1], c.vars);
      assert o == [o[0]] + [o[1]];
      MutatedJoin([o[0]], [o[1]], c.vars, c.vars, {dest});
      MutatedJoin(a.code + b.code, o, c.vars, c.vars, {dest});
    case Comparison(_) => MutatedJoin(a.code + b.code, o, c.vars, c.vars, {dest});
  }

  lemma {:induction false} ChainEndMutates(e: Expr, isOr: bool, names: Names, dest: nat, c: Counters)
    requires IsChain(e, isOr)
    ensures Mutated(ToVar(e, names, dest, c).code, c.vars) <= {dest}
    decreases e, 1, 1
  {
    hide Mutated;
    var end := ChainEnd(isOr, c.labels);
    ChainMutates(e, isOr, names, dest, end, NewLabel(c));
    MutatedOne(LabelAt(end), c.vars);
    MutatedJoin(Chain(e, isOr, names, dest, end, NewLabel(c)).code, [LabelAt(end)], c.vars, c.vars, {dest});
  }

  lemma {:induction false} ChainMutates(e: Expr, isOr: bool, names: Names, dest: nat, end: Label, c: Counters)
    ensures Mutated(Chain(e, isOr, names, dest, end, c).code, c.vars) <= {dest}
    decreases e, (if IsChain(e, isOr) then 1 else 3), 0
  {
    hide Mutated, ToValue;
    if !IsChain(e, isOr) {
      ToVarMutates(e, names, dest, c);
    } else {
      var a := Chain(e.left, isOr, names, dest, end, c);
      var b := ToValue(e.right, names, a.next);
      var jump, combine := JumpIf(isOr, true, dest, end), Combine(isOr, dest, b.vn);
      ChainMutates(e.left, isOr, names, dest, end, c);
      ChainGrows(e.left, isOr, names, dest, end, c);
      ToValueMutates(e.right, names, a.next);
      MutatedOne(jump, c.vars);
      MutatedOne(combine, c.vars);
      MutatedJoin(a.code, [jump], c.vars, c.vars, {dest});
      MutatedJoin(a.code + [jump], b.code, c.vars, a.next.vars, {dest});
      MutatedJoin(a.code + [jump] + b.code, [combine], c.vars, c.vars, {dest});
    }
  }

  lemma {:induction false} ToValueMutates(e: Expr, names: Names, c: Counters)
    ensures Mutated(ToValue(e, names, c).code, c.vars) == {}
    decreases e, 4
  {
    if e.Name? {
      MutatesNothing([], c.vars);
    } else {
      ToVarMutates(e, names, c.vars, NewVar(c));
      MutatedBelow(ToVar(e, names, c.vars, NewVar(c)).code, c.vars + 1, c.vars);
    }
  }

  lemma {:induction false} ToValuesMutate(es: seq<Expr>, names: Names, c: Counters)
    ensures Mutated(ToValues(es, names, c).code, c.vars) == {}
    decreases es, 0
  {
    hide Mutated, ToValue;
    if es == [] {
      MutatesNothing([], c.vars);
    } else {
      var a := ToValue(es[0], names, c);
      ToValueMutates(es[0], names, c);
      ToValueGrows(es[0], names, c);
      ToValuesMutate(es[1..], names, a.next);
      MutatedJoin(a.code, ToValues(es[1..], names, a.next).code, c.vars, a.next.vars, {});
    }
  }

  // ----- Statements -----

  /** The variables of the names in scope. */
  function Named(names: Names): set<nat> {
    set i, x | 0 <= i < |names| && x in names[i] :: names[i][x]
  }

  lemma {:induction false} ResolvedIsNamed(names: Names, x: string)
    requires Resolves(names, x)
    ensures VarNamed(names, x) in Named(names)
  {
    var n := |names| - 1;
    if x in names[n] {
      assert names[n][x] in Named(names);
    } else {
      ResolvedIsNamed(names[..n], x);
      var i, y :| 0 <= i < n && y in names[..n][i] && names[..n][i][y] == VarNamed(names[..n], x);
      assert names[i][y] in Named(names);
    }
  }

  lemma NamedIsNamed(names: Names)
    ensures forall v :: v in Named(names) <==> IsNamed(names, v)
  {
    forall v | IsNamed(names, v) ensures v in Named(names) {
      var i, x :| 0 <= i < |names| && x in names[i] && names[i][x] == v;
    }
    forall v | v in Named(names) ensures IsNamed(names, v) {
      var i, x :| 0 <= i < |names| && x in names[i] && names[i][x] == v;
    }
  }

  /** Names that come later have new variables. */
  lemma NamedLater(names: Names, c: Counters, names': Names, c': Counters, n: nat, code: seq<Inst>)
    requires names != [] && Below(names, c.vars) && Extends(names, c, names', c') && n <= c.vars
    requires Mutated(code, c'.vars) <= Named(names')
    ensures Mutated(code, n) <= Named(names)
  {
    hide Mutated, Named;
    MutatedBelow(code, c'.vars, n);
    NamedIsNamed(names);
    NamedIsNamed(names');
  }

  lemma {:induction false} BlockMutates(stmts: seq<Stmt>, names: Names, loop: LoopId, c: Counters)
    requires names != [] && Below(names, c.vars) && AcceptedBlock(stmts, names, loop, c)
    ensures Mutated(LowerBlock(stmts, names, loop, c).code, c.vars) <= Named(names)
    decreases stmts, 0
  {
    hide Mutated, Named, Below, Extends, LowerStmt, Accepted;
    if stmts == [] {
      MutatesNothing([], c.vars);
    } else {
      var a := LowerStmt(stmts[0], names, loop, c);
      var b := LowerBlock(stmts[1..], a.names, loop, a.next);
      StmtMutates(stmts[0], names, loop, c);
      LowerStmtExtends(stmts[0], names, loop, c);
      StillBelow(names, c, a.names, a.next);
      BlockMutates(stmts[1..], a.names, loop, a.next);
      NamedLater(names, c, a.names, a.next, c.vars, b.code);
      MutatedJoin(a.code, b.code, c.vars, c.vars, Named(names));
    }
  }

  lemma StillBelow(names: Names, c: Counters, names': Names, c': Counters)
    requires names != [] && Below(names, c.vars) && Extends(names, c, names', c')
    ensures names' != [] && Below(names', c'.vars)
  {
  }

  lemma ValueThenMutates(e: Expr, names: Names, c: Counters, i: Inst, dests: set<nat>)
    requires Mutated([i], c.vars) <= dests
    ensures Mutated(ToValue(e, names, c).code + [i], c.vars) <= dests
  {
    hide Mutated;
    ToValueMutates(e, names, c);
    MutatedJoin(ToValue(e, names, c).code, [i], c.vars, c.vars, dests);
  }

  lemma {:induction false} StmtMutates(s: Stmt, names: Names, loop: LoopId, c: Counters)
    requires names != [] && Below(names, c.vars) && Accepted(s, names, loop, c)
    ensures Mutated(LowerStmt(s, names, loop, c).code, c.vars) <= Named(names)
    decreases s, 1
  {
    hide Mutated, Named, Below, LowerIf, LowerLoop, LowerRange, ToValue, ToVar, ToValues;
    match s
    case Declaration(_, zero) => MutatedOne(AssignImm(c.vars, zero), c.vars);
    case Declare(x, e) =>
      if Resolves(names, x) {
        var a := ToValue(e, names, c);
        ToValueGrows(e, names, c);
        MutatedOne(Assign(a.next.vars, a.vn), c.vars);
        ValueThenMutates(e, names, c, Assign(a.next.vars, a.vn), Named(names));
      } else {
        ToVarMutates(e, Bind(names, x, c.vars), c.vars, NewVar(c));
        MutatedBelow(ToVar(e, Bind(names, x, c.vars), c.vars, NewVar(c)).code, c.vars + 1, c.vars);
      }
    case SetTo(x, e) => NamedMutates(x, e, names, c, Assign(VarNamed(names, x), ToValue(e, names, c).vn));
    case PlusEqual(x, e) => NamedMutates(x, e, names, c, Arith(Add, VarNamed(names, x), ToValue(e, names, c).vn));
    case MinusEqual(x, e) => NamedMutates(x, e, names, c, Arith(Sub, VarNamed(names, x), ToValue(e, names, c).vn));
    case Plain(e) => ToValueMutates(e, names, c); MutatesNothing([], c.vars);
    case If(_, _) => IfMutates(s, names, loop, c);
    case IfElse(_, _, _) => IfMutates(s, names, loop, c);
    case Forever(_) => LoopMutates(s, names, loop, c);
    case While(_, _) => LoopMutates(s, names, loop, c);
    case ForRange(_, _, _, _) => RangeMutates(s, names, loop, c);
    case Break => MutatesNothing([Jump(Label(LoopExit, loop.GetOr(0)))], c.vars);
    case Continue => MutatesNothing([Jump(Label(LoopContinue, loop.GetOr(0)))], c.vars);
    case ReturnStmt(values) =>
      var a := ToValues(values, names, c);
      ToValuesMutate(values, names, c);
      MutatesNothing([Return(a.vns)], c.vars);
      MutatedJoin(a.code, [Return(a.vns)], c.vars, c.vars, {});
  }

  lemma NamedMutates(x: string, e: Expr, names: Names, c: Counters, i: Inst)
    requires Resolves(names, x) && MutationVar(i) == Some(VarNamed(names, x))
    ensures Mutated(ToValue(e, names, c).code + [i], c.vars) <= Named(names)
  {
    hide Mutated, Named;
    ResolvedIsNamed(names, x);
    MutatedOne(i, c.vars);
    ValueThenMutates(e, names, c, i, Named(names));
  }

  lemma EmptyScopeNames(names: Names, n: nat)
    requires Below(names, n)
    ensures Below(names + [map[]], n) && Named(names + [map[]]) == Named(names)
  {
    var inner := names + [map[]];
    forall v | v in Named(names) ensures v in Named(inner) {
      var i, x :| 0 <= i < |names| && x in names[i] && names[i][x] == v;
      assert inner[i] == names[i];
    }
  }

  lemma {:induction false} ThenMutates(s: Stmt, names: Names, loop: LoopId, c: Counters)
    requires (s.If? || s.IfElse?) && names != [] && Below(names, c.vars) && AcceptedThen(s, names, loop, c)
    ensures Mutated(LowerThen(s, names, loop, c).code, c.vars) <= Named(names)
    decreases s, 0, 0
  {
    hide Mutated, Named, Below, LowerBlock, ToValue, Scoped, AcceptedBlock;
    var inner := names + [map[]];
    var c1 := NewLabel(NewList(NewList(c)));
    var a := ToValue(s.cond, inner, c1);
    var b := LowerBlock(s.thn, inner, loop, a.next);
    var start, jump, stop := [OptionSelectStart(c.lists)], [JumpIf(false, false, a.vn, Label(Else, c.labels))],
        [OptionEnd(c.lists + 1)];
    EmptyScopeNames(names, c.vars);
    ToValueMutates(s.cond, inner, c1);
    ToValueGrows(s.cond, inner, c1);
    BelowMore(inner, c.vars, a.next.vars);
    BlockMutates(s.thn, inner, loop, a.next);
    MutatesNothing(start, c.vars);
    MutatesNothing(jump, c.vars);
    MutatesNothing(stop, c.vars);
    MutatedJoin(start, a.code, c.vars, c.vars, Named(names));
    MutatedJoin(start + a.code, jump, c.vars, c.vars, Named(names));
    MutatedJoin(start + a.code + jump, b.code, c.vars, a.next.vars, Named(names));
    MutatedJoin(start + a.code + jump + b.code, stop, c.vars, c.vars, Named(names));
  }

  lemma {:induction false} IfMutates(s: Stmt, names: Names, loop: LoopId, c: Counters)
    requires (s.If? || s.IfElse?) && names != [] && Below(names, c.vars) && Accepted(s, names, loop, c)
    ensures Mutated(LowerIf(s, names, loop, c).code, c.vars) <= Named(names)
    ensures s.IfElse? ==> var c2 := LowerThen(s, names, loop, c).next;
              Mutated(LowerBlock(s.els, names + [map[]], loop, NewLabel(NewList(c2))).code, c2.vars) <= Named(names)
    decreases s, 0, 1
  {
    hide Mutated, Named, Below, LowerBlock, ToValue, Scoped, AcceptedBlock, LowerThen;
    var t := LowerThen(s, names, loop, c);
    ThenMutates(s, names, loop, c);
    LowerThenGrows(s, names, loop, c);
    if s.If? {
      var tail := [OptionSelectEnd, LabelAt(Label(Else, c.labels))];
      MutatesNothing(tail, c.vars);
      MutatedJoin(t.code, tail, c.vars, c.vars, Named(names));
    } else {
      var end := Label(IfElseEnd, t.next.labels);
      var e := LowerBlock(s.els, names + [map[]], loop, NewLabel(NewList(t.next)));
      var mid, tail := [Jump(end), LabelAt(Label(Else, c.labels))],
          [OptionEnd(t.next.lists), OptionSelectEnd, LabelAt(end)];
      EmptyScopeNames(names, c.vars);
      BelowMore(names + [map[]], c.vars, t.next.vars);
      BlockMutates(s.els, names + [map[]], loop, NewLabel(NewList(t.next)));
      MutatesNothing(mid, c.vars);
      MutatesNothing(tail, c.vars);
      MutatedJoin(t.code, mid, c.vars, c.vars, Named(names));
      MutatedJoin(t.code + mid, e.code, c.vars, t.next.vars, Named(names));
      MutatedJoin(t.code + mid + e.code, tail, c.vars, c.vars, Named(names));
    }
  }

  lemma {:induction false} LoopMutates(s: Stmt, names: Names, loop: LoopId, c: Counters)
    requires (s.Forever? || s.While?) && names != [] && Below(names, c.vars) && Accepted(s, names, loop, c)
    ensures Mutated(LowerLoop(s, names, c).code, c.vars) <= Named(names)
    decreases s, 0, 1
  {
    hide Mutated, Named, Below, LowerBlock, ToVar, Scoped, AcceptedBlock, LowerLoop;
    var inner := names + [map[]];
    var c1 := NewLabel(NewList(c));
    var test := LoopTest(s, names, c);
    var b := LowerBlock(s.body, inner, Some(c.labels), test.next);
    var head, tail := [OutsideLoopMutations(c.lists)] + [LabelAt(Label(LoopStart, c.labels))],
                      [LabelAt(Label(LoopContinue, c.labels))] + [] + LoopBack(c.labels);
    EmptyScopeNames(names, c.vars);
    LoopCode(s, names, c);
    if s.While? {
      var t := ToVar(s.cond, inner, c1.vars, NewVar(c1));
      var jump := [JumpIf(false, false, c1.vars, Label(LoopExit, c.labels))];
      ToVarMutates(s.cond, inner, c1.vars, NewVar(c1));
      ToVarGrows(s.cond, inner, c1.vars, NewVar(c1));
      MutatedBelow(t.code, c.vars + 1, c.vars);
      MutatesNothing(jump, c.vars);
      MutatedJoin(t.code, jump, c.vars, c.vars, Named(names));
    } else {
      MutatesNothing([], c.vars);
    }
    BelowMore(inner, c.vars, test.next.vars);
    BlockMutates(s.body, inner, Some(c.labels), test.next);
    MutatesNothing(head, c.vars);
    MutatesNothing(tail, c.vars);
    MutatedJoin(head, test.code, c.vars, c.vars, Named(names));
    MutatedJoin(head + test.code, b.code, c.vars, test.next.vars, Named(names));
    MutatedJoin(head + test.code + b.code, tail, c.vars, c.vars, Named(names));
    assert LowerLoop(s, names, c).code == head + test.code + b.code + tail;
  }

  /** Inside a range loop, of the variables older than its scope only named ones and the hidden counter are mutated. */
  lemma {:induction false} RangeBodyMutates(s: Stmt, names: Names, loop: LoopId, c: Counters)
    requires s.ForRange? && names != [] && Below(names, c.vars) && Accepted(s, names, loop, c)
    ensures var r := PartsOf(s, names, c);
      Mutated([Compare(LesserOrEqual, c.vars, r.hi.vn, r.test)]
          + [JumpIf(false, false, r.test, Label(LoopExit, c.labels))]
              + r.named + r.body.code, r.test) <= Named(names)
    decreases s, 0, 0
  {
    hide Mutated, Named, Below, LowerBlock, ToVar, ToValue, Scoped, AcceptedBlock;
    var r := PartsOf(s, names, c);
    var compare, jump := Compare(LesserOrEqual, c.vars, r.hi.vn, r.test),
        [JumpIf(false, false, r.test, Label(LoopExit, c.labels))];
    PartsGrow(s, names, c);
    MutatedOne(compare, r.test);
    MutatesNothing(jump, r.test);
    if s.counter.Some? {
      MutatedOne(r.named[0], r.test);
      assert r.named == [r.named[0]];
    } else {
      MutatesNothing(r.named, r.test);
    }
    RangeNames(s, names, c);
    BlockMutates(s.body, r.inner, Some(c.labels), r.c);
    MutatedBelow(r.body.code, r.c.vars, r.test);
    MutatedUnder(r.body.code, r.test, r.inner, names);
    MutatedJoin([compare], jump, r.test, r.test, Named(names));
    MutatedJoin([compare] + jump, r.named, r.test, r.test, Named(names));
    MutatedJoin([compare] + jump + r.named, r.body.code, r.test, r.test, Named(names));
  }

  lemma MutatedUnder(code: seq<Inst>, n: nat, inner: Names, names: Names)
    requires Mutated(code, n) <= Named(inner) && forall v :: v in Named(inner) && v < n ==> v in Named(names)
    ensures Mutated(code, n) <= Named(names)
  {
  }

  lemma RangeNames(s: Stmt, names: Names, c: Counters)
    requires s.ForRange? && Below(names, c.vars)
    ensures var r := PartsOf(s, names, c);
      && r.inner != [] && Below(r.inner, r.c.vars) && forall v :: v in Named(r.inner) && v < r.test ==>
          v in Named(names)
  {
    hide LowerBlock, ToVar, ToValue;
    var r := PartsOf(s, names, c);
    PartsGrow(s, names, c);
    forall v | v in Named(r.inner) && v < r.test ensures v in Named(names) {
      var i, x :| 0 <= i < |r.inner| && x in r.inner[i] && r.inner[i][x] == v;
      if i < |names| {
        assert names[i] == r.inner[i];
      }
    }
  }

  lemma {:induction false} RangeMutates(s: Stmt, names: Names, loop: LoopId, c: Counters)
    requires s.ForRange? && names != [] && Below(names, c.vars) && Accepted(s, names, loop, c)
    ensures Mutated(LowerRange(s, names, c).code, c.vars) <= Named(names)
    decreases s, 0, 1
  {
    hide Mutated, Named, Below, LowerBlock, ToVar, ToValue, Scoped, AcceptedBlock;
    var r := PartsOf(s, names, c);
    var c0 := NewVar(NewLabel(NewList(c)));
    PartsGrow(s, names, c);
    RangeCode(s, names, c);
    ToValueMutates(s.to, names, c0);
    MutatedBelow(r.hi.code, c0.vars, c.vars);
    ToVarMutates(s.from, names, c.vars, r.hi.next);
    MutatedBelow(r.lo.code, r.hi.next.vars, c.vars);
    MutatedJoin(r.hi.code, r.lo.code, c.vars, c.vars, {c.vars});
    MutatedUpTo(r.hi.code + r.lo.code, c.vars);
    RangeBodyMutates(s, names, loop, c);
    var head := [OutsideLoopMutations(c.lists)] + [LabelAt(Label(LoopStart, c.labels))];
    var mid := [Compare(LesserOrEqual, c.vars, r.hi.vn, r.test)]
        + [JumpIf(false, false, r.test, Label(LoopExit, c.labels))] + r.named + r.body.code;
    var tail := [LabelAt(Label(LoopContinue, c.labels))] + ([Increment(c.vars)] + LoopBack(c.labels));
    MutatesNothing(head, c.vars);
    MutatedOne(Increment(c.vars), c.vars);
    MutatesNothing([LabelAt(Label(LoopContinue, c.labels))], c.vars);
    MutatesNothing(LoopBack(c.labels), c.vars);
    MutatedJoin([Increment(c.vars)], LoopBack(c.labels), c.vars, c.vars, {});
    MutatedJoin([LabelAt(Label(LoopContinue, c.labels))], [Increment(c.vars)] + LoopBack(c.labels), c.vars, c.vars, {});
    MutatedJoin(r.hi.code + r.lo.code, head, c.vars, c.vars, Named(names));
    MutatedJoin(r.hi.code + r.lo.code + head, mid, c.vars, r.test, Named(names));
    MutatedJoin(r.hi.code + r.lo.code + head + mid, tail, c.vars, c.vars, Named(names));
    assert LowerRange(s, names, c).code == r.hi.code + r.lo.code + head + mid + tail;
  }

  lemma MutatedUpTo(code: seq<Inst>, n: nat)
    requires Mutated(code, n) <= {n}
    ensures Mutated(code, n) == {}
  {
  }
}
