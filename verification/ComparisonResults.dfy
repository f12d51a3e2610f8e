/** Where the results of comparisons go in emitted code: always to new variables, so no select lists one. */
module ComparisonResults {
  import opened Ir
  import opened Options
  import opened Language
  import opened Lowering
  import opened ExprLowering
  import opened StmtLowering
  import opened Simulation
  import opened Mutations
  import opened FrontNodes
  import B = PrecomputeBlocks
  import O = PrecomputeOnce

  /** Every comparison in the code puts its result in a variable numbered n or above. */
  ghost predicate NewResults(code: seq<Inst>, n: nat) {
    forall i :: i in code && i.Compare? ==> i.result >= n
  }

  lemma ResultsJoin(a: seq<Inst>, b: seq<Inst>, n: nat)
    requires NewResults(a, n) && NewResults(b, n)
    ensures NewResults(a + b, n)
  {
  }

  lemma NoResults(code: seq<Inst>, n: nat)
    requires forall k :: 0 <= k < |code| ==> !code[k].Compare?
    ensures NewResults(code, n)
  {
  }

  // ----- Expressions -----

  lemma {:induction false} ToVarResults(e: Expr, names: Names, dest: nat, c: Counters, n: nat)
    requires n <= dest && n <= c.vars
    ensures NewResults(ToVar(e, names, dest, c).code, n)
    decreases e, 2
  {
    hide NewResults, ToValue, ToValues, Chain;
    match e
    case Name(_) => NoResults(ToVar(e, names, dest, c).code, n);
    case Literal(_) => NoResults(ToVar(e, names, dest, c).code, n);
    case ProcCall(callee, args) =>
      var a := ToValues(args, names, c);
      ToValuesResults(args, names, c, n);
      NoResults([Call(dest, callee, a.vns)], n);
      ResultsJoin(a.code, [Call(dest, callee, a.vns)], n);
    case LogicalNot(r) =>
      var a := ToValue(r, names, c);
      ToValueResults(r, names, c, n);
      NoResults([Not(dest, a.vn)], n);
      ResultsJoin(a.code, [Not(dest, a.vn)], n);
    case LogicalAnd(_, _) => ChainEndResults(e, false, names, dest, c, n);
    case LogicalOr(_, _) => ChainEndResults(e, true, names, dest, c, n);
    case Binary(op, l, r) =>
      var a := ToVar(l, names, c.vars, NewVar(c));
      var b := ToValue(r, names, a.next);
      ToVarResults(l, names, c.vars, NewVar(c), n);
      ToVarGrows(l, names, c.vars, NewVar(c));
      ToValueResults(r, names, a.next, n);
      OperateResults(op, dest, c.vars, b.vn, n);
      ResultsJoin(a.code, b.code, n);
      ResultsJoin(a.code + b.code, Operate(op, dest, c.vars, b.vn), n);
  }

  lemma OperateResults(op: BinaryOp, dest: nat, left: nat, right: nat, n: nat)
    requires n <= dest
    ensures NewResults(Operate(op, dest, left, right), n)
  {
  }

  lemma {:induction false} ChainEndResults(e: Expr, isOr: bool, names: Names, dest: nat, c: Counters, n: nat)
    requires IsChain(e, isOr) && n <= dest && n <= c.vars
    ensures NewResults(ToVar(e, names, dest, c).code, n)
    decreases e, 1, 1
  {
    hide NewResults, Chain;
    var end := ChainEnd(isOr, c.labels);
    ChainResults(e, isOr, names, dest, end, NewLabel(c), n);
    NoResults([LabelAt(end)], n);
    ResultsJoin(Chain(e, isOr, names, dest, end, NewLabel(c)).code, [LabelAt(end)], n);
  }

  lemma {:induction false} ChainResults(e: Expr, isOr: bool, names: Names, dest: nat, end: Label, c: Counters, n: nat)
    requires n <= dest && n <= c.vars
    ensures NewResults(Chain(e, isOr, names, dest, end, c).code, n)
    decreases e, (if IsChain(e, isOr) then 1 else 3), 0
  {
    hide NewResults, ToValue;
    if !IsChain(e, isOr) {
      ToVarResults(e, names, dest, c, n);
    } else {
      var a := Chain(e.left, isOr, names, dest, end, c);
      var b := ToValue(e.right, names, a.next);
      var jump, combine := JumpIf(isOr, true, dest, end), Combine(isOr, dest, b.vn);
      ChainResults(e.left, isOr, names, dest, end, c, n);
      ChainGrows(e.left, isOr, names, dest, end, c);
      ToValueResults(e.right, names, a.next, n);
      NoResults([jump], n);
      NoResults([combine], n);
      ResultsJoin(a.code, [jump], n);
      ResultsJoin(a.code + [jump], b.code, n);
      ResultsJoin(a.code + [jump] + b.code, [combine], n);
    }
  }

  lemma {:induction false} ToValueResults(e: Expr, names: Names, c: Counters, n: nat)
    requires n <= c.vars
    ensures NewResults(ToValue(e, names, c).code, n)
    decreases e, 4
  {
    if !e.Name? {
      ToVarResults(e, names, c.vars, NewVar(c), n);
    }
  }

  lemma {:induction false} ToValuesResults(es: seq<Expr>, names: Names, c: Counters, n: nat)
    requires n <= c.vars
    ensures NewResults(ToValues(es, names, c).code, n)
    decreases es, 0
  {
    hide NewResults, ToValue;
    if es == [] {
      NoResults([], n);
    } else {
      var a := ToValue(es[0], names, c);
      ToValueResults(es[0], names, c, n);
      ToValueGrows(es[0], names, c);
      ToValuesResults(es[1..], names, a.next, n);
      ResultsJoin(a.code, ToValues(es[1..], names, a.next).code, n);
    }
  }

  // ----- Statements -----

  lemma ValueThen(e: Expr, names: Names, c: Counters, i: Inst, n: nat)
    requires n <= c.vars && !i.Compare?
    ensures NewResults(ToValue(e, names, c).code + [i], n)
  {
    hide NewResults, ToValue;
    ToValueResults(e, names, c, n);
    NoResults([i], n);
    ResultsJoin(ToValue(e, names, c).code, [i], n);
  }

  lemma {:induction false} BlockResults(stmts: seq<Stmt>, names: Names, loop: LoopId, c: Counters, n: nat)
    requires n <= c.vars
    ensures NewResults(LowerBlock(stmts, names, loop, c).code, n)
    decreases stmts, 0
  {
    hide NewResults, LowerStmt;
    if stmts == [] {
      NoResults([], n);
    } else {
      var a := LowerStmt(stmts[0], names, loop, c);
      StmtResults(stmts[0], names, loop, c, n);
      LowerStmtExtends(stmts[0], names, loop, c);
      BlockResults(stmts[1..], a.names, loop, a.next, n);
      ResultsJoin(a.code, LowerBlock(stmts[1..], a.names, loop, a.next).code, n);
    }
  }

  lemma {:induction false} StmtResults(s: Stmt, names: Names, loop: LoopId, c: Counters, n: nat)
    requires n <= c.vars
    ensures NewResults(LowerStmt(s, names, loop, c).code, n)
    decreases s, 1
  {
    hide NewResults, LowerIf, LowerLoop, LowerRange, ToValue, ToVar, ToValues;
    if names == [] {
      NoResults([], n);
      return;
    }
    match s
    case Declaration(_, zero) => NoResults([AssignImm(c.vars, zero)], n);
    case Declare(x, e) =>
      if Resolves(names, x) {
        ValueThen(e, names, c, Assign(ToValue(e, names, c).next.vars, ToValue(e, names, c).vn), n);
      } else {
        ToVarResults(e, Bind(names, x, c.vars), c.vars, NewVar(c), n);
      }
    case SetTo(x, e) => ValueThen(e, names, c, Assign(VarNamed(names, x), ToValue(e, names, c).vn), n);
    case PlusEqual(x, e) => ValueThen(e, names, c, Arith(Add, VarNamed(names, x), ToValue(e, names, c).vn), n);
    case MinusEqual(x, e) => ValueThen(e, names, c, Arith(Sub, VarNamed(names, x), ToValue(e, names, c).vn), n);
    case Plain(e) =>
      ToValueResults(e, names, c, n);
      NoResults([], n);
    case If(_, _) => IfResults(s, names, loop, c, n);
    case IfElse(_, _, _) => IfResults(s, names, loop, c, n);
    case Forever(_) => LoopResults(s, names, c, n);
    case While(_, _) => LoopResults(s, names, c, n);
    case ForRange(_, _, _, _) => RangeResults(s, names, c, n);
    case Break => NoResults([Jump(Label(LoopExit, loop.GetOr(0)))], n);
    case Continue => NoResults([Jump(Label(LoopContinue, loop.GetOr(0)))], n);
    case ReturnStmt(values) =>
      var a := ToValues(values, names, c);
      ToValuesResults(values, names, c, n);
      NoResults([Return(a.vns)], n);
      ResultsJoin(a.code, [Return(a.vns)], n);
  }

  lemma {:induction false} ThenResults(s: Stmt, names: Names, loop: LoopId, c: Counters, n: nat)
    requires (s.If? || s.IfElse?) && n <= c.vars
    ensures NewResults(LowerThen(s, names, loop, c).code, n)
    decreases s, 0, 0
  {
    hide NewResults, LowerBlock, ToValue;
    var inner := names + [map[]];
    var c1 := NewLabel(NewList(NewList(c)));
    var a := ToValue(s.cond, inner, c1);
    var b := LowerBlock(s.thn, inner, loop, a.next);
    var start, jump, stop := [OptionSelectStart(c.lists)], [JumpIf(false, false, a.vn, Label(Else, c.labels))],
        [OptionEnd(c.lists + 1)];
    ToValueResults(s.cond, inner, c1, n);
    ToValueGrows(s.cond, inner, c1);
    BlockResults(s.thn, inner, loop, a.next, n);
    NoResults(start, n);
    NoResults(jump, n);
    NoResults(stop, n);
    ResultsJoin(start, a.code, n);
    ResultsJoin(start + a.code, jump, n);
    ResultsJoin(start + a.code + jump, b.code, n);
    ResultsJoin(start + a.code + jump + b.code, stop, n);
  }

  lemma {:induction false} IfResults(s: Stmt, names: Names, loop: LoopId, c: Counters, n: nat)
    requires (s.If? || s.IfElse?) && n <= c.vars
    ensures NewResults(LowerIf(s, names, loop, c).code, n)
    decreases s, 0, 1
  {
    hide NewResults, LowerBlock, LowerThen;
    var t := LowerThen(s, names, loop, c);
    ThenResults(s, names, loop, c, n);
    LowerThenGrows(s, names, loop, c);
    if s.If? {
      var tail := [OptionSelectEnd, LabelAt(Label(Else, c.labels))];
      NoResults(tail, n);
      ResultsJoin(t.code, tail, n);
    } else {
      var end := Label(IfElseEnd, t.next.labels);
      var e := LowerBlock(s.els, names + [map[]], loop, NewLabel(NewList(t.next)));
      var mid, tail := [Jump(end), LabelAt(Label(Else, c.labels))],
          [OptionEnd(t.next.lists), OptionSelectEnd, LabelAt(end)];
      BlockResults(s.els, names + [map[]], loop, NewLabel(NewList(t.next)), n);
      NoResults(mid, n);
      NoResults(tail, n);
      ResultsJoin(t.code, mid, n);
      ResultsJoin(t.code + mid, e.code, n);
      ResultsJoin(t.code + mid + e.code, tail, n);
    }
  }

  lemma {:induction false} LoopResults(s: Stmt, names: Names, c: Counters, n: nat)
    requires (s.Forever? || s.While?) && n <= c.vars
    ensures NewResults(LowerLoop(s, names, c).code, n)
    decreases s, 0, 1
  {
    hide NewResults, LowerBlock, ToVar;
    var inner := names + [map[]];
    var c1 := NewLabel(NewList(c));
    var test := LoopTest(s, names, c);
    var b := LowerBlock(s.body, inner, Some(c.labels), test.next);
    var head := [OutsideLoopMutations(c.lists), LabelAt(Label(LoopStart, c.labels))];
    var exit := if s.While? then [JumpIf(false, false, c1.vars, Label(LoopExit, c.labels))] else [];
    if s.While? {
      ToVarResults(s.cond, inner, c1.vars, NewVar(c1), n);
      ToVarGrows(s.cond, inner, c1.vars, NewVar(c1));
    } else {
      NoResults([], n);
    }
    BlockResults(s.body, inner, Some(c.labels), test.next, n);
    NoResults(head, n);
    NoResults(exit, n);
    NoResults([LabelAt(Label(LoopContinue, c.labels))], n);
    NoResults(LoopBack(c.labels), n);
    var code := if s.While? then ToVar(s.cond, inner, c1.vars, NewVar(c1)).code else [];
    ResultsJoin(head, code, n);
    ResultsJoin(head + code, exit, n);
    ResultsJoin(head + code + exit, b.code, n);
    ResultsJoin(head + code + exit + b.code, [LabelAt(Label(LoopContinue, c.labels))], n);
    ResultsJoin(head + code + exit + b.code + [LabelAt(Label(LoopContinue, c.labels))], LoopBack(c.labels), n);
  }

  lemma {:induction false} RangeResults(s: Stmt, names: Names, c: Counters, n: nat)
    requires s.ForRange? && n <= c.vars
    ensures NewResults(LowerRange(s, names, c).code, n)
    decreases s, 0, 1
  {
    hide NewResults, LowerBlock, ToVar, ToValue;
    var r := PartsOf(s, names, c);
    PartsGrow(s, names, c);
    ToValueResults(s.to, names, NewVar(NewLabel(NewList(c))), n);
    ToVarResults(s.from, names, c.vars, r.hi.next, n);
    BlockResults(s.body, r.inner, Some(c.labels), r.c, n);
    var head := [OutsideLoopMutations(c.lists), LabelAt(Label(LoopStart, c.labels))];
    var test := [Compare(LesserOrEqual, c.vars, r.hi.vn, r.test),
        JumpIf(false, false, r.test, Label(LoopExit, c.labels))];
    var step := [LabelAt(Label(LoopContinue, c.labels)), Increment(c.vars)];
    NoResults(head, n);
    TestResults(test, r.test, n);
    NoResults(r.named, n);
    NoResults(step, n);
    NoResults(LoopBack(c.labels), n);
    ResultsJoin(r.hi.code, r.lo.code, n);
    ResultsJoin(r.hi.code + r.lo.code, head, n);
    ResultsJoin(r.hi.code + r.lo.code + head, test, n);
    ResultsJoin(r.hi.code + r.lo.code + head + test, r.named, n);
    ResultsJoin(r.hi.code + r.lo.code + head + test + r.named, r.body.code, n);
    ResultsJoin(r.hi.code + r.lo.code + head + test + r.named + r.body.code, step, n);
    ResultsJoin(r.hi.code + r.lo.code + head + test + r.named + r.body.code + step, LoopBack(c.labels), n);
    assert LowerRange(s, names, c).code == r.hi.code + r.lo.code + head + test + r.named + r.body.code + step
        + LoopBack(c.labels);
  }

  lemma TestResults(test: seq<Inst>, vn: nat, n: nat)
    requires forall i :: i in test && i.Compare? ==> i.result == vn
    requires n <= vn
    ensures NewResults(test, n)
  {
  }

  // ----- Selects -----

  /** The list names no variable that the code compares into. */
  ghost predicate Spares(lists: seq<seq<nat>>, l: nat, code: seq<Inst>) {
    l < |lists| && forall i :: i in code && i.Compare? ==> i.result !in lists[l]
  }

  lemma SelectSpares(s: Stmt, names: Names, loop: LoopId, c: Counters, lists: seq<seq<nat>>)
    requires (s.If? || s.IfElse?) && ListIs(lists, c.lists, LowerIf(s, names, loop, c).code, c.vars)
    ensures Spares(lists, c.lists, LowerIf(s, names, loop, c).code)
  {
    hide LowerIf, Ascending;
    IfResults(s, names, loop, c, c.vars);
    forall v | v in lists[c.lists] ensures v < c.vars {
      assert v in Elements(lists[c.lists]);
    }
  }

  /** No select in the block, at any depth, lists a variable that something inside it compares into. */
  ghost predicate SelectsSpare(stmts: seq<Stmt>, names: Names, loop: LoopId, c: Counters, lists: seq<seq<nat>>)
    decreases stmts, 2
  {
    stmts == [] ||
    (var a := LowerStmt(stmts[0], names, loop, c);
     SelectsSpareIn(stmts[0], names, loop, c, lists) && SelectsSpare(stmts[1..], a.names, loop, a.next, lists))
  }

  ghost predicate SelectsSpareIn(s: Stmt, names: Names, loop: LoopId, c: Counters, lists: seq<seq<nat>>)
    decreases s, 1
  {
    match s
    case If(cond, thn) =>
      && Spares(lists, c.lists, LowerIf(s, names, loop, c).code)
      && SelectsSpare(thn, names + [map[]], loop, ToValue(cond, names + [map[]], NewLabel(NewList(NewList(c)))).next,
          lists)
    case IfElse(cond, thn, els) =>
      && Spares(lists, c.lists, LowerIf(s, names, loop, c).code)
      && SelectsSpare(thn, names + [map[]], loop, ToValue(cond, names + [map[]], NewLabel(NewList(NewList(c)))).next,
          lists)
      && SelectsSpare(els, names + [map[]], loop, NewLabel(NewList(LowerThen(s, names, loop, c).next)), lists)
    case Forever(body) => SelectsSpare(body, names + [map[]], Some(c.labels), LoopTest(s, names, c).next, lists)
    case While(_, body) => SelectsSpare(body, names + [map[]], Some(c.labels), LoopTest(s, names, c).next, lists)
    case ForRange(_, _, _, body) =>
        SelectsSpare(body, PartsOf(s, names, c).inner, Some(c.labels), PartsOf(s, names, c).c, lists)
    case _ => true
  }

  /** With the lists the generator makes, no select lists the result of a comparison inside it. */
  lemma {:induction false} NoSelectListsResult(stmts: seq<Stmt>, names: Names, loop: LoopId, c: Counters,
                                               lists: seq<seq<nat>>)
    requires ListsRight(stmts, names, loop, c, lists)
    ensures SelectsSpare(stmts, names, loop, c, lists)
    decreases stmts, 2
  {
    hide LowerStmt, ListsRightIn, SelectsSpareIn;
    if stmts != [] {
      var a := LowerStmt(stmts[0], names, loop, c);
      NoSelectListsResultIn(stmts[0], names, loop, c, lists);
      NoSelectListsResult(stmts[1..], a.names, loop, a.next, lists);
    }
  }

  lemma {:induction false} NoSelectListsResultIn(s: Stmt, names: Names, loop: LoopId, c: Counters, lists: seq<seq<nat>>)
    requires ListsRightIn(s, names, loop, c, lists)
    ensures SelectsSpareIn(s, names, loop, c, lists)
    decreases s, 1
  {
    hide LowerIf, LowerThen, ListsRight, SelectsSpare, Spares, ListIs, ToValue, PartsOf;
    match s
    case If(cond, thn) =>
      SelectSpares(s, names, loop, c, lists);
      NoSelectListsResult(thn, names + [map[]], loop, ToValue(cond, names + [map[]],
          NewLabel(NewList(NewList(c)))).next, lists);
    case IfElse(cond, thn, els) =>
      SelectSpares(s, names, loop, c, lists);
      NoSelectListsResult(thn, names + [map[]], loop, ToValue(cond, names + [map[]],
          NewLabel(NewList(NewList(c)))).next, lists);
      NoSelectListsResult(els, names + [map[]], loop, NewLabel(NewList(LowerThen(s, names, loop, c).next)), lists);
    case Forever(body) => NoSelectListsResult(body, names + [map[]], Some(c.labels), LoopTest(s, names, c).next, lists);
    case While(_, body) =>
        NoSelectListsResult(body, names + [map[]], Some(c.labels), LoopTest(s, names, c).next, lists);
    case ForRange(_, _, _, body) =>
      NoSelectListsResult(body, PartsOf(s, names, c).inner, Some(c.labels), PartsOf(s, names, c).c, lists);
    case _ =>
  }

  // ----- What this means for compile-time evaluation -----

  lemma {:induction false} ComparedIsThere(items: seq<B.Item>, v: nat)
    requires v in O.ComparedInto(items)
    ensures exists i :: i in B.Flatten(items) && i.Compare? && i.result == v
    decreases items, 1
  {
    if v in O.ComparedIntoItem(items[0]) {
      ComparedIsThereIn(items[0], v);
    } else {
      ComparedIsThere(items[1..], v);
    }
  }

  lemma {:induction false} ComparedIsThereIn(item: B.Item, v: nat)
    requires v in O.ComparedIntoItem(item)
    ensures exists i :: i in B.FlattenItem(item) && i.Compare? && i.result == v
    decreases item, 0
  {
    match item
    case Do(i) => assert i in B.FlattenItem(item);
    case Select(list, test, cond, thn, _, otherwise, hasElse, els, _, end) =>
      if v in O.ComparedInto(test) {
        ComparedIsThere(test, v);
      } else if v in O.ComparedInto(thn) {
        ComparedIsThere(thn, v);
      } else {
        ComparedIsThere(els, v);
      }
  }

  /** A select of compiled code lists no result of a comparison in it: half of what OnceIsEnough asks for. */
  lemma CompiledSelect(s: Stmt, names: Names, loop: LoopId, c: Counters, lists: seq<seq<nat>>, item: B.Item)
    requires (s.If? || s.IfElse?) && ListIs(lists, c.lists, LowerIf(s, names, loop, c).code, c.vars)
    requires item.Select? && item.list == c.lists && B.FlattenItem(item) == LowerIf(s, names, loop, c).code
    ensures forall v :: v in B.Listed(lists, item.list) ==> v !in O.ComparedIntoItem(item)
  {
    hide LowerIf, ListIs;
    SelectSpares(s, names, loop, c, lists);
    forall v | v in O.ComparedIntoItem(item) ensures v !in B.Listed(lists, item.list) {
      ComparedIsThereIn(item, v);
    }
  }
}
