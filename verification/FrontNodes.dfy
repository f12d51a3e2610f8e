/** A procedure body as the parser hands it over, one node a line, and what its mutation lists have to hold. */
module FrontNodes {
  import opened Ir
  import opened Options
  import opened Language
  import opened Lowering
  import opened ExprLowering
  import opened StmtLowering
  import opened Simulation
  import opened Mutations

  datatype Header = Endless | Test(cond: Expr) | Over(counter: Option<string>, from: Expr, to: Expr)

  /** Simple nodes are statements without a block. */
  datatype Node = BlockEnd | ElseNode | IfNode(cond: Expr) | Loop(header: Header) | Simple(stmt: Stmt)

  predicate HasNoBlock(s: Stmt) {
    !s.If? && !s.IfElse? && !s.Forever? && !s.While? && !s.ForRange?
  }

  function HeaderOf(s: Stmt): Header {
    match s
    case While(cond, _) => Test(cond)
    case ForRange(counter, from, to, _) => Over(counter, from, to)
    case _ => Endless
  }

  function Flatten(stmts: seq<Stmt>): seq<Node>
    decreases stmts, 1
  {
    if stmts == [] then [] else FlattenStmt(stmts[0]) + Flatten(stmts[1..])
  }

  function FlattenStmt(s: Stmt): seq<Node>
    decreases s, 0
  {
    match s
    case If(cond, thn) => [IfNode(cond)] + Flatten(thn) + [BlockEnd]
    case IfElse(cond, thn, els) => [IfNode(cond)] + Flatten(thn) + [BlockEnd] + [ElseNode] + Flatten(els) + [BlockEnd]
    case Forever(body) => [Loop(Endless)] + Flatten(body) + [BlockEnd]
    case While(cond, body) => [Loop(Test(cond))] + Flatten(body) + [BlockEnd]
    case ForRange(counter, from, to, body) => [Loop(Over(counter, from, to))] + Flatten(body) + [BlockEnd]
    case _ => [Simple(s)]
  }

  // ----- The lists -----

  ghost predicate ListIs(lists: seq<seq<nat>>, l: nat, code: seq<Inst>, first: nat) {
    l < |lists| && Ascending(lists[l]) && Elements(lists[l]) == Mutated(code, first)
  }

  /** What is inside a range loop, from its test to the increment of its hidden counter. */
  ghost function RangeInside(s: Stmt, names: Names, c: Counters): seq<Inst>
    requires s.ForRange?
  {
    var r := PartsOf(s, names, c);
    [Compare(LesserOrEqual, c.vars, r.hi.vn, r.test)] + [JumpIf(false, false, r.test, Label(LoopExit, c.labels))]
        + r.named + r.body.code
    + [LabelAt(Label(LoopContinue, c.labels))] + [Increment(c.vars)]
  }

  /** Every list belonging to a block names, in ascending order, exactly the variables that are older than its scope and
      mutated by some instruction of the scope. */
  ghost predicate ListsRight(stmts: seq<Stmt>, names: Names, loop: LoopId, c: Counters, lists: seq<seq<nat>>)
    decreases stmts, 2
  {
    stmts == [] ||
    (var a := LowerStmt(stmts[0], names, loop, c);
     ListsRightIn(stmts[0], names, loop, c, lists) && ListsRight(stmts[1..], a.names, loop, a.next, lists))
  }

  ghost predicate ThenRight(s: Stmt, names: Names, loop: LoopId, c: Counters, lists: seq<seq<nat>>)
    requires s.If? || s.IfElse?
    decreases s, 0
  {
    && ListIs(lists, c.lists + 1, LowerThen(s, names, loop, c).code, c.vars)
    && ListsRight(s.thn, names + [map[]], loop, ToValue(s.cond, names + [map[]], NewLabel(NewList(NewList(c)))).next,
        lists)
  }

  ghost predicate ListsRightIn(s: Stmt, names: Names, loop: LoopId, c: Counters, lists: seq<seq<nat>>)
    decreases s, 1
  {
    match s
    case If(_, _) =>
        ThenRight(s, names, loop, c, lists) && ListIs(lists, c.lists, LowerIf(s, names, loop, c).code, c.vars)
    case IfElse(_, _, els) =>
      var c2 := LowerThen(s, names, loop, c).next;
      var c3 := NewLabel(NewList(c2));
      && ThenRight(s, names, loop, c, lists) && ListIs(lists, c.lists, LowerIf(s, names, loop, c).code, c.vars)
      && ListIs(lists, c2.lists, LowerBlock(els, names + [map[]], loop, c3).code, c2.vars)
      && ListsRight(els, names + [map[]], loop, c3, lists)
    case Forever(body) =>
      && ListIs(lists, c.lists, LowerLoop(s, names, c).code, c.vars)
      && ListsRight(body, names + [map[]], Some(c.labels), LoopTest(s, names, c).next, lists)
    case While(_, body) =>
      && ListIs(lists, c.lists, LowerLoop(s, names, c).code, c.vars)
      && ListsRight(body, names + [map[]], Some(c.labels), LoopTest(s, names, c).next, lists)
    case ForRange(_, _, _, body) =>
      var r := PartsOf(s, names, c);
      && ListIs(lists, c.lists, RangeInside(s, names, c), r.test)
      && ListsRight(body, r.inner, Some(c.labels), r.c, lists)
    case _ => true
  }

  // ----- One statement more -----

  lemma {:induction false} LowerSnoc(stmts: seq<Stmt>, k: nat, names: Names, loop: LoopId, c: Counters)
    requires k < |stmts|
    ensures var a := LowerBlock(stmts[..k], names, loop, c); var b := LowerStmt(stmts[k], a.names, loop, a.next);
            LowerBlock(stmts[..k + 1], names, loop, c) == Lowered(a.code + b.code, b.names, b.next)
    ensures AcceptedBlock(stmts[..k + 1], names, loop, c) ==
            (var a := LowerBlock(stmts[..k], names, loop, c);
             AcceptedBlock(stmts[..k], names, loop, c) && Accepted(stmts[k], a.names, loop, a.next))
    decreases k
  {
    hide LowerStmt, Accepted;
    var s0 := stmts[0];
    var a0 := LowerStmt(s0, names, loop, c);
    if k == 0 {
      assert stmts[..1] == [s0] && stmts[..1][1..] == [] && stmts[..0] == [];
      assert LowerBlock([], names, loop, c) == Lowered([], names, c);
      assert LowerBlock([], a0.names, loop, a0.next) == Lowered([], a0.names, a0.next);
      assert [] + a0.code == a0.code == a0.code + [];
    } else {
      LowerSnoc(stmts[1..], k - 1, a0.names, loop, a0.next);
      assert stmts[..k + 1][1..] == stmts[1..][..k] && stmts[..k][1..] == stmts[1..][..k - 1];
      assert stmts[..k + 1][0] == s0 == stmts[..k][0] && stmts[1..][k - 1] == stmts[k];
      var inner := LowerBlock(stmts[1..][..k - 1], a0.names, loop, a0.next);
      var here := LowerStmt(stmts[k], inner.names, loop, inner.next);
      assert a0.code + (inner.code + here.code) == a0.code + inner.code + here.code;
    }
  }

  lemma {:induction false} ListsSnoc(stmts: seq<Stmt>, k: nat, names: Names, loop: LoopId, c: Counters,
                                     lists: seq<seq<nat>>)
    requires k < |stmts| && ListsRight(stmts[..k], names, loop, c, lists)
    requires var a := LowerBlock(stmts[..k], names, loop, c); ListsRightIn(stmts[k], a.names, loop, a.next, lists)
    ensures ListsRight(stmts[..k + 1], names, loop, c, lists)
    decreases k
  {
    hide LowerStmt, ListsRightIn;
    var s0 := stmts[0];
    var a0 := LowerStmt(s0, names, loop, c);
    assert stmts[..k + 1][0] == s0;
    if k == 0 {
      assert stmts[..1][1..] == [] && stmts[..0] == [];
      assert LowerBlock([], names, loop, c) == Lowered([], names, c);
      assert ListsRight([], a0.names, loop, a0.next, lists);
    } else {
      assert stmts[..k + 1][1..] == stmts[1..][..k] && stmts[..k][1..] == stmts[1..][..k - 1];
      assert stmts[..k][0] == s0 && stmts[1..][k - 1] == stmts[k];
      ListsSnoc(stmts[1..], k - 1, a0.names, loop, a0.next, lists);
    }
  }

  lemma {:induction false} FlattenSnoc(stmts: seq<Stmt>, k: nat)
    requires k < |stmts|
    ensures Flatten(stmts[..k + 1]) == Flatten(stmts[..k]) + FlattenStmt(stmts[k])
    ensures Flatten(stmts) == Flatten(stmts[..k]) + FlattenStmt(stmts[k]) + Flatten(stmts[k + 1..])
    decreases k
  {
    hide FlattenStmt;
    var f := FlattenStmt(stmts[0]);
    if k == 0 {
      assert stmts[..1] == [stmts[0]] && stmts[..1][1..] == [] && stmts[..0] == [];
      assert Flatten([]) == [];
      assert f + [] == f == [] + f;
    } else {
      FlattenSnoc(stmts[1..], k - 1);
      assert stmts[..k + 1][1..] == stmts[1..][..k] && stmts[..k][1..] == stmts[1..][..k - 1];
      assert stmts[1..][k..] == stmts[k + 1..] && stmts[1..][k - 1] == stmts[k];
      assert stmts[..k + 1][0] == stmts[0] == stmts[..k][0];
      var a, b, r := Flatten(stmts[1..][..k - 1]), FlattenStmt(stmts[k]), Flatten(stmts[k + 1..]);
      assert f + (a + b) == f + a + b && f + (a + b + r) == f + a + b + r;
    }
  }

  lemma {:induction false} AcceptedPrefix(stmts: seq<Stmt>, k: nat, names: Names, loop: LoopId, c: Counters)
    requires k <= |stmts| && AcceptedBlock(stmts, names, loop, c)
    ensures AcceptedBlock(stmts[..k], names, loop, c)
    decreases k
  {
    hide LowerStmt, Accepted;
    if k > 0 {
      var a := LowerStmt(stmts[0], names, loop, c);
      AcceptedPrefix(stmts[1..], k - 1, a.names, loop, a.next);
      assert stmts[..k][1..] == stmts[1..][..k - 1];
    }
  }

  // ----- Lists made later do not matter -----

  ghost predicate AgreeBetween(a: seq<seq<nat>>, b: seq<seq<nat>>, from: nat, to: nat) {
    |a| >= to && |b| >= to && forall k :: from <= k < to ==> a[k] == b[k]
  }

  lemma {:induction false} ListsRightElsewhere(stmts: seq<Stmt>, names: Names, loop: LoopId, c: Counters,
                                               a: seq<seq<nat>>, b: seq<seq<nat>>)
    requires names != [] && ListsRight(stmts, names, loop, c, a)
        && AgreeBetween(a, b, c.lists, LowerBlock(stmts, names, loop, c).next.lists)
    ensures ListsRight(stmts, names, loop, c, b)
    decreases stmts, 2
  {
    hide LowerStmt, ListsRightIn;
    if stmts != [] {
      var l := LowerStmt(stmts[0], names, loop, c);
      LowerStmtExtends(stmts[0], names, loop, c);
      LowerBlockExtends(stmts[1..], l.names, loop, l.next);
      ListsRightInElsewhere(stmts[0], names, loop, c, a, b);
      ListsRightElsewhere(stmts[1..], l.names, loop, l.next, a, b);
    }
  }

  lemma {:induction false} ThenRightElsewhere(s: Stmt, names: Names, loop: LoopId, c: Counters, a: seq<seq<nat>>,
                                              b: seq<seq<nat>>)
    requires (s.If? || s.IfElse?) && ThenRight(s, names, loop, c, a)
        && AgreeBetween(a, b, c.lists + 1, LowerThen(s, names, loop, c).next.lists)
    ensures ThenRight(s, names, loop, c, b)
    decreases s, 0
  {
    hide LowerBlock, ToValue, Mutated;
    var c1 := NewLabel(NewList(NewList(c)));
    ToValueGrows(s.cond, names + [map[]], c1);
    LowerThenGrows(s, names, loop, c);
    LowerBlockExtends(s.thn, names + [map[]], loop, ToValue(s.cond, names + [map[]], c1).next);
    ListsRightElsewhere(s.thn, names + [map[]], loop, ToValue(s.cond, names + [map[]], c1).next, a, b);
  }

  lemma {:induction false} ListsRightInElsewhere(s: Stmt, names: Names, loop: LoopId, c: Counters, a: seq<seq<nat>>,
                                                 b: seq<seq<nat>>)
    requires ListsRightIn(s, names, loop, c, a) && AgreeBetween(a, b, c.lists, LowerStmt(s, names, loop, c).next.lists)
    requires names != []
    ensures ListsRightIn(s, names, loop, c, b)
    decreases s, 1
  {
    hide LowerBlock, ToValue, ToVar, Mutated, ThenRight, LowerThen;
    match s {
      case If(_, _) => ThenRightElsewhere(s, names, loop, c, a, b); LowerThenGrows(s, names, loop, c);
      case IfElse(_, _, els) =>
        var c2 := LowerThen(s, names, loop, c).next;
        LowerThenGrows(s, names, loop, c);
        LowerBlockExtends(els, names + [map[]], loop, NewLabel(NewList(c2)));
        ThenRightElsewhere(s, names, loop, c, a, b);
        ListsRightElsewhere(els, names + [map[]], loop, NewLabel(NewList(c2)), a, b);
      case Forever(body) => LoopRightElsewhere(s, names, loop, c, a, b);
      case While(_, body) => LoopRightElsewhere(s, names, loop, c, a, b);
      case ForRange(_, _, _, body) =>
        var r := PartsOf(s, names, c);
        var c0 := NewVar(NewLabel(NewList(c)));
        PartsGrow(s, names, c);
        ToValueGrows(s.to, names, c0);
        ToVarGrows(s.from, names, c.vars, r.hi.next);
        LowerBlockExtends(body, r.inner, Some(c.labels), r.c);
        ListsRightElsewhere(body, r.inner, Some(c.labels), r.c, a, b);
      case _ =>
    }
  }

  lemma {:induction false} LoopRightElsewhere(s: Stmt, names: Names, loop: LoopId, c: Counters, a: seq<seq<nat>>,
                                              b: seq<seq<nat>>)
    requires (s.Forever? || s.While?) && names != []
    requires ListsRightIn(s, names, loop, c, a) && AgreeBetween(a, b, c.lists, LowerLoop(s, names, c).next.lists)
    ensures ListsRightIn(s, names, loop, c, b)
    decreases s, 0
  {
    hide LowerBlock, ToVar, Mutated, LowerLoop;
    var test := LoopTest(s, names, c);
    var c1 := NewLabel(NewList(c));
    if s.While? {
      ToVarGrows(s.cond, names + [map[]], c1.vars, NewVar(c1));
    }
    LoopCode(s, names, c);
    LowerBlockExtends(s.body, names + [map[]], Some(c.labels), test.next);
    ListsRightElsewhere(s.body, names + [map[]], Some(c.labels), test.next, a, b);
  }
}
