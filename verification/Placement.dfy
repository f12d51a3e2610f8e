/** Where labels and jumps are placed: labels never clash, jumps have their labels, and only loops jump backward. */
module Placement {
  import opened Ir
  import opened Options
  import opened Language
  import opened Lowering
  import opened ExprLowering
  import opened Simulation
  import opened LastUses

  predicate IsJump(i: Inst) { i.Jump? || i.JumpIf? }

  ghost predicate LabelsIn(code: seq<Inst>, lo: nat, hi: nat) {
    forall i :: 0 <= i < |code| && code[i].LabelAt? ==> lo <= code[i].target.id < hi
  }

  predicate Marks(code: seq<Inst>, t: int, l: Label) {
    0 <= t < |code| && code[t] == LabelAt(l)
  }

  /** A jump goes to one of the open labels, or to a label of the code itself: one further on, unless the jump is
      long. */
  ghost predicate Lands(code: seq<Inst>, i: int, open: set<Label>)
    requires 0 <= i < |code| && IsJump(code[i])
  {
    code[i].target in open || exists t :: Marks(code, t, code[i].target) && (i < t || IsLongJump(code[i]))
  }

  ghost predicate Back(code: seq<Inst>, t: int, i: int) {
    0 <= t <= i < |code| && IsLongJump(code[i]) && Marks(code, t, code[i].target)
  }

  ghost predicate Nests(code: seq<Inst>) {
    forall t, i, t', i' :: Back(code, t, i) && Back(code, t', i') && t < t' <= i ==> i' <= i
  }

  ghost predicate Tidy(code: seq<Inst>, open: set<Label>) {
    && (forall i :: 0 <= i < |code| && code[i].LabelAt? ==> code[i].target !in open)
    && (forall i :: 0 <= i < |code| && IsJump(code[i]) ==> Lands(code, i, open))
    && Nests(code)
  }

  /** The labels of the code are unique and numbered from lo up to hi, and its jumps are in order; jumps out of the code
      go to open labels. */
  ghost predicate Fits(code: seq<Inst>, lo: nat, hi: nat, open: set<Label>) {
    UniqueLabels(code) && LabelsIn(code, lo, hi) && Tidy(code, open)
  }

  ghost predicate Below(open: set<Label>, n: nat) {
    forall l :: l in open ==> l.id < n
  }

  lemma NoLabels(code: seq<Inst>, n: nat, open: set<Label>)
    requires forall i :: 0 <= i < |code| ==> !code[i].LabelAt? && (IsJump(code[i]) ==> code[i].target in open)
    ensures Fits(code, n, n, open)
  {
  }

  /** b may define labels that a jumps to, but not the other way round. */
  lemma TidyConcat(a: seq<Inst>, b: seq<Inst>, inner: set<Label>, open: set<Label>)
    requires UniqueLabels(a + b) && Tidy(a, inner) && Tidy(b, open) && open <= inner
    requires forall l :: l in inner && l !in open ==> LabelAt(l) in b
    ensures Tidy(a + b, open)
  {
    var c := a + b;
    assert forall i :: 0 <= i < |a| ==> c[i] == a[i];
    assert forall i :: |a| <= i < |c| ==> c[i] == b[i - |a|];
    forall i | 0 <= i < |c| && IsJump(c[i]) ensures Lands(c, i, open) {
      LandsInConcat(a, b, inner, open, i);
    }
    BackInConcat(a, b, inner, open);
    forall t, i, t', i' | Back(c, t, i) && Back(c, t', i') && t < t' <= i ensures i' <= i {
      assert i < |a| ==> Back(a, t, i);
      assert t >= |a| ==> Back(b, t - |a|, i - |a|);
      assert i' < |a| ==> Back(a, t', i');
      assert t' >= |a| ==> Back(b, t' - |a|, i' - |a|);
    }
  }

  lemma LandsInConcat(a: seq<Inst>, b: seq<Inst>, inner: set<Label>, open: set<Label>, i: nat)
    requires i < |a + b| && IsJump((a + b)[i])
    requires forall k :: 0 <= k < |a| && IsJump(a[k]) ==> Lands(a, k, inner)
    requires forall k :: 0 <= k < |b| && IsJump(b[k]) ==> Lands(b, k, open)
    requires forall l :: l in inner && l !in open ==> LabelAt(l) in b
    ensures Lands(a + b, i, open)
  {
    var c := a + b;
    var l := c[i].target;
    if i < |a| {
      assert Lands(a, i, inner);
      if l in inner {
        if l !in open {
          var t :| 0 <= t < |b| && b[t] == LabelAt(l);
          assert Marks(c, |a| + t, l);
        }
      } else {
        var t :| Marks(a, t, l) && (i < t || IsLongJump(a[i]));
        assert Marks(c, t, l);
      }
    } else {
      assert Lands(b, i - |a|, open);
      if l !in open {
        var t :| Marks(b, t, l) && (i - |a| < t || IsLongJump(b[i - |a|]));
        assert Marks(c, |a| + t, l);
      }
    }
  }

  lemma BackInConcat(a: seq<Inst>, b: seq<Inst>, inner: set<Label>, open: set<Label>)
    requires UniqueLabels(a + b) && Tidy(a, inner) && Tidy(b, open) && open <= inner
    ensures forall t, i :: Back(a + b, t, i) ==> i < |a| || t >= |a|
  {
    var c := a + b;
    assert forall k :: 0 <= k < |a| ==> c[k] == a[k];
    forall t, i | Back(c, t, i) ensures i < |a| || t >= |a| {
      if i >= |a| {
        var l := c[i].target;
        assert b[i - |a|] == c[i] && Lands(b, i - |a|, open);
        if l !in open {
          var u :| Marks(b, u, l);
          assert Marks(c, |a| + u, l) && c[|a| + u] == b[u];
          assert c[t].target == c[|a| + u].target;
        }
      }
    }
  }

  lemma FitsConcat(a: seq<Inst>, b: seq<Inst>, lo: nat, mid: nat, hi: nat, inner: set<Label>, open: set<Label>)
    requires Fits(a, lo, mid, inner) && Fits(b, mid, hi, open) && lo <= mid <= hi
    requires open <= inner && forall l :: l in inner && l !in open ==> LabelAt(l) in b
    ensures Fits(a + b, lo, hi, open)
  {
    hide Tidy;
    assert UniqueLabels(a + b);
    TidyConcat(a, b, inner, open);
  }

  lemma FitsJoin(a: seq<Inst>, b: seq<Inst>, lo: nat, mid: nat, hi: nat, open: set<Label>)
    requires Fits(a, lo, mid, open) && Fits(b, mid, hi, open) && lo <= mid <= hi
    ensures Fits(a + b, lo, hi, open)
  {
    hide Fits;
    FitsConcat(a, b, lo, mid, hi, open, open);
  }

  /** A label whose number is the one before those of the code; a may jump to it, and to labels of b. */
  lemma FitsBetween(a: seq<Inst>, l: Label, b: seq<Inst>, mid: nat, hi: nat, inner: set<Label>, open: set<Label>)
    requires Fits(a, l.id + 1, mid, inner) && Fits(b, mid, hi, open) && l.id < mid <= hi
    requires Below(open, l.id) && open <= inner && forall k :: k in inner && k !in open ==> k == l || LabelAt(k) in b
    ensures Fits(a + [LabelAt(l)] + b, l.id, hi, open)
  {
    hide Tidy, Nests;
    var m := [LabelAt(l)] + b;
    assert forall i :: 1 <= i < |m| ==> m[i] == b[i - 1];
    assert Tidy([LabelAt(l)], open) by { TidyLabel(l, open); }
    assert UniqueLabels(m);
    TidyConcat([LabelAt(l)], b, open, open);
    assert UniqueLabels(a + m);
    assert m[0] == LabelAt(l);
    forall k | k in inner && k !in open ensures LabelAt(k) in m {
      if k != l {
        var i :| 0 <= i < |b| && b[i] == LabelAt(k);
        assert m[i + 1] == LabelAt(k);
      }
    }
    TidyConcat(a, m, inner, open);
    assert a + [LabelAt(l)] + b == a + m;
  }

  lemma TidyLabel(l: Label, open: set<Label>)
    requires l !in open
    ensures Tidy([LabelAt(l)], open)
  {
  }

  lemma {:induction false} ToVarFits(e: Expr, names: Names, dest: nat, c: Counters, open: set<Label>)
    requires Below(open, c.labels)
    ensures var a := ToVar(e, names, dest, c); Fits(a.code, c.labels, a.next.labels, open)
    decreases e, 2
  {
    hide Fits;
    ToVarGrows(e, names, dest, c);
    match e
    case Name(_) => NoLabels([Assign(dest, VarNamed(names, e.name))], c.labels, open);
    case Literal(v) => NoLabels([AssignImm(dest, v)], c.labels, open);
    case ProcCall(callee, args) =>
      var a := ToValues(args, names, c);
      ToValuesFits(args, names, c, open);
      NoLabels([Call(dest, callee, a.vns)], a.next.labels, open);
      FitsJoin(a.code, [Call(dest, callee, a.vns)], c.labels, a.next.labels, a.next.labels, open);
    case LogicalNot(r) =>
      var a := ToValue(r, names, c);
      ToValueFits(r, names, c, open);
      NoLabels([Not(dest, a.vn)], a.next.labels, open);
      FitsJoin(a.code, [Not(dest, a.vn)], c.labels, a.next.labels, a.next.labels, open);
    case LogicalAnd(_, _) => ChainEndFits(e, false, names, dest, c, open);
    case LogicalOr(_, _) => ChainEndFits(e, true, names, dest, c, open);
    case Binary(op, l, r) =>
      var a := ToVar(l, names, c.vars, NewVar(c));
      var b := ToValue(r, names, a.next);
      var o := Operate(op, dest, c.vars, b.vn);
      ToVarFits(l, names, c.vars, NewVar(c), open);
      ToVarGrows(l, names, c.vars, NewVar(c));
      ToValueFits(r, names, a.next, open);
      ToValueGrows(r, names, a.next);
      FitsJoin(a.code, b.code, c.labels, a.next.labels, b.next.labels, open);
      NoLabels(o, b.next.labels, open);
      FitsJoin(a.code + b.code, o, c.labels, b.next.labels, b.next.labels, open);
  }

  lemma {:induction false} ChainEndFits(e: Expr, isOr: bool, names: Names, dest: nat, c: Counters, open: set<Label>)
    requires Below(open, c.labels)
    requires IsChain(e, isOr)
    ensures var a := Chain(e, isOr, names, dest, ChainEnd(isOr, c.labels), NewLabel(c));
            Fits(a.code + [LabelAt(ChainEnd(isOr, c.labels))], c.labels, a.next.labels, open)
    decreases e, 1, 1
  {
    var end := ChainEnd(isOr, c.labels);
    var a := Chain(e, isOr, names, dest, end, NewLabel(c));
    ChainFits(e, isOr, names, dest, end, NewLabel(c), open + {end});
    ChainGrows(e, isOr, names, dest, end, NewLabel(c));
    NoLabels([], a.next.labels, open);
    FitsBetween(a.code, end, [], a.next.labels, a.next.labels, open + {end}, open);
    assert a.code + [LabelAt(end)] + [] == a.code + [LabelAt(end)];
  }

  lemma {:induction false} ChainFits(e: Expr, isOr: bool, names: Names, dest: nat, end: Label, c: Counters,
                                     open: set<Label>)
    requires Below(open, c.labels) && end in open
    ensures var a := Chain(e, isOr, names, dest, end, c); Fits(a.code, c.labels, a.next.labels, open)
    decreases e, (if IsChain(e, isOr) then 1 else 3), 0
  {
    hide Fits;
    if !IsChain(e, isOr) {
      ToVarFits(e, names, dest, c, open);
    } else {
      var a := Chain(e.left, isOr, names, dest, end, c);
      var b := ToValue(e.right, names, a.next);
      var jump, combine := [JumpIf(isOr, true, dest, end)], [Combine(isOr, dest, b.vn)];
      ChainFits(e.left, isOr, names, dest, end, c, open);
      ChainGrows(e.left, isOr, names, dest, end, c);
      ToValueFits(e.right, names, a.next, open);
      ToValueGrows(e.right, names, a.next);
      NoLabels(jump, a.next.labels, open);
      FitsJoin(a.code, jump, c.labels, a.next.labels, a.next.labels, open);
      FitsJoin(a.code + jump, b.code, c.labels, a.next.labels, b.next.labels, open);
      NoLabels(combine, b.next.labels, open);
      FitsJoin(a.code + jump + b.code, combine, c.labels, b.next.labels, b.next.labels, open);
    }
  }

  lemma {:induction false} ToValueFits(e: Expr, names: Names, c: Counters, open: set<Label>)
    requires Below(open, c.labels)
    ensures var a := ToValue(e, names, c); Fits(a.code, c.labels, a.next.labels, open)
    decreases e, 4
  {
    if e.Name? {
      NoLabels([], c.labels, open);
    } else {
      ToVarFits(e, names, c.vars, NewVar(c), open);
    }
  }

  lemma {:induction false} ToValuesFits(es: seq<Expr>, names: Names, c: Counters, open: set<Label>)
    requires Below(open, c.labels)
    ensures var a := ToValues(es, names, c); Fits(a.code, c.labels, a.next.labels, open)
    decreases es, 0
  {
    hide Fits;
    if es == [] {
      NoLabels([], c.labels, open);
    } else {
      var a := ToValue(es[0], names, c);
      var rest := ToValues(es[1..], names, a.next);
      ToValueFits(es[0], names, c, open);
      ToValueGrows(es[0], names, c);
      ToValuesFits(es[1..], names, a.next, open);
      ToValuesGrows(es[1..], names, a.next);
      FitsJoin(a.code, rest.code, c.labels, a.next.labels, rest.next.labels, open);
    }
  }

  /** Where break and continue go. */
  function Exits(loop: LoopId): set<Label> {
    match loop
    case None => {}
    case Some(id) => {Label(LoopExit, id), Label(LoopContinue, id)}
  }

  lemma {:induction false} BlockFits(stmts: seq<Stmt>, names: Names, loop: LoopId, c: Counters, open: set<Label>)
    requires Below(open, c.labels) && AcceptedBlock(stmts, names, loop, c) && Exits(loop) <= open
    ensures var a := LowerBlock(stmts, names, loop, c);
        c.labels <= a.next.labels && Fits(a.code, c.labels, a.next.labels, open)
    decreases stmts, 0
  {
    hide Fits;
    if stmts == [] {
      NoLabels([], c.labels, open);
    } else {
      var a := LowerStmt(stmts[0], names, loop, c);
      var b := LowerBlock(stmts[1..], a.names, loop, a.next);
      StmtFits(stmts[0], names, loop, c, open);
      BlockFits(stmts[1..], a.names, loop, a.next, open);
      FitsJoin(a.code, b.code, c.labels, a.next.labels, b.next.labels, open);
    }
  }

  lemma {:induction false} StmtFits(s: Stmt, names: Names, loop: LoopId, c: Counters, open: set<Label>)
    requires Below(open, c.labels) && Accepted(s, names, loop, c) && Exits(loop) <= open
    ensures var a := LowerStmt(s, names, loop, c);
        c.labels <= a.next.labels && Fits(a.code, c.labels, a.next.labels, open)
    decreases s, 1
  {
    hide Fits, LowerIf, LowerLoop, LowerRange;
    match s
    case Declaration(_, zero) => NoLabels([AssignImm(c.vars, zero)], c.labels, open);
    case Declare(x, e) =>
      if Resolves(names, x) {
        var a := ToValue(e, names, c);
        ValueThenFits(e, names, c, Assign(a.next.vars, a.vn), open);
      } else {
        ToVarFits(e, Bind(names, x, c.vars), c.vars, NewVar(c), open);
        ToVarGrows(e, Bind(names, x, c.vars), c.vars, NewVar(c));
      }
    case SetTo(x, e) => ValueThenFits(e, names, c, Assign(VarNamed(names, x), ToValue(e, names, c).vn), open);
    case PlusEqual(x, e) => ValueThenFits(e, names, c, Arith(Add, VarNamed(names, x), ToValue(e, names, c).vn), open);
    case MinusEqual(x, e) => ValueThenFits(e, names, c, Arith(Sub, VarNamed(names, x), ToValue(e, names, c).vn), open);
    case Plain(e) =>
      if e.Name? || e.Literal? || e.ProcCall? {
        ToValueFits(e, names, c, open);
        ToValueGrows(e, names, c);
      } else {
        NoLabels([], c.labels, open);
      }
    case If(_, _) => IfFits(s, names, loop, c, open);
    case IfElse(_, _, _) => IfFits(s, names, loop, c, open);
    case Forever(_) => LoopFits(s, names, loop, c, open);
    case While(_, _) => LoopFits(s, names, loop, c, open);
    case ForRange(_, _, _, _) => RangeFits(s, names, loop, c, open);
    case Break => NoLabels([Jump(Label(LoopExit, loop.GetOr(0)))], c.labels, open);
    case Continue => NoLabels([Jump(Label(LoopContinue, loop.GetOr(0)))], c.labels, open);
    case ReturnStmt(values) =>
      var a := ToValues(values, names, c);
      ToValuesFits(values, names, c, open);
      ToValuesGrows(values, names, c);
      NoLabels([Return(a.vns)], a.next.labels, open);
      FitsJoin(a.code, [Return(a.vns)], c.labels, a.next.labels, a.next.labels, open);
  }

  lemma ValueThenFits(e: Expr, names: Names, c: Counters, i: Inst, open: set<Label>)
    requires Below(open, c.labels)
    requires !i.LabelAt? && !IsJump(i)
    ensures var a := ToValue(e, names, c);
        c.labels <= a.next.labels && Fits(a.code + [i], c.labels, a.next.labels, open)
  {
    hide Fits;
    var a := ToValue(e, names, c);
    ToValueFits(e, names, c, open);
    ToValueGrows(e, names, c);
    NoLabels([i], a.next.labels, open);
    FitsJoin(a.code, [i], c.labels, a.next.labels, a.next.labels, open);
  }

  lemma {:induction false} IfFits(s: Stmt, names: Names, loop: LoopId, c: Counters, open: set<Label>)
    requires s.If? || s.IfElse?
    requires Below(open, c.labels) && Accepted(s, names, loop, c) && Exits(loop) <= open
    ensures var a := LowerIf(s, names, loop, c);
        c.labels <= a.next.labels && Fits(a.code, c.labels, a.next.labels, open)
    decreases s, 0, 1
  {
    hide Fits, ToValue, LowerBlock, LowerThen;
    var inner := names + [map[]];
    var c1 := NewLabel(NewList(NewList(c)));
    var a := ToValue(s.cond, inner, c1);
    var b := LowerBlock(s.thn, inner, loop, a.next);
    var l := Label(Else, c.labels);
    var open1 := open + {l};
    var start, jump, stop := [OptionSelectStart(c.lists)], [JumpIf(false, false, a.vn, l)], [OptionEnd(c.lists + 1)];
    IfCode(s, names, loop, c);
    ToValueFits(s.cond, inner, c1, open1);
    ToValueGrows(s.cond, inner, c1);
    BlockFits(s.thn, inner, loop, a.next, open1);
    NoLabels(start, c1.labels, open1);
    FitsJoin(start, a.code, c1.labels, c1.labels, a.next.labels, open1);
    NoLabels(jump, a.next.labels, open1);
    FitsJoin(start + a.code, jump, c1.labels, a.next.labels, a.next.labels, open1);
    FitsJoin(start + a.code + jump, b.code, c1.labels, a.next.labels, b.next.labels, open1);
    NoLabels(stop, b.next.labels, open1);
    var head := start + a.code + jump + b.code + stop;
    FitsJoin(start + a.code + jump + b.code, stop, c1.labels, b.next.labels, b.next.labels, open1);
    if s.If? {
      NoLabels([OptionSelectEnd], b.next.labels, open1);
      FitsJoin(head, [OptionSelectEnd], c1.labels, b.next.labels, b.next.labels, open1);
      NoLabels([], b.next.labels, open);
      FitsBetween(head + [OptionSelectEnd], l, [], b.next.labels, b.next.labels, open1, open);
      assert head + [OptionSelectEnd] + [LabelAt(l)] + [] == LowerIf(s, names, loop, c).code;
    } else {
      ElseFits(s, names, loop, c, head, b.next, open);
    }
  }

  lemma {:induction false} ElseFits(s: Stmt, names: Names, loop: LoopId, c: Counters, head: seq<Inst>, c2: Counters,
                                    open: set<Label>)
    requires s.IfElse?
    requires Below(open, c.labels) && Accepted(s, names, loop, c) && Exits(loop) <= open
    requires LowerThen(s, names, loop, c) == Code(head, c2)
    requires c.labels + 1 <= c2.labels && Fits(head, c.labels + 1, c2.labels, open + {Label(Else, c.labels)})
    ensures var a := LowerIf(s, names, loop, c);
        c.labels <= a.next.labels && Fits(a.code, c.labels, a.next.labels, open)
    decreases s, 0, 0
  {
    hide Fits, ToValue, LowerBlock, LowerThen;
    var l, end := Label(Else, c.labels), Label(IfElseEnd, c2.labels);
    var open1, openEnd := open + {l}, open + {end};
    var e := LowerBlock(s.els, names + [map[]], loop, NewLabel(NewList(c2)));
    var close := [OptionEnd(c2.lists), OptionSelectEnd];
    BlockFits(s.els, names + [map[]], loop, NewLabel(NewList(c2)), openEnd);
    JumpFits(head, c.labels + 1, end, open1);
    NoLabels(close, e.next.labels, openEnd);
    FitsJoin(e.code, close, c2.labels + 1, e.next.labels, e.next.labels, openEnd);
    NoLabels([], e.next.labels, open);
    FitsBetween(e.code + close, end, [], e.next.labels, e.next.labels, openEnd, open);
    var tail := e.code + close + [LabelAt(end)] + [];
    assert tail[|e.code + close|] == LabelAt(end);
    FitsBetween(head + [Jump(end)], l, tail, c2.labels, e.next.labels, open1 + {end}, open);
    IfCode(s, names, loop, c);
    assert LowerIf(s, names, loop, c).code == head + [Jump(end)] + [LabelAt(l)] + tail;
  }

  /** A jump to a label with the next number, at the end. */
  lemma JumpFits(code: seq<Inst>, lo: nat, l: Label, open: set<Label>)
    requires Fits(code, lo, l.id, open)
    ensures Fits(code + [Jump(l)], lo, l.id, open + {l})
  {
    TidyMore(code, open, open + {l});
    NoLabels([Jump(l)], l.id, open + {l});
    TidyConcat(code, [Jump(l)], open + {l}, open + {l});
  }

  lemma TidyMore(code: seq<Inst>, open: set<Label>, more: set<Label>)
    requires Tidy(code, open) && open <= more
    requires forall i :: 0 <= i < |code| && code[i].LabelAt? ==> code[i].target !in more
    ensures Tidy(code, more)
  {
    hide Nests;
    forall i | 0 <= i < |code| && IsJump(code[i]) ensures Lands(code, i, more) {
      assert Lands(code, i, open);
    }
  }

  function WholeLoop(pre: seq<Inst>, mid: seq<Inst>, step: seq<Inst>, id: nat): seq<Inst> {
    pre + [LabelAt(Label(LoopStart, id))] + mid + [LabelAt(Label(LoopContinue, id))] + step + LoopBack(id)
  }

  predicate Inert(code: seq<Inst>) {
    forall i :: 0 <= i < |code| ==> !code[i].LabelAt? && !IsJump(code[i])
  }

  /** The pieces of a loop by position. */
  lemma LoopPieces(pre: seq<Inst>, mid: seq<Inst>, step: seq<Inst>, id: nat)
    requires Inert(pre) && Inert(step)
    ensures var code := WholeLoop(pre, mid, step, id); var m0 := |pre| + 1; var m1 := m0 + |mid|;
        var back := m1 + 1 + |step|;
      && |code| == back + 3
      && code[m0 - 1] == LabelAt(Label(LoopStart, id)) && code[m1] == LabelAt(Label(LoopContinue, id))
      && code[back] == Jump(Label(LoopStart, id)) && code[back + 2] == LabelAt(Label(LoopExit, id))
      && (forall k :: 0 <= k < |mid| ==> code[m0 + k] == mid[k])
      && (forall i :: m0 <= i < m1 ==> code[i] == mid[i - m0])
      && (forall i :: 0 <= i < |code| && code[i].LabelAt? ==> m0 - 1 <= i <= m1 || i == back + 2)
      && (forall i :: 0 <= i < |code| && IsJump(code[i]) ==> m0 <= i < m1 || i == back)
  {
    var code, m0 := WholeLoop(pre, mid, step, id), |pre| + 1;
    var m1 := m0 + |mid|;
    assert forall i :: 0 <= i < |pre| ==> code[i] == pre[i];
    assert forall i :: m1 < i < m1 + 1 + |step| ==> code[i] == step[i - m1 - 1];
  }

  /** The three labels of a loop share a number but not a kind; its jump back goes round everything inside. */
  lemma LoopFitsTogether(pre: seq<Inst>, mid: seq<Inst>, step: seq<Inst>, id: nat, lo: nat, hi: nat, open: set<Label>)
    requires Inert(pre) && Inert(step)
    requires Fits(mid, lo, hi, open + Exits(Some(id))) && id < lo <= hi && Below(open, id)
    ensures Fits(WholeLoop(pre, mid, step, id), id, hi, open)
  {
    var code := WholeLoop(pre, mid, step, id);
    LoopPieces(pre, mid, step, id);
    LoopLabelsUnique(pre, mid, step, id, lo, hi);
    var inner := open + Exits(Some(id));
    forall i | 0 <= i < |code| && IsJump(code[i]) ensures Lands(code, i, open) {
      LoopJumpLands(pre, mid, step, id, inner, open, i);
    }
    LoopNests(pre, mid, step, id, lo, hi, inner);
  }

  lemma LoopLabelsUnique(pre: seq<Inst>, mid: seq<Inst>, step: seq<Inst>, id: nat, lo: nat, hi: nat)
    requires Inert(pre) && Inert(step) && UniqueLabels(mid) && LabelsIn(mid, lo, hi) && id < lo <= hi
    ensures var code := WholeLoop(pre, mid, step, id); UniqueLabels(code) && LabelsIn(code, id, hi)
    ensures var code := WholeLoop(pre, mid, step, id);
            forall i :: 0 <= i < |code| && code[i].LabelAt? ==> code[i].target.id == id || |pre| < i <= |pre| + |mid|
  {
    hide WholeLoop;
    LoopPieces(pre, mid, step, id);
    var code, m0 := WholeLoop(pre, mid, step, id), |pre| + 1;
    var m1, exit := m0 + |mid|, |code| - 1;
    forall i, j | 0 <= i < j < |code| && code[i].LabelAt? && code[j].LabelAt? ensures code[i].target != code[j].target {
      if m0 <= i < m1 && m0 <= j < m1 {
        assert mid[i - m0].target != mid[j - m0].target;
      }
    }
  }

  lemma LoopJumpLands(pre: seq<Inst>, mid: seq<Inst>, step: seq<Inst>, id: nat, inner: set<Label>, open: set<Label>,
                      i: nat)
    requires Inert(pre) && Inert(step) && inner == open + Exits(Some(id))
    requires forall k :: 0 <= k < |mid| && IsJump(mid[k]) ==> Lands(mid, k, inner)
    requires i < |WholeLoop(pre, mid, step, id)| && IsJump(WholeLoop(pre, mid, step, id)[i])
    ensures Lands(WholeLoop(pre, mid, step, id), i, open)
  {
    hide WholeLoop;
    LoopPieces(pre, mid, step, id);
    var code, m0 := WholeLoop(pre, mid, step, id), |pre| + 1;
    var l := code[i].target;
    assert Marks(code, m0 - 1, Label(LoopStart, id));
    assert Marks(code, m0 + |mid|, Label(LoopContinue, id));
    assert Marks(code, |code| - 1, Label(LoopExit, id));
    if i < m0 + |mid| {
      assert Lands(mid, i - m0, inner);
      if l !in inner {
        var t :| Marks(mid, t, l) && (i - m0 < t || IsLongJump(mid[i - m0]));
        assert Marks(code, m0 + t, l);
      }
    }
  }

  lemma LoopNests(pre: seq<Inst>, mid: seq<Inst>, step: seq<Inst>, id: nat, lo: nat, hi: nat, inner: set<Label>)
    requires Inert(pre) && Inert(step) && UniqueLabels(WholeLoop(pre, mid, step, id)) && id < lo
    requires LabelsIn(mid, lo, hi) && Tidy(mid, inner) && Exits(Some(id)) <= inner && Below(inner, id + 1)
    requires forall l :: l in inner && l.id == id ==> l in Exits(Some(id))
    ensures Nests(WholeLoop(pre, mid, step, id))
  {
    hide WholeLoop, UniqueLabels;
    LoopPieces(pre, mid, step, id);
    var code, m0 := WholeLoop(pre, mid, step, id), |pre| + 1;
    var back := |code| - 3;
    forall t, i | Back(code, t, i) ensures (t == m0 - 1 && i == back)
        || (m0 <= t && i < m0 + |mid| && Back(mid, t - m0, i - m0)) {
      LoopBackJumps(pre, mid, step, id, lo, hi, inner, t, i);
    }
  }

  lemma LoopBackJumps(pre: seq<Inst>, mid: seq<Inst>, step: seq<Inst>, id: nat, lo: nat, hi: nat, inner: set<Label>,
                      t: int, i: int)
    requires Inert(pre) && Inert(step) && UniqueLabels(WholeLoop(pre, mid, step, id)) && id < lo
    requires LabelsIn(mid, lo, hi) && Tidy(mid, inner) && Exits(Some(id)) <= inner && Below(inner, id + 1)
    requires forall l :: l in inner && l.id == id ==> l in Exits(Some(id))
    requires Back(WholeLoop(pre, mid, step, id), t, i)
    ensures var m0 := |pre| + 1;
      (t == m0 - 1 && i == |WholeLoop(pre, mid, step, id)| - 3)
          || (m0 <= t && i < m0 + |mid| && Back(mid, t - m0, i - m0))
  {
    hide WholeLoop, Nests;
    LoopPieces(pre, mid, step, id);
    var code, m0 := WholeLoop(pre, mid, step, id), |pre| + 1;
    var l := code[i].target;
    if i < m0 + |mid| {
      assert Lands(mid, i - m0, inner);
      assert code[i] == mid[i - m0];
      if t == m0 - 1 {
        // a label of the loop that is not one of its exits
      }
    }
  }

  lemma {:induction false} LoopFits(s: Stmt, names: Names, loop: LoopId, c: Counters, open: set<Label>)
    requires s.Forever? || s.While?
    requires Below(open, c.labels) && Accepted(s, names, loop, c)
    ensures var a := LowerLoop(s, names, c); c.labels <= a.next.labels && Fits(a.code, c.labels, a.next.labels, open)
    decreases s, 0
  {
    hide Fits, LowerBlock, ToVar, LowerLoop;
    var c1 := NewLabel(NewList(c));
    var names1 := names + [map[]];
    var inner := open + Exits(Some(c.labels));
    var test := LoopTest(s, names, c);
    var b := LowerBlock(s.body, names1, Some(c.labels), test.next);
    LoopCode(s, names, c);
    if s.While? {
      var t := ToVar(s.cond, names1, c1.vars, NewVar(c1));
      var jump := [JumpIf(false, false, c1.vars, Label(LoopExit, c.labels))];
      ToVarFits(s.cond, names1, c1.vars, NewVar(c1), inner);
      ToVarGrows(s.cond, names1, c1.vars, NewVar(c1));
      NoLabels(jump, t.next.labels, inner);
      FitsJoin(t.code, jump, c1.labels, t.next.labels, t.next.labels, inner);
    } else {
      NoLabels([], c1.labels, inner);
    }
    BlockFits(s.body, names1, Some(c.labels), test.next, inner);
    FitsJoin(test.code, b.code, c1.labels, test.next.labels, b.next.labels, inner);
    LoopFitsTogether([OutsideLoopMutations(c.lists)], test.code + b.code, [], c.labels, c1.labels, b.next.labels, open);
    assert LowerLoop(s, names, c).code == WholeLoop([OutsideLoopMutations(c.lists)], test.code + b.code, [], c.labels);
  }

  lemma {:induction false} RangeFits(s: Stmt, names: Names, loop: LoopId, c: Counters, open: set<Label>)
    requires s.ForRange?
    requires Below(open, c.labels) && Accepted(s, names, loop, c)
    ensures var a := LowerRange(s, names, c); c.labels <= a.next.labels && Fits(a.code, c.labels, a.next.labels, open)
    decreases s, 0
  {
    hide Fits, LowerBlock, ToVar, ToValue;
    var r := PartsOf(s, names, c);
    var inner := open + Exits(Some(c.labels));
    RangeCode(s, names, c);
    PartsGrow(s, names, c);
    BoundsFit(s, names, c, open);
    BlockFits(s.body, r.inner, Some(c.labels), r.c, inner);
    var bounds := r.hi.code + r.lo.code;
    var between := [Compare(LesserOrEqual, c.vars, r.hi.vn, r.test)]
        + [JumpIf(false, false, r.test, Label(LoopExit, c.labels))] + r.named;
    NoLabels(between, r.c.labels, inner);
    FitsJoin(between, r.body.code, r.c.labels, r.c.labels, r.body.next.labels, inner);
    RangePiecesFit(bounds, between + r.body.code, c.lists, c.vars, c.labels, r.c.labels, r.body.next.labels, open);
    assert LowerRange(s, names, c).code ==
           bounds + WholeLoop([OutsideLoopMutations(c.lists)], between + r.body.code, [Increment(c.vars)], c.labels);
  }

  lemma BoundsFit(s: Stmt, names: Names, c: Counters, open: set<Label>)
    requires s.ForRange? && Below(open, c.labels)
    ensures var r := PartsOf(s, names, c);
        c.labels < r.c.labels && Fits(r.hi.code + r.lo.code, c.labels + 1, r.c.labels, open)
  {
    hide Fits, LowerBlock, ToVar, ToValue;
    var r := PartsOf(s, names, c);
    var c0 := NewVar(NewLabel(NewList(c)));
    ToValueFits(s.to, names, c0, open);
    ToValueGrows(s.to, names, c0);
    ToVarFits(s.from, names, c.vars, r.hi.next, open);
    ToVarGrows(s.from, names, c.vars, r.hi.next);
    FitsJoin(r.hi.code, r.lo.code, c0.labels, r.hi.next.labels, r.lo.next.labels, open);
  }

  /** The bounds come first but take their label numbers after the loop's own. */
  lemma RangePiecesFit(bounds: seq<Inst>, mid: seq<Inst>, list: nat, iter: nat, id: nat, n: nat, hi: nat,
                       open: set<Label>)
    requires Fits(bounds, id + 1, n, open) && Fits(mid, n, hi, open + Exits(Some(id))) && id < n <= hi
        && Below(open, id)
    ensures Fits(bounds + WholeLoop([OutsideLoopMutations(list)], mid, [Increment(iter)], id), id, hi, open)
  {
    hide Tidy, WholeLoop;
    LoopFitsTogether([OutsideLoopMutations(list)], mid, [Increment(iter)], id, n, hi, open);
    LoopLabelsUnique([OutsideLoopMutations(list)], mid, [Increment(iter)], id, n, hi);
    var loop := WholeLoop([OutsideLoopMutations(list)], mid, [Increment(iter)], id);
    LoopPieces([OutsideLoopMutations(list)], mid, [Increment(iter)], id);
    forall i | 0 <= i < |loop| && loop[i].LabelAt? ensures loop[i].target.id == id || n <= loop[i].target.id < hi {
      if 2 <= i < 2 + |mid| {
        assert loop[i] == mid[i - 2];
      }
    }
    UniqueConcat(bounds, loop);
    TidyConcat(bounds, loop, open, open);
  }

  lemma UniqueConcat(a: seq<Inst>, b: seq<Inst>)
    requires UniqueLabels(a) && UniqueLabels(b)
    requires forall i, j :: 0 <= i < |a| && a[i].LabelAt? && 0 <= j < |b| && b[j].LabelAt? ==>
        a[i].target != b[j].target
    ensures UniqueLabels(a + b)
  {
  }
}
