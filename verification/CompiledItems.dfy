/** Loop-free statements as the items that compile-time evaluation is about: they have the same code, read only what is
    in scope, and change nothing of the scope around that their lists do not name. */
module CompiledItems {
  import opened Ir
  import opened Options
  import opened Language
  import opened Lowering
  import opened ExprLowering
  import opened StmtLowering
  import opened Mutations
  import opened MutationBounds
  import opened Precompute
  import opened PrecomputeSimple
  import B = PrecomputeBlocks
  import P = PrecomputeSound
  import F = FrontNodes

  type Items = seq<B.Item>

  function Dos(code: seq<Inst>): Items {
    seq(|code|, i requires 0 <= i < |code| => B.Do(code[i]))
  }

  function ItemsOf(stmts: seq<Stmt>, names: Names, c: Counters): Items
    decreases stmts, 0
  {
    if stmts == [] then []
    else
      var a := LowerStmt(stmts[0], names, None, c);
      ItemsOfStmt(stmts[0], names, c) + ItemsOf(stmts[1..], a.names, a.next)
  }

  function ItemsOfStmt(s: Stmt, names: Names, c: Counters): Items
    decreases s, 1
  {
    if names != [] && (s.If? || s.IfElse?) then [ItemOfIf(s, names, c)] else Dos(LowerStmt(s, names, None, c).code)
  }

  function ItemOfIf(s: Stmt, names: Names, c: Counters): B.Item
    requires s.If? || s.IfElse?
    decreases s, 0
  {
    var inner, otherwise := names + [map[]], Label(Else, c.labels);
    var a := ToValue(s.cond, inner, NewLabel(NewList(NewList(c))));
    var thn := ItemsOf(s.thn, inner, a.next);
    if s.If? then B.Select(c.lists, Dos(a.code), a.vn, thn, c.lists + 1, otherwise, false, [], 0, otherwise)
    else
      var c2 := LowerThen(s, names, None, c).next;
      B.Select(c.lists, Dos(a.code), a.vn, thn, c.lists + 1, otherwise,
               true, ItemsOf(s.els, inner, NewLabel(NewList(c2))), c2.lists, Label(IfElseEnd, c2.labels))
  }

  // ----- The same code -----

  lemma {:induction false} FlattenConcat(a: Items, b: Items)
    ensures B.Flatten(a + b) == B.Flatten(a) + B.Flatten(b)
    decreases |a|
  {
    hide B.FlattenItem;
    if a == [] {
      assert a + b == b;
    } else {
      assert (a + b)[1..] == a[1..] + b;
      FlattenConcat(a[1..], b);
    }
  }

  lemma FlattenNothing()
    ensures B.Flatten([]) == []
  {
  }

  lemma {:induction false} FlattenDos(code: seq<Inst>)
    ensures B.Flatten(Dos(code)) == code
    decreases |code|
  {
    if code != [] {
      assert Dos(code)[1..] == Dos(code[1..]);
      FlattenDos(code[1..]);
    }
  }

  /** The items of statements have the statements' code. */
  lemma {:induction false} ItemsAreCode(stmts: seq<Stmt>, names: Names, c: Counters)
    ensures B.Flatten(ItemsOf(stmts, names, c)) == LowerBlock(stmts, names, None, c).code
    decreases stmts, 0
  {
    hide B.Flatten, LowerStmt, ItemsOfStmt;
    if stmts == [] {
      FlattenNothing();
    } else {
      var a := LowerStmt(stmts[0], names, None, c);
      StmtIsCode(stmts[0], names, c);
      ItemsAreCode(stmts[1..], a.names, a.next);
      FlattenConcat(ItemsOfStmt(stmts[0], names, c), ItemsOf(stmts[1..], a.names, a.next));
    }
  }

  lemma {:induction false} StmtIsCode(s: Stmt, names: Names, c: Counters)
    ensures B.Flatten(ItemsOfStmt(s, names, c)) == LowerStmt(s, names, None, c).code
    decreases s, 1
  {
    hide B.FlattenItem, LowerIf, ItemOfIf, LowerLoop, LowerRange;
    if names != [] && (s.If? || s.IfElse?) {
      var item := ItemOfIf(s, names, c);
      IfIsCode(s, names, c);
      assert [item][1..] == [] && B.Flatten([item]) == B.FlattenItem(item) + [];
    } else {
      FlattenDos(LowerStmt(s, names, None, c).code);
    }
  }

  lemma {:induction false} IfIsCode(s: Stmt, names: Names, c: Counters)
    requires s.If? || s.IfElse?
    ensures B.FlattenItem(ItemOfIf(s, names, c)) == LowerIf(s, names, None, c).code
    decreases s, 0
  {
    hide B.Flatten, LowerBlock, ToValue, ItemsOf;
    var inner := names + [map[]];
    var a := ToValue(s.cond, inner, NewLabel(NewList(NewList(c))));
    FlattenDos(a.code);
    ItemsAreCode(s.thn, inner, a.next);
    if s.IfElse? {
      ItemsAreCode(s.els, inner, NewLabel(NewList(LowerThen(s, names, None, c).next)));
    }
  }

  // ----- What compile-time evaluation covers -----

  /** No calls, no short-circuit operators, no division. */
  predicate Calculable(e: Expr) {
    match e
    case Name(_) => true
    case Literal(v) => IsWord(v)
    case LogicalNot(r) => Calculable(r)
    case Binary(op, l, r) => op != Arithmetic(Div) && Calculable(l) && Calculable(r)
    case _ => false
  }

  predicate Calculates(stmts: seq<Stmt>, names: Names, c: Counters)
    decreases stmts, 0
  {
    stmts == [] ||
    (var a := LowerStmt(stmts[0], names, None, c);
     CalculatesIn(stmts[0], names, c) && Calculates(stmts[1..], a.names, a.next))
  }

  /** No loops, no return, and no variable that its own declaration reads. */
  predicate CalculatesIn(s: Stmt, names: Names, c: Counters)
    decreases s, 1
  {
    match s
    case Declaration(_, zero) => IsWord(zero)
    case Declare(_, e) => Calculable(e) && Scoped(e, names)
    case SetTo(_, e) => Calculable(e)
    case PlusEqual(_, e) => Calculable(e)
    case MinusEqual(_, e) => Calculable(e)
    case Plain(e) => !e.ProcCall? && (e.Literal? ==> Calculable(e))
    case If(_, _) => CalculatesThen(s, names, c)
    case IfElse(_, _, els) =>
      CalculatesThen(s, names, c) && Calculates(els, names + [map[]],
          NewLabel(NewList(LowerThen(s, names, None, c).next)))
    case _ => false
  }

  predicate CalculatesThen(s: Stmt, names: Names, c: Counters)
    requires s.If? || s.IfElse?
    decreases s, 0
  {
    && Calculable(s.cond)
    && Calculates(s.thn, names + [map[]], ToValue(s.cond, names + [map[]], NewLabel(NewList(NewList(c)))).next)
  }

  // ----- Straight code -----

  /** Only variables in scope are read, and n bounds all of them. */
  predicate Reads(n: nat, scope: set<nat>, code: seq<Inst>)
    decreases |code|
  {
    code == [] ||
    (Supported(code[0]) && ReadsOf(code[0]) <= scope && OutOf(code[0]) < n
        && Reads(n, scope + {OutOf(code[0])}, code[1..]))
  }

  function Outs(code: seq<Inst>): set<nat> {
    set k | 0 <= k < |code| && MutationVar(code[k]).Some? :: MutationVar(code[k]).value
  }

  lemma OutsConcat(a: seq<Inst>, b: seq<Inst>)
    ensures Outs(a + b) == Outs(a) + Outs(b)
  {
    forall v | v in Outs(a) + Outs(b) ensures v in Outs(a + b) {
      if v in Outs(a) {
        var i :| 0 <= i < |a| && MutationVar(a[i]) == Some(v);
        assert (a + b)[i] == a[i];
      } else {
        var i :| 0 <= i < |b| && MutationVar(b[i]) == Some(v);
        assert (a + b)[|a| + i] == b[i];
      }
    }
    forall v | v in Outs(a + b) ensures v in Outs(a) + Outs(b) {
      var i :| 0 <= i < |a + b| && MutationVar((a + b)[i]) == Some(v);
      assert i < |a| ==> (a + b)[i] == a[i];
      assert i >= |a| ==> (a + b)[i] == b[i - |a|];
    }
  }

  lemma OutsOne(i: Inst)
    ensures Outs([i]) == if MutationVar(i).Some? then {MutationVar(i).value} else {}
  {
    if MutationVar(i).Some? {
      assert [i][0] == i;
      assert MutationVar(i).value in Outs([i]);
    }
  }

  lemma OutsFirst(code: seq<Inst>)
    requires code != [] && Supported(code[0])
    ensures Outs(code) == {OutOf(code[0])} + Outs(code[1..])
  {
    assert code == [code[0]] + code[1..];
    OutsConcat([code[0]], code[1..]);
    OutsOne(code[0]);
  }

  lemma {:induction false} ReadsMore(n: nat, scope: set<nat>, more: set<nat>, code: seq<Inst>)
    requires Reads(n, scope, code) && scope <= more
    ensures Reads(n, more, code)
    decreases |code|
  {
    if code != [] {
      ReadsMore(n, scope + {OutOf(code[0])}, more + {OutOf(code[0])}, code[1..]);
    }
  }

  lemma {:induction false} ReadsJoin(n: nat, scope: set<nat>, a: seq<Inst>, b: seq<Inst>)
    requires Reads(n, scope, a) && Reads(n, scope + Outs(a), b)
    ensures Reads(n, scope, a + b)
    decreases |a|
  {
    if a == [] {
      assert a + b == b && scope + Outs(a) == scope;
    } else {
      var out := OutOf(a[0]);
      OutsFirst(a);
      assert (a + b)[1..] == a[1..] + b && scope + Outs(a) == scope + {out} + Outs(a[1..]);
      ReadsJoin(n, scope + {out}, a[1..], b);
    }
  }

  lemma ReadsOne(n: nat, scope: set<nat>, i: Inst)
    requires Supported(i) && ReadsOf(i) <= scope && OutOf(i) < n
    ensures Reads(n, scope, [i])
  {
    assert [i][1..] == [];
    assert Reads(n, scope + {OutOf(i)}, []);
  }

  // ----- Expressions -----

  lemma {:induction false} ToVarReads(e: Expr, names: Names, dest: nat, c: Counters, n: nat, scope: set<nat>)
    requires Calculable(e) && Scoped(e, names) && Named(names) <= scope && dest < n
        && ToVar(e, names, dest, c).next.vars <= n
    ensures Reads(n, scope, ToVar(e, names, dest, c).code) && dest in Outs(ToVar(e, names, dest, c).code)
    decreases e, 2
  {
    hide Named, Reads, Outs;
    match e
    case Name(x) =>
      ResolvedIsNamed(names, x);
      ReadsOne(n, scope, Assign(dest, VarNamed(names, x)));
      OutsOne(Assign(dest, VarNamed(names, x)));
    case Literal(v) =>
      ReadsOne(n, scope, AssignImm(dest, v));
      OutsOne(AssignImm(dest, v));
    case LogicalNot(r) =>
      var a := ToValue(r, names, c);
      ToValueReads(r, names, c, n, scope);
      ReadsOne(n, scope + Outs(a.code), Not(dest, a.vn));
      ReadsJoin(n, scope, a.code, [Not(dest, a.vn)]);
      OutsConcat(a.code, [Not(dest, a.vn)]);
      OutsOne(Not(dest, a.vn));
    case Binary(op, l, r) => BinaryReads(e, names, dest, c, n, scope);
    case _ =>
  }

  lemma {:induction false} BinaryReads(e: Expr, names: Names, dest: nat, c: Counters, n: nat, scope: set<nat>)
    requires e.Binary? && Calculable(e) && Scoped(e, names) && Named(names) <= scope
    requires dest < n && ToVar(e, names, dest, c).next.vars <= n
    ensures Reads(n, scope, ToVar(e, names, dest, c).code) && dest in Outs(ToVar(e, names, dest, c).code)
    decreases e, 1
  {
    hide Named, Reads, Outs, ToValue;
    var a := ToVar(e.left, names, c.vars, NewVar(c));
    var b := ToValue(e.right, names, a.next);
    var last := Operate(e.op, dest, c.vars, b.vn);
    ToVarGrows(e.left, names, c.vars, NewVar(c));
    ToValueGrows(e.right, names, a.next);
    ToVarReads(e.left, names, c.vars, NewVar(c), n, scope);
    ToValueReads(e.right, names, a.next, n, scope + Outs(a.code));
    ReadsJoin(n, scope, a.code, b.code);
    OutsConcat(a.code, b.code);
    var after := scope + Outs(a.code + b.code);
    assert after == scope + Outs(a.code) + Outs(b.code);
    OperateReads(e.op, dest, c.vars, b.vn, n, after);
    ReadsJoin(n, scope, a.code + b.code, last);
    OutsConcat(a.code + b.code, last);
  }

  lemma OperateReads(op: BinaryOp, dest: nat, left: nat, right: nat, n: nat, scope: set<nat>)
    requires op != Arithmetic(Div) && left in scope && right in scope && dest < n && left < n
    ensures Reads(n, scope, Operate(op, dest, left, right)) && dest in Outs(Operate(op, dest, left, right))
  {
    hide Reads, Outs;
    match op
    case Arithmetic(arith) =>
      var i, j := Arith(arith, left, right), Assign(dest, left);
      ReadsOne(n, scope, i);
      ReadsOne(n, scope + Outs([i]), j);
      ReadsJoin(n, scope, [i], [j]);
      OutsConcat([i], [j]);
      OutsOne(j);
      assert Operate(op, dest, left, right) == [i] + [j];
    case Comparison(how) =>
      ReadsOne(n, scope, Compare(how, left, right, dest));
      OutsOne(Compare(how, left, right, dest));
  }

  lemma {:induction false} ToValueReads(e: Expr, names: Names, c: Counters, n: nat, scope: set<nat>)
    requires Calculable(e) && Scoped(e, names) && Named(names) <= scope && ToValue(e, names, c).next.vars <= n
    ensures var a := ToValue(e, names, c); Reads(n, scope, a.code) && a.vn in scope + Outs(a.code)
    decreases e, 4
  {
    hide Named, Outs;
    if e.Name? {
      ResolvedIsNamed(names, e.name);
    } else {
      ToVarGrows(e, names, c.vars, NewVar(c));
      ToVarReads(e, names, c.vars, NewVar(c), n, scope);
    }
  }

  // ----- Straight code as items -----

  lemma {:induction false} DosScoped(n: nat, lists: seq<seq<nat>>, scope: set<nat>, code: seq<Inst>)
    requires Reads(n, scope, code)
    ensures P.Scoped(n, lists, scope, Dos(code)) && P.ScopeAfter(scope, Dos(code)) == scope + Outs(code)
    ensures P.Touched(lists, Dos(code)) == Outs(code)
    decreases |code|
  {
    hide Outs;
    if code == [] {
      OutsNothing();
    } else {
      assert Dos(code)[1..] == Dos(code[1..]);
      OutsFirst(code);
      DosScoped(n, lists, scope + {OutOf(code[0])}, code[1..]);
    }
  }

  lemma OutsNothing()
    ensures Outs([]) == {}
  {
  }

  lemma {:induction false} ReadsOuts(n: nat, scope: set<nat>, code: seq<Inst>)
    requires Reads(n, scope, code)
    ensures forall v :: v in Outs(code) ==> v < n
    decreases |code|
  {
    hide Outs;
    if code == [] {
      OutsNothing();
    } else {
      OutsFirst(code);
      ReadsOuts(n, scope + {OutOf(code[0])}, code[1..]);
    }
  }

  lemma {:induction false} ReadsRaise(n: nat, m: nat, scope: set<nat>, code: seq<Inst>)
    requires Reads(n, scope, code) && n <= m
    ensures Reads(m, scope, code)
    decreases |code|
  {
    if code != [] {
      ReadsRaise(n, m, scope + {OutOf(code[0])}, code[1..]);
    }
  }

  lemma {:induction false} ScopedConcat(n: nat, lists: seq<seq<nat>>, scope: set<nat>, a: Items, b: Items)
    requires P.Scoped(n, lists, scope, a) && P.Scoped(n, lists, P.ScopeAfter(scope, a), b)
    ensures P.Scoped(n, lists, scope, a + b) && P.ScopeAfter(scope, a + b) == P.ScopeAfter(P.ScopeAfter(scope, a), b)
    decreases |a|
  {
    hide P.ScopedItem, P.ScopeAfterItem;
    if a == [] {
      assert a + b == b;
    } else {
      assert (a + b)[1..] == a[1..] + b;
      ScopedConcat(n, lists, P.ScopeAfterItem(scope, a[0]), a[1..], b);
    }
  }

  lemma {:induction false} TouchedConcat(lists: seq<seq<nat>>, a: Items, b: Items)
    ensures P.Touched(lists, a + b) == P.Touched(lists, a) + P.Touched(lists, b)
    decreases |a|
  {
    hide P.TouchedItem;
    if a == [] {
      assert a + b == b;
    } else {
      assert (a + b)[1..] == a[1..] + b;
      TouchedConcat(lists, a[1..], b);
    }
  }

  // ----- Simple statements -----

  /** A name that is not in sight is not in the expression, so giving it a variable makes no difference to the code. */
  lemma {:induction false} OtherNamesSameCode(e: Expr, names: Names, x: string, vn: nat, dest: nat, c: Counters)
    requires Calculable(e) && names != [] && Scoped(e, names) && !Resolves(names, x)
    ensures ToVar(e, Bind(names, x, vn), dest, c) == ToVar(e, names, dest, c)
    decreases e, 0
  {
    match e
    case Name(y) => BindElsewhere(names, x, vn, y);
    case LogicalNot(r) => OtherNamesSameValue(r, names, x, vn, c);
    case Binary(_, l, r) =>
      OtherNamesSameCode(l, names, x, vn, c.vars, NewVar(c));
      OtherNamesSameValue(r, names, x, vn, ToVar(l, names, c.vars, NewVar(c)).next);
    case _ =>
  }

  lemma {:induction false} OtherNamesSameValue(e: Expr, names: Names, x: string, vn: nat, c: Counters)
    requires Calculable(e) && names != [] && Scoped(e, names) && !Resolves(names, x)
    ensures ToValue(e, Bind(names, x, vn), c) == ToValue(e, names, c)
    decreases e, 1
  {
    if e.Name? {
      BindElsewhere(names, x, vn, e.name);
    } else {
      OtherNamesSameCode(e, names, x, vn, c.vars, NewVar(c));
    }
  }

  lemma BindElsewhere(names: Names, x: string, vn: nat, y: string)
    requires names != [] && y != x
    ensures VarNamed(Bind(names, x, vn), y) == VarNamed(names, y)
  {
    var names' := Bind(names, x, vn);
    assert names'[..|names'| - 1] == names[..|names| - 1];
  }

  lemma BoundNamed(names: Names, x: string, vn: nat)
    requires names != []
    ensures Named(Bind(names, x, vn)) <= Named(names) + {vn}
  {
    var names' := Bind(names, x, vn);
    forall v | v in Named(names') ensures v in Named(names) + {vn} {
      var i, y :| 0 <= i < |names'| && y in names'[i] && names'[i][y] == v;
      assert v != vn ==> y in names[i] && names[i][y] == v;
    }
  }

  /** What holds of a simple statement's code and of the names after it. */
  ghost predicate Fine(scope: set<nat>, code: seq<Inst>, names: Names, n: nat) {
    Reads(n, scope, code) && Named(names) <= scope + Outs(code)
  }

  lemma ValueThenFine(e: Expr, names: Names, c: Counters, i: Inst, names': Names, n: nat, scope: set<nat>)
    requires Calculable(e) && Scoped(e, names) && Named(names) <= scope
    requires var a := ToValue(e, names, c);
             && a.next.vars <= n && Supported(i) && ReadsOf(i) <= scope + {a.vn} && OutOf(i) < n
             && Named(names') <= Named(names) + {OutOf(i)}
    ensures Fine(scope, ToValue(e, names, c).code + [i], names', n)
  {
    hide Named, Outs, Reads, ToValue;
    var a := ToValue(e, names, c);
    ToValueReads(e, names, c, n, scope);
    ReadsOne(n, scope + Outs(a.code), i);
    ReadsJoin(n, scope, a.code, [i]);
    OutsConcat(a.code, [i]);
    OutsOne(i);
  }

  lemma SimpleFine(s: Stmt, names: Names, c: Counters, scope: set<nat>)
    requires names != [] && Below(names, c.vars) && Accepted(s, names, None, c) && CalculatesIn(s, names, c) && !s.If?
        && !s.IfElse?
    requires Named(names) <= scope
    ensures var a := LowerStmt(s, names, None, c); Fine(scope, a.code, a.names, a.next.vars)
  {
    hide Named, Outs, Reads, ToValue, ToVar, Bind, Below;
    match s
    case Declaration(x, zero) =>
      ReadsOne(c.vars + 1, scope, AssignImm(c.vars, zero));
      OutsOne(AssignImm(c.vars, zero));
      BoundNamed(names, x, c.vars);
    case Declare(x, e) => DeclareFine(x, e, names, c, scope);
    case SetTo(x, e) =>
      var i := Assign(VarNamed(names, x), ToValue(e, names, c).vn);
      NamedFits(x, e, names, c, scope);
      ValueThenFine(e, names, c, i, names, ToValue(e, names, c).next.vars, scope);
    case PlusEqual(x, e) =>
      var i := Arith(Add, VarNamed(names, x), ToValue(e, names, c).vn);
      NamedFits(x, e, names, c, scope);
      ValueThenFine(e, names, c, i, names, ToValue(e, names, c).next.vars, scope);
    case MinusEqual(x, e) =>
      var i := Arith(Sub, VarNamed(names, x), ToValue(e, names, c).vn);
      NamedFits(x, e, names, c, scope);
      ValueThenFine(e, names, c, i, names, ToValue(e, names, c).next.vars, scope);
    case Plain(e) =>
      OutsNothing();
      NothingRead(c.vars, scope);
      if e.Name? || e.Literal? {
        ToValueReads(e, names, c, ToValue(e, names, c).next.vars, scope);
      }
    case _ =>
  }

  lemma NothingRead(n: nat, scope: set<nat>)
    ensures Reads(n, scope, [])
  {
  }

  lemma NamedFits(x: string, e: Expr, names: Names, c: Counters, scope: set<nat>)
    requires Resolves(names, x) && Below(names, c.vars) && Named(names) <= scope
    ensures VarNamed(names, x) in scope && VarNamed(names, x) < ToValue(e, names, c).next.vars
  {
    ToValueGrows(e, names, c);
    ResolvedIsNamed(names, x);
    var i := ResolveFinds(names, x);
  }

  lemma DeclareFine(x: string, e: Expr, names: Names, c: Counters, scope: set<nat>)
    requires names != [] && Calculable(e) && Scoped(e, names) && Named(names) <= scope
    ensures var a := LowerDeclare(x, e, names, c); Fine(scope, a.code, a.names, a.next.vars)
  {
    hide Named, Outs, Reads, ToValue, ToVar, Bind;
    if Resolves(names, x) {
      var a := ToValue(e, names, c);
      BoundNamed(names, x, a.next.vars);
      ValueThenFine(e, names, c, Assign(a.next.vars, a.vn), Bind(names, x, a.next.vars), a.next.vars + 1, scope);
    } else {
      ToVarGrows(e, names, c.vars, NewVar(c));
      OtherNamesSameCode(e, names, x, c.vars, c.vars, NewVar(c));
      ToVarReads(e, names, c.vars, NewVar(c), ToVar(e, names, c.vars, NewVar(c)).next.vars, scope);
      BoundNamed(names, x, c.vars);
    }
  }

  // ----- Statements with branches -----

  ghost predicate InRange(scope: set<nat>, n: nat) {
    forall v :: v in scope ==> v < n
  }

  lemma MutatedIsOuts(code: seq<Inst>, n: nat)
    ensures forall v :: v in Mutated(code, n) <==> v in Outs(code) && v < n
  {
  }

  lemma ListIsOuts(lists: seq<seq<nat>>, l: nat, code: seq<Inst>, n: nat)
    requires F.ListIs(lists, l, code, n)
    ensures forall v :: v in P.SetOf(B.Listed(lists, l)) <==> v in Outs(code) && v < n
  {
    hide Outs, Mutated, Ascending;
    MutatedIsOuts(code, n);
    forall v ensures v in P.SetOf(B.Listed(lists, l)) <==> v in Elements(lists[l]) {
    }
  }

  /** Whatever may change in the items is changed by some instruction of the code. */
  lemma {:induction false} TouchedIsOuts(stmts: seq<Stmt>, names: Names, c: Counters, lists: seq<seq<nat>>)
    requires names != [] && Calculates(stmts, names, c) && F.ListsRight(stmts, names, None, c, lists)
    ensures P.Touched(lists, ItemsOf(stmts, names, c)) <= Outs(LowerBlock(stmts, names, None, c).code)
    decreases stmts, 0
  {
    hide P.Touched, Outs, LowerStmt, ItemsOfStmt, F.ListsRightIn, CalculatesIn, Extends;
    if stmts == [] {
      TouchedNothing(lists);
    } else {
      var a := LowerStmt(stmts[0], names, None, c);
      LowerStmtExtends(stmts[0], names, None, c);
      SameDepth(names, c, a.names, a.next);
      StmtTouches(stmts[0], names, c, lists);
      TouchedIsOuts(stmts[1..], a.names, a.next, lists);
      TouchedConcat(lists, ItemsOfStmt(stmts[0], names, c), ItemsOf(stmts[1..], a.names, a.next));
      OutsConcat(a.code, LowerBlock(stmts[1..], a.names, None, a.next).code);
    }
  }

  lemma TouchedNothing(lists: seq<seq<nat>>)
    ensures P.Touched(lists, []) == {}
  {
  }

  lemma SameDepth(names: Names, c: Counters, names': Names, c': Counters)
    requires Extends(names, c, names', c') && names != []
    ensures names' != []
  {
  }

  lemma {:induction false} StmtTouches(s: Stmt, names: Names, c: Counters, lists: seq<seq<nat>>)
    requires names != [] && CalculatesIn(s, names, c) && F.ListsRightIn(s, names, None, c, lists)
    ensures P.Touched(lists, ItemsOfStmt(s, names, c)) <= Outs(LowerStmt(s, names, None, c).code)
    decreases s, 1
  {
    hide Outs, LowerIf, ItemOfIf, P.TouchedItem, F.ThenRight, F.ListIs, LowerThen;
    if s.If? || s.IfElse? {
      IfTouches(s, names, c, lists);
      assert [ItemOfIf(s, names, c)][1..] == [];
    } else {
      DosTouch(lists, LowerStmt(s, names, None, c).code);
    }
  }

  lemma {:induction false} DosTouch(lists: seq<seq<nat>>, code: seq<Inst>)
    ensures P.Touched(lists, Dos(code)) <= Outs(code)
    decreases |code|
  {
    hide Outs;
    if code != [] {
      assert Dos(code)[1..] == Dos(code[1..]) && code == [code[0]] + code[1..];
      OutsConcat([code[0]], code[1..]);
      OutsOne(code[0]);
      DosTouch(lists, code[1..]);
    }
  }

  lemma {:induction false} IfTouches(s: Stmt, names: Names, c: Counters, lists: seq<seq<nat>>)
    requires (s.If? || s.IfElse?) && names != [] && CalculatesIn(s, names, c)
        && F.ListsRightIn(s, names, None, c, lists)
    ensures P.TouchedItem(lists, ItemOfIf(s, names, c)) <= Outs(LowerIf(s, names, None, c).code)
    decreases s, 0
  {
    hide Outs, LowerBlock, ToValue, ItemsOf, P.Touched, F.ListsRight, Calculates, F.ListIs, P.SetOf;
    var inner := names + [map[]];
    var a := ToValue(s.cond, inner, NewLabel(NewList(NewList(c))));
    DosTouch(lists, a.code);
    TouchedIsOuts(s.thn, inner, a.next, lists);
    IfOuts(s, names, c);
    ListIsOuts(lists, c.lists, LowerIf(s, names, None, c).code, c.vars);
    if s.IfElse? {
      TouchedIsOuts(s.els, inner, NewLabel(NewList(LowerThen(s, names, None, c).next)), lists);
    }
  }

  /** Test and branches are part of the code. */
  lemma IfOuts(s: Stmt, names: Names, c: Counters)
    requires s.If? || s.IfElse?
    ensures var inner := names + [map[]];
      var a := ToValue(s.cond, inner, NewLabel(NewList(NewList(c))));
      var outs := Outs(LowerIf(s, names, None, c).code);
      && Outs(a.code) <= outs && Outs(LowerBlock(s.thn, inner, None, a.next).code) <= outs
      && (s.IfElse? ==>
          Outs(LowerBlock(s.els, inner, None, NewLabel(NewList(LowerThen(s, names, None, c).next))).code) <= outs)
  {
    hide Outs, LowerBlock, ToValue;
    var inner := names + [map[]];
    var a := ToValue(s.cond, inner, NewLabel(NewList(NewList(c))));
    var b := LowerBlock(s.thn, inner, None, a.next);
    var start, jump, stop := [OptionSelectStart(c.lists)], [JumpIf(false, false, a.vn, Label(Else, c.labels))],
        [OptionEnd(c.lists + 1)];
    OutsConcat(start, a.code);
    OutsConcat(start + a.code, jump);
    OutsConcat(start + a.code + jump, b.code);
    OutsConcat(start + a.code + jump + b.code, stop);
    var t := LowerThen(s, names, None, c);
    if s.If? {
      OutsConcat(t.code, [OptionSelectEnd, LabelAt(Label(Else, c.labels))]);
    } else {
      var end := Label(IfElseEnd, t.next.labels);
      var e := LowerBlock(s.els, inner, None, NewLabel(NewList(t.next)));
      var mid, tail := [Jump(end), LabelAt(Label(Else, c.labels))],
          [OptionEnd(t.next.lists), OptionSelectEnd, LabelAt(end)];
      OutsConcat(t.code, mid);
      OutsConcat(t.code + mid, e.code);
      OutsConcat(t.code + mid + e.code, tail);
    }
  }

  // ----- Scoping -----

  /** What holds of the items of accepted statements in scope, and of scope and names after them. */
  ghost predicate WellScoped(n: nat, lists: seq<seq<nat>>, scope: set<nat>, items: Items, names: Names, vars: nat) {
    var after := P.ScopeAfter(scope, items);
    P.Scoped(n, lists, scope, items) && Named(names) <= after && InRange(after, vars)
  }

  /** The items of accepted statements are properly scoped: they read what is in scope, and each list names all that its
      select may change of the scope around. */
  lemma {:induction false} ItemsScoped(stmts: seq<Stmt>, names: Names, c: Counters, n: nat, lists: seq<seq<nat>>,
                                       scope: set<nat>)
    requires names != [] && Below(names, c.vars) && AcceptedBlock(stmts, names, None, c) && Calculates(stmts, names, c)
    requires F.ListsRight(stmts, names, None, c, lists)
    requires Named(names) <= scope && InRange(scope, c.vars) && LowerBlock(stmts, names, None, c).next.vars <= n
    ensures var a := LowerBlock(stmts, names, None, c);
        WellScoped(n, lists, scope, ItemsOf(stmts, names, c), a.names, a.next.vars)
    decreases stmts, 0
  {
    hide LowerStmt, ItemsOfStmt, Accepted, CalculatesIn, F.ListsRightIn, Extends, Named, Below, P.Scoped, P.ScopeAfter;
    if stmts == [] {
      NothingScoped(n, lists, scope);
    } else {
      var a := LowerStmt(stmts[0], names, None, c);
      LowerStmtExtends(stmts[0], names, None, c);
      LowerBlockExtends(stmts[1..], a.names, None, a.next);
      VarsGrow(a.names, a.next, LowerBlock(stmts[1..], a.names, None, a.next).names,
          LowerBlock(stmts[1..], a.names, None, a.next).next);
      StillBelow(names, c, a.names, a.next);
      StmtScoped(stmts[0], names, c, n, lists, scope);
      ItemsScoped(stmts[1..], a.names, a.next, n, lists, P.ScopeAfter(scope, ItemsOfStmt(stmts[0], names, c)));
      ScopedConcat(n, lists, scope, ItemsOfStmt(stmts[0], names, c), ItemsOf(stmts[1..], a.names, a.next));
    }
  }

  lemma NothingScoped(n: nat, lists: seq<seq<nat>>, scope: set<nat>)
    ensures P.Scoped(n, lists, scope, []) && P.ScopeAfter(scope, []) == scope
  {
  }

  lemma OneScoped(n: nat, lists: seq<seq<nat>>, scope: set<nat>, item: B.Item)
    requires P.ScopedItem(n, lists, scope, item) && P.ScopeAfterItem(scope, item) == scope
    ensures P.Scoped(n, lists, scope, [item]) && P.ScopeAfter(scope, [item]) == scope
  {
    hide P.ScopedItem, P.ScopeAfterItem;
    assert [item][1..] == [];
    NothingScoped(n, lists, scope);
  }

  lemma VarsGrow(names: Names, c: Counters, names': Names, c': Counters)
    requires Extends(names, c, names', c')
    ensures c.vars <= c'.vars
  {
  }

  lemma {:induction false} StmtScoped(s: Stmt, names: Names, c: Counters, n: nat, lists: seq<seq<nat>>, scope: set<nat>)
    requires names != [] && Below(names, c.vars) && Accepted(s, names, None, c) && CalculatesIn(s, names, c)
    requires F.ListsRightIn(s, names, None, c, lists)
    requires Named(names) <= scope && InRange(scope, c.vars) && LowerStmt(s, names, None, c).next.vars <= n
    ensures var a := LowerStmt(s, names, None, c);
        WellScoped(n, lists, scope, ItemsOfStmt(s, names, c), a.names, a.next.vars)
    decreases s, 1
  {
    hide LowerIf, ItemOfIf, Accepted, CalculatesIn, F.ListsRightIn, Extends, Named, Below, P.ScopedItem, Outs, Reads,
        LowerDeclare;
    var a := LowerStmt(s, names, None, c);
    LowerStmtExtends(s, names, None, c);
    VarsGrow(names, c, a.names, a.next);
    if s.If? || s.IfElse? {
      IfScoped(s, names, c, n, lists, scope);
      OneScoped(n, lists, scope, ItemOfIf(s, names, c));
    } else {
      SimpleFine(s, names, c, scope);
      ReadsOuts(a.next.vars, scope, a.code);
      ReadsRaise(a.next.vars, n, scope, a.code);
      DosScoped(n, lists, scope, a.code);
    }
  }

  lemma {:induction false} IfScoped(s: Stmt, names: Names, c: Counters, n: nat, lists: seq<seq<nat>>, scope: set<nat>)
    requires (s.If? || s.IfElse?) && names != [] && Below(names, c.vars) && Accepted(s, names, None, c)
        && CalculatesIn(s, names, c)
    requires F.ListsRightIn(s, names, None, c, lists)
    requires Named(names) <= scope && InRange(scope, c.vars) && LowerIf(s, names, None, c).next.vars <= n
    ensures P.ScopedItem(n, lists, scope, ItemOfIf(s, names, c))
        && P.ScopeAfterItem(scope, ItemOfIf(s, names, c)) == scope
    ensures LowerIf(s, names, None, c).names == names
    decreases s, 0
  {
    hide LowerBlock, ToValue, ItemsOf, Calculates, AcceptedBlock, Named, Below, Outs, F.ListIs, F.ListsRight, P.Scoped,
        P.ScopeAfter, P.Touched,
         P.SetOf, Extends, Mutated;
    var inner := names + [map[]];
    var c1 := NewLabel(NewList(NewList(c)));
    var a := ToValue(s.cond, inner, c1);
    var code := LowerIf(s, names, None, c).code;
    EmptyScopeNames(names, c.vars);
    ToValueGrows(s.cond, inner, c1);
    BelowMore(inner, c.vars, a.next.vars);
    LowerIfGrows(s, names, None, c);
    IfOuts(s, names, c);
    IfMutates(s, names, None, c);
    MutatedIsOuts(code, c.vars);
    ListIsOuts(lists, c.lists, code, c.vars);
    LowerBlockExtends(s.thn, inner, None, a.next);
    VarsGrow(inner, a.next, LowerBlock(s.thn, inner, None, a.next).names, LowerBlock(s.thn, inner, None, a.next).next);
    if s.IfElse? {
      var c2 := NewLabel(NewList(LowerThen(s, names, None, c).next));
      LowerBlockExtends(s.els, inner, None, c2);
      VarsGrow(inner, c2, LowerBlock(s.els, inner, None, c2).names, LowerBlock(s.els, inner, None, c2).next);
      BelowMore(inner, c.vars, c2.vars);
      ItemsScoped(s.els, inner, c2, n, lists, scope);
      TouchedIsOuts(s.els, inner, c2, lists);
    }
    TestScoped(s.cond, inner, c1, n, lists, scope);
    ItemsScoped(s.thn, inner, a.next, n, lists, scope);
    TouchedIsOuts(s.thn, inner, a.next, lists);
  }

  lemma TestScoped(cond: Expr, names: Names, c: Counters, n: nat, lists: seq<seq<nat>>, scope: set<nat>)
    requires Calculable(cond) && Scoped(cond, names) && Named(names) <= scope && InRange(scope, c.vars)
    requires ToValue(cond, names, c).next.vars <= n
    ensures var a := ToValue(cond, names, c);
      P.Scoped(n, lists, scope, Dos(a.code)) && P.Touched(lists, Dos(a.code)) !! scope
          && a.vn in P.ScopeAfter(scope, Dos(a.code))
  {
    hide ToValue, Named, Outs, Reads, Mutated, P.Scoped, P.ScopeAfter, P.Touched;
    var a := ToValue(cond, names, c);
    ToValueReads(cond, names, c, n, scope);
    DosScoped(n, lists, scope, a.code);
    ToValueMutates(cond, names, c);
    MutatedIsOuts(a.code, c.vars);
  }
}
