/** Which instructions the front end emits for expressions and statements. */
module Lowering {
  import opened Ir
  import opened Options
  import opened Language

  type Names = Scopes<nat>

  /** The generator's counters: next variable, next label number, next mutation list. */
  datatype Counters = Counters(vars: nat, labels: nat, lists: nat)

  datatype Code = Code(code: seq<Inst>, next: Counters)

  /** Code together with the variable that holds the result. */
  datatype Valued = Valued(code: seq<Inst>, vn: nat, next: Counters)

  datatype ValuedAll = ValuedAll(code: seq<Inst>, vns: seq<nat>, next: Counters)

  function NewVar(c: Counters): Counters { c.(vars := c.vars + 1) }

  function NewLabel(c: Counters): Counters { c.(labels := c.labels + 1) }

  function NewList(c: Counters): Counters { c.(lists := c.lists + 1) }

  /** The variable a name stands for. The generator stops with an error on a name that does not resolve. */
  function VarNamed(names: Names, x: string): nat {
    if Resolves(names, x) then Resolve(names, x) else 0
  }

  // ----- Expressions -----

  /** Every name of the expression is in scope: what the generator's "Undefined name" error rules out. */
  predicate Scoped(e: Expr, names: Names)
    decreases e, 1
  {
    match e
    case Name(x) => Resolves(names, x)
    case Literal(_) => true
    case ProcCall(_, args) => ScopedAll(args, names)
    case LogicalNot(r) => Scoped(r, names)
    case LogicalAnd(l, r) => Scoped(l, names) && Scoped(r, names)
    case LogicalOr(l, r) => Scoped(l, names) && Scoped(r, names)
    case Binary(_, l, r) => Scoped(l, names) && Scoped(r, names)
  }

  predicate ScopedAll(es: seq<Expr>, names: Names)
    decreases es, 0
  {
    es == [] || (Scoped(es[0], names) && ScopedAll(es[1..], names))
  }

  /** A chain of one short-circuit operator, `isOr` telling which. */
  predicate IsChain(e: Expr, isOr: bool) {
    if isOr then e.LogicalOr? else e.LogicalAnd?
  }

  function Combine(isOr: bool, dest: nat, right: nat): Inst {
    if isOr then Or(dest, right) else And(dest, right)
  }

  function ChainEnd(isOr: bool, id: nat): Label {
    Label(if isOr then OrEnd else AndEnd, id)
  }

  function ToVar(e: Expr, names: Names, dest: nat, c: Counters): Code
    decreases e, 2
  {
    match e
    case Name(x) => Code([Assign(dest, VarNamed(names, x))], c)
    case Literal(v) => Code([AssignImm(dest, v)], c)
    case ProcCall(callee, args) =>
      var a := ToValues(args, names, c);
      Code(a.code + [Call(dest, callee, a.vns)], a.next)
    case LogicalNot(r) =>
      var a := ToValue(r, names, c);
      Code(a.code + [Not(dest, a.vn)], a.next)
    case LogicalAnd(_, _) =>
      var a := Chain(e, false, names, dest, ChainEnd(false, c.labels), NewLabel(c));
      Code(a.code + [LabelAt(ChainEnd(false, c.labels))], a.next)
    case LogicalOr(_, _) =>
      var a := Chain(e, true, names, dest, ChainEnd(true, c.labels), NewLabel(c));
      Code(a.code + [LabelAt(ChainEnd(true, c.labels))], a.next)
    case Binary(op, l, r) =>
      var a := ToVar(l, names, c.vars, NewVar(c));
      var b := ToValue(r, names, a.next);
      Code(a.code + b.code + Operate(op, dest, c.vars, b.vn), b.next)
  }

  function Operate(op: BinaryOp, dest: nat, left: nat, right: nat): seq<Inst> {
    match op
    case Arithmetic(arith) => [Arith(arith, left, right), Assign(dest, left)]
    case Comparison(how) => [Compare(how, left, right, dest)]
  }

  /** As long as the same operator is combined on the left, every jump goes to the same end label. */
  function Chain(e: Expr, isOr: bool, names: Names, dest: nat, end: Label, c: Counters): Code
    decreases e, if IsChain(e, isOr) then 1 else 3
  {
    if !IsChain(e, isOr) then ToVar(e, names, dest, c)
    else
      var a := Chain(e.left, isOr, names, dest, end, c);
      var b := ToValue(e.right, names, a.next);
      Code(a.code + [JumpIf(isOr, true, dest, end)] + b.code + [Combine(isOr, dest, b.vn)], b.next)
  }

  /** A bare name costs nothing: its own variable is the result. */
  function ToValue(e: Expr, names: Names, c: Counters): Valued
    decreases e, 4
  {
    if e.Name? then Valued([], VarNamed(names, e.name), c)
    else
      var a := ToVar(e, names, c.vars, NewVar(c));
      Valued(a.code, c.vars, a.next)
  }

  function ToValues(es: seq<Expr>, names: Names, c: Counters): ValuedAll
    decreases es, 0
  {
    if es == [] then ValuedAll([], [], c)
    else
      var a := ToValue(es[0], names, c);
      var rest := ToValues(es[1..], names, a.next);
      ValuedAll(a.code + rest.code, [a.vn] + rest.vns, rest.next)
  }

  // ----- Statements -----

  /** Code and the names in scope after it. */
  datatype Lowered = Lowered(code: seq<Inst>, names: Names, next: Counters)

  /** The loop a statement is in, by the number of its labels. */
  type LoopId = Option<nat>

  function LowerBlock(stmts: seq<Stmt>, names: Names, loop: LoopId, c: Counters): (r: Lowered)
    decreases stmts, 0
  {
    if stmts == [] then Lowered([], names, c)
    else
      var a := LowerStmt(stmts[0], names, loop, c);
      var b := LowerBlock(stmts[1..], a.names, loop, a.next);
      Lowered(a.code + b.code, b.names, b.next)
  }

  function LowerStmt(s: Stmt, names: Names, loop: LoopId, c: Counters): Lowered
    decreases s, 1
  {
    if names == [] then Lowered([], names, c) else
    match s
    case Declaration(x, zero) =>
      Lowered([AssignImm(c.vars, zero)], Bind(names, x, c.vars), NewVar(c))
    case Declare(x, e) => LowerDeclare(x, e, names, c)
    case SetTo(x, e) =>
      var a := ToValue(e, names, c);
      Lowered(a.code + [Assign(VarNamed(names, x), a.vn)], names, a.next)
    case PlusEqual(x, e) =>
      var a := ToValue(e, names, c);
      Lowered(a.code + [Arith(Add, VarNamed(names, x), a.vn)], names, a.next)
    case MinusEqual(x, e) =>
      var a := ToValue(e, names, c);
      Lowered(a.code + [Arith(Sub, VarNamed(names, x), a.vn)], names, a.next)
    case Plain(e) =>
      if e.Name? || e.Literal? || e.ProcCall? then
        var a := ToValue(e, names, c);
        Lowered(a.code, names, a.next)
      else Lowered([], names, c)
    case If(cond, thn) => LowerIf(s, names, loop, c)
    case IfElse(cond, thn, els) => LowerIf(s, names, loop, c)
    case Forever(body) => LowerLoop(s, names, c)
    case While(cond, body) => LowerLoop(s, names, c)
    case ForRange(counter, from, to, body) => LowerRange(s, names, c)
    case Break => Lowered([Jump(Label(LoopExit, loop.GetOr(0)))], names, c)
    case Continue => Lowered([Jump(Label(LoopContinue, loop.GetOr(0)))], names, c)
    case ReturnStmt(values) =>
      var a := ToValues(values, names, c);
      Lowered(a.code + [Return(a.vns)], names, a.next)
  }

  /** If the name is in sight already, the value is computed before the new variable exists. */
  function LowerDeclare(x: string, e: Expr, names: Names, c: Counters): Lowered
    requires names != []
  {
    if Resolves(names, x) then
      var a := ToValue(e, names, c);
      Lowered(a.code + [Assign(a.next.vars, a.vn)], Bind(names, x, a.next.vars), NewVar(a.next))
    else
      var names' := Bind(names, x, c.vars);
      var a := ToVar(e, names', c.vars, NewVar(c));
      Lowered(a.code, names', a.next)
  }

  /** The test and the first branch, up to where the code for an else would start. */
  function LowerThen(s: Stmt, names: Names, loop: LoopId, c: Counters): Code
    requires s.If? || s.IfElse?
    decreases s, 0, 0
  {
    var inner := names + [map[]];
    var a := ToValue(s.cond, inner, NewLabel(NewList(NewList(c))));
    var b := LowerBlock(s.thn, inner, loop, a.next);
    Code([OptionSelectStart(c.lists)] + a.code + [JumpIf(false, false, a.vn, Label(Else, c.labels))] + b.code
         + [OptionEnd(c.lists + 1)], b.next)
  }

  function LowerIf(s: Stmt, names: Names, loop: LoopId, c: Counters): Lowered
    requires s.If? || s.IfElse?
    decreases s, 0, 1
  {
    var t := LowerThen(s, names, loop, c);
    if s.If? then
      Lowered(t.code + [OptionSelectEnd, LabelAt(Label(Else, c.labels))], names, t.next)
    else
      var end := Label(IfElseEnd, t.next.labels);
      var e := LowerBlock(s.els, names + [map[]], loop, NewLabel(NewList(t.next)));
      Lowered(t.code + [Jump(end), LabelAt(Label(Else, c.labels))] + e.code
              + [OptionEnd(t.next.lists), OptionSelectEnd, LabelAt(end)], names, e.next)
  }

  function LowerLoop(s: Stmt, names: Names, c: Counters): Lowered
    requires s.Forever? || s.While?
    decreases s, 0, 1
  {
    var inner := names + [map[]];
    var c1 := NewLabel(NewList(c));
    var test := if s.While? then ToVar(s.cond, inner, c1.vars, NewVar(c1)) else Code([], c1);
    var exit := if s.While? then [JumpIf(false, false, c1.vars, Label(LoopExit, c.labels))] else [];
    var b := LowerBlock(s.body, inner, Some(c.labels), test.next);
    Lowered([OutsideLoopMutations(c.lists), LabelAt(Label(LoopStart, c.labels))] + test.code + exit + b.code
            + [LabelAt(Label(LoopContinue, c.labels))] + LoopBack(c.labels), names, b.next)
  }

  function LoopBack(id: nat): seq<Inst> {
    [Jump(Label(LoopStart, id)), LoopEnd, LabelAt(Label(LoopExit, id))]
  }

  function LowerRange(s: Stmt, names: Names, c: Counters): Lowered
    requires s.ForRange?
    decreases s, 0, 1
  {
    var iter := c.vars;
    var hi := ToValue(s.to, names, NewVar(NewLabel(NewList(c))));
    var lo := ToVar(s.from, names, iter, hi.next);
    var test := lo.next.vars;
    var c1 := NewVar(lo.next);
    var named := if s.counter.Some? then [Assign(c1.vars, iter)] else [];
    var inner := names + [CounterNames(s.counter, c1.vars)];
    var b := LowerBlock(s.body, inner, Some(c.labels), if s.counter.Some? then NewVar(c1) else c1);
    Lowered(hi.code + lo.code + [OutsideLoopMutations(c.lists), LabelAt(Label(LoopStart, c.labels))]
            + [Compare(LesserOrEqual, iter, hi.vn, test), JumpIf(false, false, test, Label(LoopExit, c.labels))]
            + named + b.code
            + [LabelAt(Label(LoopContinue, c.labels)), Increment(iter)] + LoopBack(c.labels), names, b.next)
  }

  function CounterNames(counter: Option<string>, vn: nat): map<string, nat> {
    match counter
    case None => map[]
    case Some(x) => map[x := vn]
  }

  // ----- What the generator accepts -----

  predicate AcceptedBlock(stmts: seq<Stmt>, names: Names, loop: LoopId, c: Counters)
    decreases stmts, 0
  {
    stmts == [] ||
    (var a := LowerStmt(stmts[0], names, loop, c);
     Accepted(stmts[0], names, loop, c) && AcceptedBlock(stmts[1..], a.names, loop, a.next))
  }

  /** Names resolve, no name is declared twice with := in one scope, break and continue are inside loops. */
  predicate Accepted(s: Stmt, names: Names, loop: LoopId, c: Counters)
    decreases s, 1
  {
    names != [] &&
    match s
    case Declaration(_, _) => true
    case Declare(x, e) =>
      if Resolves(names, x) then x !in names[|names| - 1] && Scoped(e, names)
      else Scoped(e, Bind(names, x, c.vars))
    case SetTo(x, e) => Resolves(names, x) && Scoped(e, names)
    case PlusEqual(x, e) => Resolves(names, x) && Scoped(e, names)
    case MinusEqual(x, e) => Resolves(names, x) && Scoped(e, names)
    case Plain(e) => (e.Name? || e.Literal? || e.ProcCall?) ==> Scoped(e, names)
    case If(cond, thn) => AcceptedThen(s, names, loop, c)
    case IfElse(cond, thn, els) =>
      && AcceptedThen(s, names, loop, c)
      && AcceptedBlock(els, names + [map[]], loop, NewLabel(NewList(LowerThen(s, names, loop, c).next)))
    case Forever(body) => AcceptedBlock(body, names + [map[]], Some(c.labels), NewLabel(NewList(c)))
    case While(cond, body) =>
      var c1 := NewLabel(NewList(c));
      && Scoped(cond, names + [map[]])
      && AcceptedBlock(body, names + [map[]], Some(c.labels), ToVar(cond, names + [map[]], c1.vars, NewVar(c1)).next)
    case ForRange(counter, from, to, body) =>
      var hi := ToValue(to, names, NewVar(NewLabel(NewList(c))));
      var c1 := NewVar(ToVar(from, names, c.vars, hi.next).next);
      && Scoped(to, names) && Scoped(from, names)
      && AcceptedBlock(body, names + [CounterNames(counter, c1.vars)], Some(c.labels),
                       if counter.Some? then NewVar(c1) else c1)
    case Break => loop.Some?
    case Continue => loop.Some?
    case ReturnStmt(values) => ScopedAll(values, names)
  }

  predicate AcceptedThen(s: Stmt, names: Names, loop: LoopId, c: Counters)
    requires s.If? || s.IfElse?
    decreases s, 0
  {
    && Scoped(s.cond, names + [map[]])
    && AcceptedBlock(s.thn, names + [map[]], loop, ToValue(s.cond, names + [map[]], NewLabel(NewList(NewList(c)))).next)
  }
}
