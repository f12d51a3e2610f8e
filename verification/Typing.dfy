/** The types of expressions and statements over integers and truth values, as the compiler has them and as a meaning
    demands them. */
module Typing {
  import opened Ir
  import opened Options
  import opened Language

  /** VoidType is what a call gives that returns nothing. */
  datatype Type = IntType | BoolType | VoidType

  datatype Signature = Signature(params: seq<Type>, result: Type)

  type Signatures = map<string, Signature>

  /** What the compiler checks, or strictly what a program needs to have a meaning: that conditions are truth
      values, that nothing is divided, and that no value is made of the name it is for. */
  datatype Rules = Rules(sigs: Signatures, strict: bool)

  type Context = Scopes<Type>

  function TypeOfValue(v: Value): Option<Type> {
    match v
    case Int(_) => Some(IntType)
    case Bool(_) => Some(BoolType)
    case Undefined => None
  }

  /** Integers can be compared in every way, truth values for being equal or not. */
  predicate MayCompare(how: ComparisonMethod, a: Type, b: Type) {
    (a == b == IntType) || (a == b == BoolType && (how == AreEqual || how == NotEqual))
  }

  /** Two values of one type can be compared at all, truth values in two of the six ways. */
  lemma ComparableAre(a: Type, b: Type)
    ensures MayCompare(AreEqual, a, b) <==> a == b && a != VoidType
    ensures MayCompare(NotEqual, a, b) <==> a == b && a != VoidType
    ensures forall how :: how !in {AreEqual, NotEqual} ==> (MayCompare(how, a, b) <==> a == b == IntType)
  {
  }

  function TypeOf(e: Expr, ctx: Context, rules: Rules): Option<Type>
    decreases e, 2
  {
    match e
    case Name(x) => if Resolves(ctx, x) then Some(Resolve(ctx, x)) else None
    case Literal(v) => TypeOfValue(v)
    case ProcCall(callee, args) =>
      if callee in rules.sigs && TypesOf(args, ctx, rules) == Some(rules.sigs[callee].params)
      then Some(rules.sigs[callee].result) else None
    case LogicalNot(r) => if TypeOf(r, ctx, rules) == Some(BoolType) then Some(BoolType) else None
    case LogicalAnd(_, _) => ShortType(e, ctx, rules, None)
    case LogicalOr(_, _) => ShortType(e, ctx, rules, None)
    case Binary(op, l, r) =>
      match TypeOf(l, ctx, rules)
      case None => None
      case Some(a) =>
        match TypeOf(r, ctx, rules)
        case None => None
        case Some(b) => Combined(op, a, b, rules.strict)
  }

  function Combined(op: BinaryOp, a: Type, b: Type, strict: bool): Option<Type> {
    match op
    case Arithmetic(arith) => if a == b == IntType && !(strict && arith == Div) then Some(IntType) else None
    case Comparison(how) => if MayCompare(how, a, b) then Some(BoolType) else None
  }

  /** The right operand may mention the name that the value is for, which has the left operand's value by then. */
  function ShortType(e: Expr, ctx: Context, rules: Rules, self: Option<string>): Option<Type>
    requires e.LogicalAnd? || e.LogicalOr?
    decreases e, 0
  {
    if TypeInto(e.left, ctx, rules, self) == Some(BoolType)
        && TypeOf(e.right, Within(ctx, self), rules) == Some(BoolType)
    then Some(BoolType) else None
  }

  /** The type of a value for a new name, if `self` tells one. */
  function TypeInto(e: Expr, ctx: Context, rules: Rules, self: Option<string>): Option<Type>
    decreases e, 3
  {
    if e.LogicalAnd? || e.LogicalOr? then ShortType(e, ctx, rules, self) else TypeOf(e, ctx, rules)
  }

  lemma ShortIs(e: Expr, ctx: Context, rules: Rules)
    requires e.LogicalAnd? || e.LogicalOr?
    ensures TypeOf(e, ctx, rules) ==
      if TypeOf(e.left, ctx, rules) == TypeOf(e.right, ctx, rules) == Some(BoolType) then Some(BoolType) else None
  {
    assert TypeInto(e.left, ctx, rules, None) == TypeOf(e.left, ctx, rules);
    assert TypeOf(e, ctx, rules) == ShortType(e, ctx, rules, None);
  }

  function Within(ctx: Context, self: Option<string>): Context {
    if self.None? || ctx == [] then ctx else Bind(ctx, self.value, BoolType)
  }

  function TypesOf(es: seq<Expr>, ctx: Context, rules: Rules): Option<seq<Type>>
    decreases es, 0
  {
    if es == [] then Some([])
    else
      match TypeOf(es[0], ctx, rules)
      case None => None
      case Some(t) => match TypesOf(es[1..], ctx, rules) { case None => None case Some(ts) => Some([t] + ts) }
  }

  // ----- Statements -----

  predicate TypedBlock(stmts: seq<Stmt>, ctx: Context, rules: Rules)
    decreases stmts, 0
  {
    stmts == [] || (Typed(stmts[0], ctx, rules) && TypedBlock(stmts[1..], Extended(stmts[0], ctx, rules), rules))
  }

  predicate Typed(s: Stmt, ctx: Context, rules: Rules)
    decreases s, 1
  {
    ctx != [] &&
    match s
    case Declaration(_, zero) => TypeOfValue(zero).Some?
    case Declare(x, e) => TypeOfNew(x, e, ctx, rules).Some?
    case SetTo(x, e) => Resolves(ctx, x) && TypeOf(e, ctx, rules) == Some(Resolve(ctx, x))
    case PlusEqual(x, e) => Resolves(ctx, x) && TypeOf(e, ctx, rules) == Some(Resolve(ctx, x)) == Some(IntType)
    case MinusEqual(x, e) => Resolves(ctx, x) && TypeOf(e, ctx, rules) == Some(Resolve(ctx, x)) == Some(IntType)
    case Plain(e) => (e.Name? || e.Literal? || e.ProcCall?) ==> TypeOf(e, ctx, rules).Some?
    case If(cond, thn) => Decides(cond, ctx, rules) && TypedBlock(thn, ctx + [map[]], rules)
    case IfElse(cond, thn, els) =>
      Decides(cond, ctx, rules) && TypedBlock(thn, ctx + [map[]], rules) && TypedBlock(els, ctx + [map[]], rules)
    case Forever(body) => TypedBlock(body, ctx + [map[]], rules)
    case While(cond, body) => Decides(cond, ctx, rules) && TypedBlock(body, ctx + [map[]], rules)
    case ForRange(counter, from, to, body) =>
      && TypeOf(to, ctx, rules) == TypeOf(from, ctx, rules) == Some(IntType)
      && TypedBlock(body, ctx + [CounterTypes(counter)], rules)
    case Break => true
    case Continue => true
    case ReturnStmt(values) => TypesOf(values, ctx, rules).Some?
  }

  predicate Decides(cond: Expr, ctx: Context, rules: Rules) {
    var t := TypeOf(cond, ctx, rules);
    t.Some? && (rules.strict ==> t.value == BoolType)
  }

  function TypeOfNew(x: string, e: Expr, ctx: Context, rules: Rules): Option<Type> {
    if Resolves(ctx, x) || rules.strict then TypeOf(e, ctx, rules) else TypeInto(e, ctx, rules, Some(x))
  }

  function CounterTypes(counter: Option<string>): map<string, Type> {
    match counter
    case None => map[]
    case Some(x) => map[x := IntType]
  }

  /** The names in scope after a statement. */
  function Extended(s: Stmt, ctx: Context, rules: Rules): (r: Context)
    ensures |r| == |ctx|
    ensures ctx != [] ==> r[..|ctx| - 1] == ctx[..|ctx| - 1]
  {
    if ctx == [] then ctx
    else
      match s
      case Declaration(x, zero) => Bind(ctx, x, TypeOfValue(zero).GetOr(IntType))
      case Declare(x, e) => Bind(ctx, x, TypeOfNew(x, e, ctx, rules).GetOr(IntType))
      case _ => ctx
  }

  lemma BindElsewhere<T>(scopes: Scopes<T>, x: string, v: T, y: string)
    requires scopes != [] && y != x
    ensures Resolves(Bind(scopes, x, v), y) <==> Resolves(scopes, y)
    ensures Resolves(scopes, y) ==> Resolve(Bind(scopes, x, v), y) == Resolve(scopes, y)
  {
    var n := |scopes| - 1;
    assert Bind(scopes, x, v)[..n] == scopes[..n];
  }

  /** A scope without names changes nothing. */
  lemma {:induction false} EmptyScope(e: Expr, ctx: Context, rules: Rules)
    ensures TypeOf(e, ctx + [map[]], rules) == TypeOf(e, ctx, rules)
    decreases e, 1
  {
    hide Combined;
    match e
    case Name(x) => assert (ctx + [map[]])[..|ctx|] == ctx;
    case Literal(_) =>
    case ProcCall(_, args) => EmptyScopeAll(args, ctx, rules);
    case LogicalNot(r) => EmptyScope(r, ctx, rules);
    case LogicalAnd(l, r) =>
      ShortIs(e, ctx, rules);
      ShortIs(e, ctx + [map[]], rules);
      EmptyScope(l, ctx, rules);
      EmptyScope(r, ctx, rules);
    case LogicalOr(l, r) =>
      ShortIs(e, ctx, rules);
      ShortIs(e, ctx + [map[]], rules);
      EmptyScope(l, ctx, rules);
      EmptyScope(r, ctx, rules);
    case Binary(_, l, r) =>
      EmptyScope(l, ctx, rules);
      EmptyScope(r, ctx, rules);
  }

  lemma {:induction false} EmptyScopeAll(es: seq<Expr>, ctx: Context, rules: Rules)
    ensures TypesOf(es, ctx + [map[]], rules) == TypesOf(es, ctx, rules)
    decreases es, 0
  {
    if es != [] {
      EmptyScope(es[0], ctx, rules);
      EmptyScopeAll(es[1..], ctx, rules);
    }
  }

  // ----- Strictly typed is typed -----

  /** One more name in sight does no harm. */
  lemma {:induction false} MoreNames(e: Expr, ctx: Context, rules: Rules, x: string, t: Type)
    requires ctx != [] && !Resolves(ctx, x) && TypeOf(e, ctx, rules).Some?
    ensures TypeOf(e, Bind(ctx, x, t), rules) == TypeOf(e, ctx, rules)
    decreases e, 1
  {
    hide Bind, Resolves, Resolve, Combined;
    match e
    case Name(y) =>
      if y != x {
        BindElsewhere(ctx, x, t, y);
      }
    case Literal(_) =>
    case ProcCall(_, args) => MoreNamesAll(args, ctx, rules, x, t);
    case LogicalNot(r) => MoreNames(r, ctx, rules, x, t);
    case LogicalAnd(l, r) =>
      ShortIs(e, ctx, rules);
      ShortIs(e, Bind(ctx, x, t), rules);
      MoreNames(l, ctx, rules, x, t);
      MoreNames(r, ctx, rules, x, t);
    case LogicalOr(l, r) =>
      ShortIs(e, ctx, rules);
      ShortIs(e, Bind(ctx, x, t), rules);
      MoreNames(l, ctx, rules, x, t);
      MoreNames(r, ctx, rules, x, t);
    case Binary(_, l, r) =>
      MoreNames(l, ctx, rules, x, t);
      MoreNames(r, ctx, rules, x, t);
  }

  lemma {:induction false} MoreNamesAll(es: seq<Expr>, ctx: Context, rules: Rules, x: string, t: Type)
    requires ctx != [] && !Resolves(ctx, x) && TypesOf(es, ctx, rules).Some?
    ensures TypesOf(es, Bind(ctx, x, t), rules) == TypesOf(es, ctx, rules)
    decreases es, 0
  {
    hide Bind, Resolves;
    if es != [] {
      MoreNames(es[0], ctx, rules, x, t);
      MoreNamesAll(es[1..], ctx, rules, x, t);
    }
  }

  /** So what has a type also has it as the value of a new name. */
  lemma {:induction false} NewNameIsTyped(x: string, e: Expr, ctx: Context, rules: Rules)
    requires ctx != [] && !Resolves(ctx, x) && TypeOf(e, ctx, rules).Some?
    ensures TypeInto(e, ctx, rules, Some(x)) == TypeOf(e, ctx, rules)
    decreases e
  {
    hide Bind, Resolves;
    if e.LogicalAnd? || e.LogicalOr? {
      ShortIs(e, ctx, rules);
      NewNameIsTyped(x, e.left, ctx, rules);
      MoreNames(e.right, ctx, rules, x, BoolType);
    }
  }

  lemma {:induction false} StrictTypeIsType(e: Expr, ctx: Context, sigs: Signatures)
    requires TypeOf(e, ctx, Rules(sigs, true)).Some?
    ensures TypeOf(e, ctx, Rules(sigs, false)) == TypeOf(e, ctx, Rules(sigs, true))
    decreases e, 1
  {
    match e
    case Name(_) =>
    case Literal(_) =>
    case ProcCall(_, args) => StrictTypesAreTypes(args, ctx, sigs);
    case LogicalNot(r) => StrictTypeIsType(r, ctx, sigs);
    case LogicalAnd(l, r) =>
      ShortIs(e, ctx, Rules(sigs, true));
      ShortIs(e, ctx, Rules(sigs, false));
      StrictTypeIsType(l, ctx, sigs);
      StrictTypeIsType(r, ctx, sigs);
    case LogicalOr(l, r) =>
      ShortIs(e, ctx, Rules(sigs, true));
      ShortIs(e, ctx, Rules(sigs, false));
      StrictTypeIsType(l, ctx, sigs);
      StrictTypeIsType(r, ctx, sigs);
    case Binary(_, l, r) =>
      StrictTypeIsType(l, ctx, sigs);
      StrictTypeIsType(r, ctx, sigs);
  }

  lemma {:induction false} StrictTypesAreTypes(es: seq<Expr>, ctx: Context, sigs: Signatures)
    requires TypesOf(es, ctx, Rules(sigs, true)).Some?
    ensures TypesOf(es, ctx, Rules(sigs, false)) == TypesOf(es, ctx, Rules(sigs, true))
    decreases es, 0
  {
    if es != [] {
      StrictTypeIsType(es[0], ctx, sigs);
      StrictTypesAreTypes(es[1..], ctx, sigs);
    }
  }

  lemma {:induction false} StrictBlockIsTyped(stmts: seq<Stmt>, ctx: Context, sigs: Signatures)
    requires TypedBlock(stmts, ctx, Rules(sigs, true))
    ensures TypedBlock(stmts, ctx, Rules(sigs, false))
    decreases stmts, 0
  {
    hide Typed, Extended;
    if stmts != [] {
      StrictStmtIsTyped(stmts[0], ctx, sigs);
      StrictBlockIsTyped(stmts[1..], Extended(stmts[0], ctx, Rules(sigs, true)), sigs);
    }
  }

  lemma {:induction false} StrictStmtIsTyped(s: Stmt, ctx: Context, sigs: Signatures)
    requires Typed(s, ctx, Rules(sigs, true))
    ensures Typed(s, ctx, Rules(sigs, false))
    ensures Extended(s, ctx, Rules(sigs, false)) == Extended(s, ctx, Rules(sigs, true))
    decreases s, 1
  {
    hide TypedBlock, TypeOf, TypeInto, TypesOf;
    match s
    case Declaration(_, _) =>
    case Declare(x, e) =>
      StrictTypeIsType(e, ctx, sigs);
      if !Resolves(ctx, x) {
        NewNameIsTyped(x, e, ctx, Rules(sigs, false));
      }
    case SetTo(_, e) => StrictTypeIsType(e, ctx, sigs);
    case PlusEqual(_, e) => StrictTypeIsType(e, ctx, sigs);
    case MinusEqual(_, e) => StrictTypeIsType(e, ctx, sigs);
    case Plain(e) =>
      if e.Name? || e.Literal? || e.ProcCall? {
        StrictTypeIsType(e, ctx, sigs);
      }
    case If(cond, thn) =>
      StrictTypeIsType(cond, ctx, sigs);
      StrictBlockIsTyped(thn, ctx + [map[]], sigs);
    case IfElse(cond, thn, els) =>
      StrictTypeIsType(cond, ctx, sigs);
      StrictBlockIsTyped(thn, ctx + [map[]], sigs);
      StrictBlockIsTyped(els, ctx + [map[]], sigs);
    case Forever(body) => StrictBlockIsTyped(body, ctx + [map[]], sigs);
    case While(cond, body) =>
      StrictTypeIsType(cond, ctx, sigs);
      StrictBlockIsTyped(body, ctx + [map[]], sigs);
    case ForRange(counter, from, to, body) =>
      StrictTypeIsType(from, ctx, sigs);
      StrictTypeIsType(to, ctx, sigs);
      StrictBlockIsTyped(body, ctx + [CounterTypes(counter)], sigs);
    case Break =>
    case Continue =>
    case ReturnStmt(values) => StrictTypesAreTypes(values, ctx, sigs);
  }
}
