/** The source language of procedure bodies and its meaning. */
module Language {
  import opened Ir
  import opened Options

  datatype BinaryOp = Arithmetic(arith: ArithOp) | Comparison(how: ComparisonMethod)

  datatype Expr =
    | Name(name: string)
    | Literal(value: Value)
    | ProcCall(callee: string, args: seq<Expr>)
    | LogicalNot(right: Expr)
    | LogicalAnd(left: Expr, right: Expr)
    | LogicalOr(left: Expr, right: Expr)
    | Binary(op: BinaryOp, left: Expr, right: Expr)

  datatype Stmt =
    // a declaration without a value; its type's zero value is what the variable starts with
    | Declaration(name: string, zero: Value)
    | Declare(name: string, e: Expr)
    | SetTo(name: string, e: Expr)
    | PlusEqual(name: string, e: Expr)
    | MinusEqual(name: string, e: Expr)
    | Plain(e: Expr)
    | If(cond: Expr, thn: seq<Stmt>)
    | IfElse(cond: Expr, thn: seq<Stmt>, els: seq<Stmt>)
    | Forever(body: seq<Stmt>)
    | While(cond: Expr, body: seq<Stmt>)
    | ForRange(counter: Option<string>, from: Expr, to: Expr, body: seq<Stmt>)
    | Break
    | Continue
    | ReturnStmt(values: seq<Expr>)

  /** One table per open scope, innermost last. */
  type Scopes<T> = seq<map<string, T>>

  predicate Resolves<T>(scopes: Scopes<T>, x: string) {
    scopes != [] && (x in scopes[|scopes| - 1] || Resolves(scopes[..|scopes| - 1], x))
  }

  /** The innermost binding of a name. */
  function Resolve<T>(scopes: Scopes<T>, x: string): T
    requires Resolves(scopes, x)
  {
    if x in scopes[|scopes| - 1] then scopes[|scopes| - 1][x] else Resolve(scopes[..|scopes| - 1], x)
  }

  function Bind<T>(scopes: Scopes<T>, x: string, v: T): (r: Scopes<T>)
    requires scopes != []
    ensures |r| == |scopes|
  {
    scopes[..|scopes| - 1] + [scopes[|scopes| - 1][x := v]]
  }

  /** Change the innermost binding of a name. */
  function Set<T>(scopes: Scopes<T>, x: string, v: T): (r: Scopes<T>)
    requires Resolves(scopes, x)
    ensures |r| == |scopes|
  {
    if x in scopes[|scopes| - 1] then Bind(scopes, x, v)
    else Set(scopes[..|scopes| - 1], x, v) + [scopes[|scopes| - 1]]
  }

  // ----- Expressions -----

  datatype Evaluated = Evaluated(value: Value, trace: seq<Event>)

  datatype EvaluatedAll = EvaluatedAll(values: seq<Value>, trace: seq<Event>)

  /** The value of an expression and the calls made so far; None when the expression has no meaning. */
  function Eval(w: World, e: Expr, env: Scopes<Value>, trace: seq<Event>): Option<Evaluated>
    decreases e, 1
  {
    match e
    case Name(x) =>
      if Resolves(env, x) && Resolve(env, x) != Undefined then Some(Evaluated(Resolve(env, x), trace)) else None
    case Literal(v) => Some(Evaluated(v, trace))
    case ProcCall(callee, args) =>
      (match EvalAll(w, args, env, trace) {
         case None => None
         case Some(a) => Some(Evaluated(w.call(callee, a.values, a.trace), a.trace + [Event(callee, a.values)]))
       })
    case LogicalNot(r) =>
      (match Eval(w, r, env, trace) {
         case None => None
         case Some(a) => if a.value.Bool? then Some(Evaluated(Bool(!a.value.b), a.trace)) else None
       })
    case LogicalAnd(_, _) => EvalShort(w, e, false, env, trace)
    case LogicalOr(_, _) => EvalShort(w, e, true, env, trace)
    case Binary(op, l, r) =>
      (match Eval(w, l, env, trace) {
         case None => None
         case Some(a) =>
           match Eval(w, r, env, a.trace) {
             case None => None
             case Some(b) =>
               match Apply(w, op, a.value, b.value) {
                 case None => None
                 case Some(v) => Some(Evaluated(v, b.trace))
               }
           }
       })
  }

  function Apply(w: World, op: BinaryOp, a: Value, b: Value): Option<Value> {
    match op
    case Arithmetic(arith) => w.arith(arith, a, b)
    case Comparison(how) => match w.compare(how, a, b) { case None => None case Some(t) => Some(Bool(t)) }
  }

  /** The right operand is evaluated only if the left one is not `decisive`. */
  function EvalShort(w: World, e: Expr, decisive: bool, env: Scopes<Value>, trace: seq<Event>): Option<Evaluated>
    requires e.LogicalAnd? || e.LogicalOr?
    decreases e, 0
  {
    match Eval(w, e.left, env, trace)
    case None => None
    case Some(a) =>
      if !a.value.Bool? then None
      else if a.value.b == decisive then Some(Evaluated(Bool(decisive), a.trace))
      else
        match Eval(w, e.right, env, a.trace)
        case None => None
        case Some(b) => if b.value.Bool? then Some(b) else None
  }

  function EvalAll(w: World, es: seq<Expr>, env: Scopes<Value>, trace: seq<Event>): Option<EvaluatedAll>
    decreases es, 0
  {
    if es == [] then Some(EvaluatedAll([], trace))
    else
      match Eval(w, es[0], env, trace)
      case None => None
      case Some(a) =>
        match EvalAll(w, es[1..], env, a.trace)
        case None => None
        case Some(rest) => Some(EvaluatedAll([a.value] + rest.values, rest.trace))
  }

  // ----- Statements -----

  datatype Outcome =
    | Normal(env: Scopes<Value>, trace: seq<Event>)
    | Broke(env: Scopes<Value>, trace: seq<Event>)
    | Continued(env: Scopes<Value>, trace: seq<Event>)
    | Returned(values: seq<Value>, trace: seq<Event>)
    | OutOfFuel(trace: seq<Event>)
    | Meaningless

  /** Leave the scopes beyond the first n. */
  function Leave(o: Outcome, n: nat): Outcome {
    match o
    case Normal(env, trace) => if n <= |env| then Normal(env[..n], trace) else o
    case Broke(env, trace) => if n <= |env| then Broke(env[..n], trace) else o
    case Continued(env, trace) => if n <= |env| then Continued(env[..n], trace) else o
    case _ => o
  }

  /** The upper end of a range: a bare variable is read again at every turn, anything else is evaluated once. */
  datatype Bound = Fixed(value: Value) | Reread(name: string)

  function BoundValue(bound: Bound, env: Scopes<Value>): Option<Value> {
    match bound
    case Fixed(v) => Some(v)
    case Reread(x) => if Resolves(env, x) && Resolve(env, x) != Undefined then Some(Resolve(env, x)) else None
  }

  /** Run statements in the innermost scope of env. Fuel bounds the turns of each loop. */
  function ExecBlock(w: World, stmts: seq<Stmt>, env: Scopes<Value>, trace: seq<Event>, fuel: nat): Outcome
    decreases fuel, stmts, 0
  {
    if stmts == [] then Normal(env, trace)
    else
      match ExecStmt(w, stmts[0], env, trace, fuel)
      case Normal(env', trace') => ExecBlock(w, stmts[1..], env', trace', fuel)
      case o => o
  }

  function ExecStmt(w: World, s: Stmt, env: Scopes<Value>, trace: seq<Event>, fuel: nat): Outcome
    decreases fuel, s, 2
  {
    if env == [] then Meaningless else
    match s
    case Declaration(x, zero) => Normal(Bind(env, x, zero), trace)
    case Declare(x, e) =>
      // where no x is in sight, the new one already is while its value is computed
      var during := if Resolves(env, x) then env else Bind(env, x, Undefined);
      (match Eval(w, e, during, trace) {
         case None => Meaningless
         case Some(a) => Normal(Bind(env, x, a.value), a.trace)
       })
    case SetTo(x, e) =>
      (match Eval(w, e, env, trace) {
         case None => Meaningless
         case Some(a) => if Resolves(env, x) then Normal(Set(env, x, a.value), a.trace) else Meaningless
       })
    case PlusEqual(x, e) => ExecUpdate(w, Add, x, e, env, trace)
    case MinusEqual(x, e) => ExecUpdate(w, Sub, x, e, env, trace)
    case Plain(e) =>
      // no code is generated for any other kind of expression
      if !e.ProcCall? then Normal(env, trace)
      else (match Eval(w, e, env, trace) { case None => Meaningless case Some(a) => Normal(env, a.trace) })
    case If(c, thn) => ExecBranch(w, s, env, trace, fuel)
    case IfElse(c, thn, els) => ExecBranch(w, s, env, trace, fuel)
    case Forever(body) => ExecLoop(w, s, env, trace, fuel)
    case While(c, body) => ExecLoop(w, s, env, trace, fuel)
    case ForRange(_, from, to, _) =>
      // the upper end is evaluated before the lower one
      (match EvalBound(w, to, env, trace) {
         case None => Meaningless
         case Some(b) =>
           match Eval(w, from, env, b.1) {
             case None => Meaningless
             case Some(a) => ExecRange(w, s, a.value, b.0, env, a.trace, fuel)
           }
       })
    case Break => Broke(env, trace)
    case Continue => Continued(env, trace)
    case ReturnStmt(values) =>
      (match EvalAll(w, values, env, trace) { case None => Meaningless case Some(a) => Returned(a.values, a.trace) })
  }

  function EvalBound(w: World, to: Expr, env: Scopes<Value>, trace: seq<Event>): Option<(Bound, seq<Event>)> {
    if to.Name? then Some((Reread(to.name), trace))
    else match Eval(w, to, env, trace) { case None => None case Some(b) => Some((Fixed(b.value), b.trace)) }
  }

  function ExecUpdate(w: World, op: ArithOp, x: string, e: Expr, env: Scopes<Value>, trace: seq<Event>): Outcome {
    match Eval(w, e, env, trace)
    case None => Meaningless
    case Some(a) =>
      if !Resolves(env, x) || Resolve(env, x) == Undefined then Meaningless
      else
        match w.arith(op, Resolve(env, x), a.value)
        case None => Meaningless
        case Some(v) => Normal(Set(env, x, v), a.trace)
  }

  /** Each branch has its own scope. */
  function ExecBranch(w: World, s: Stmt, env: Scopes<Value>, trace: seq<Event>, fuel: nat): Outcome
    requires s.If? || s.IfElse?
    decreases fuel, s, 0
  {
    match Eval(w, s.cond, env, trace)
    case None => Meaningless
    case Some(a) =>
      if !a.value.Bool? then Meaningless
      else if a.value.b then Leave(ExecBlock(w, s.thn, env + [map[]], a.trace, fuel), |env|)
      else if s.IfElse? then Leave(ExecBlock(w, s.els, env + [map[]], a.trace, fuel), |env|)
      else Normal(env, a.trace)
  }

  /** Each turn has its own scope. */
  function ExecLoop(w: World, s: Stmt, env: Scopes<Value>, trace: seq<Event>, fuel: nat): Outcome
    requires s.Forever? || s.While?
    decreases fuel, s, 1
  {
    if fuel == 0 then OutOfFuel(trace)
    else
      match if s.While? then Eval(w, s.cond, env, trace) else Some(Evaluated(Bool(true), trace))
      case None => Meaningless
      case Some(a) =>
        if !a.value.Bool? then Meaningless
        else if !a.value.b then Normal(env, a.trace)
        else
          match Leave(ExecBlock(w, s.body, env + [map[]], a.trace, fuel), |env|)
          case Normal(env', trace') => ExecLoop(w, s, env', trace', fuel - 1)
          case Continued(env', trace') => ExecLoop(w, s, env', trace', fuel - 1)
          case Broke(env', trace') => Normal(env', trace')
          case o => o
  }

  /** `i` is the hidden iteration variable; the body sees only a copy of it. Ranges include their upper end. */
  function ExecRange(w: World, s: Stmt, i: Value, bound: Bound, env: Scopes<Value>, trace: seq<Event>,
                     fuel: nat): Outcome
    requires s.ForRange?
    decreases fuel, s, 1
  {
    if fuel == 0 then OutOfFuel(trace)
    else
      match BoundValue(bound, env)
      case None => Meaningless
      case Some(hi) =>
        match w.compare(LesserOrEqual, i, hi)
        case None => Meaningless
        case Some(more) =>
          if !more then Normal(env, trace)
          else
            match Leave(ExecBlock(w, s.body, env + [CounterScope(s.counter, i)], trace, fuel), |env|)
            case Normal(env', trace') => NextTurn(w, s, i, bound, env', trace', fuel)
            case Continued(env', trace') => NextTurn(w, s, i, bound, env', trace', fuel)
            case Broke(env', trace') => Normal(env', trace')
            case o => o
  }

  function NextTurn(w: World, s: Stmt, i: Value, bound: Bound, env: Scopes<Value>, trace: seq<Event>,
                    fuel: nat): Outcome
    requires s.ForRange? && fuel > 0
    decreases fuel, s, 0
  {
    match w.arith(Add, i, Int(1))
    case None => Meaningless
    case Some(i') => ExecRange(w, s, i', bound, env, trace, fuel - 1)
  }

  function CounterScope(counter: Option<string>, i: Value): map<string, Value> {
    match counter
    case None => map[]
    case Some(x) => map[x := i]
  }
}
