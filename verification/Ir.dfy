/** The intermediate representation, and how it runs. */
module Ir {
  import opened Options

  /** What a variable holds. Undefined stands for a value nothing may be concluded from. */
  datatype Value = Int(i: int) | Bool(b: bool) | Undefined

  datatype ArithOp = Add | Sub | Mult | Div

  datatype ComparisonMethod = Lesser | Greater | GreaterOrEqual | LesserOrEqual | AreEqual | NotEqual

  datatype PointerOp = TakeAddress | ArrayToPointer | IndirectWrite | IndirectLoad | StructMemberPtr | PeelStruct

  datatype LabelKind = Else | IfElseEnd | LoopStart | LoopContinue | LoopExit | AndEnd | OrEnd

  /** A label name: its template and the number the label generator filled in. */
  datatype Label = Label(kind: LabelKind, id: nat)

  /** Mutation lists are shared by reference in the compiler; here an instruction names its list by number. */
  datatype Inst =
    // mention no variable in the main struct
    | Return(values: seq<nat>)
    | Jump(target: Label)
    | StartProc(name: string)
    | EndProc
    | LabelAt(target: Label)
    | OutsideLoopMutations(list: nat)
    | OptionSelectStart(list: nat)
    | OptionEnd(list: nat)
    | OptionSelectEnd
    | LoopEnd
    // only mutate
    | Call(out: nat, callee: string, args: seq<nat>)
    | AssignImm(out: nat, imm: Value)
    | Increment(out: nat)
    | Decrement(out: nat)
    // only read; JumpIfTrue, JumpIfFalse and their short forms differ in `expected` and `short`
    | JumpIf(expected: bool, short: bool, read: nat, target: Label)
    | Compare(how: ComparisonMethod, read: nat, right: nat, result: nat)
    // read and mutate
    | Assign(out: nat, read: nat)
    | Pointer(op: PointerOp, out: nat, read: nat)
    | Not(out: nat, read: nat)
    // update a variable from itself and another
    | Arith(arith: ArithOp, out: nat, read: nat)
    | And(out: nat, read: nat)
    | Or(out: nat, read: nat)

  /** Every variable an instruction mentions (IterOverAllVars). */
  function VarsOf(i: Inst): seq<nat> {
    match i
    case Return(values) => values
    case Call(out, _, args) => [out] + args
    case AssignImm(out, _) => [out]
    case Increment(out) => [out]
    case Decrement(out) => [out]
    case JumpIf(_, _, read, _) => [read]
    case Compare(_, read, right, result) => [read, result, right]
    case Assign(out, read) => [read, out]
    case Pointer(_, out, read) => [read, out]
    case Not(out, read) => [read, out]
    case Arith(_, out, read) => [read, out]
    case And(out, read) => [read, out]
    case Or(out, read) => [read, out]
    case _ => []
  }

  /** The variables an instruction mentions are its operands: what it writes, what it reads, a second operand of a
      comparison, and the arguments of a call or values of a return. A write through a pointer mentions both. */
  lemma VarsAreOperands(i: Inst, v: nat)
    ensures v in VarsOf(i) <==>
      || (i.Call? && (v == i.out || v in i.args))
      || (i.Return? && v in i.values)
      || (i.Compare? && (v == i.read || v == i.right || v == i.result))
      || ((i.AssignImm? || i.Increment? || i.Decrement? || i.Assign? || i.Pointer? || i.Not? || i.Arith? || i.And?
          || i.Or?)
          && v == i.out)
      || ((i.JumpIf? || i.Assign? || i.Pointer? || i.Not? || i.Arith? || i.And? || i.Or?) && v == i.read)
  {
  }

  /** The variable an instruction mutates directly (FindMutationVar): a write through a pointer is none. */
  function MutationVar(i: Inst): Option<nat> {
    match i
    case Call(out, _, _) => Some(out)
    case AssignImm(out, _) => Some(out)
    case Increment(out) => Some(out)
    case Decrement(out) => Some(out)
    case Compare(_, _, _, result) => Some(result)
    case Assign(out, _) => Some(out)
    case Pointer(op, out, _) => if op == IndirectWrite then None else Some(out)
    case Not(out, _) => Some(out)
    case Arith(_, out, _) => Some(out)
    case And(out, _) => Some(out)
    case Or(out, _) => Some(out)
    case _ => None
  }

  /** An instruction mutates directly what its result goes to. Only what a pointer points to is not named by it. */
  lemma MutatesItsResult(i: Inst, v: nat)
    ensures MutationVar(i) == Some(v) <==>
      || (i.Compare? && v == i.result)
      || ((i.Call? || i.AssignImm? || i.Increment? || i.Decrement? || i.Assign? || i.Not? || i.Arith? || i.And? || i.Or?
           || (i.Pointer? && i.op != IndirectWrite))
          && v == i.out)
    ensures MutationVar(i) == Some(v) ==> v in VarsOf(i)
  {
  }

  // ----- Running it -----

  datatype Event = Event(callee: string, args: seq<Value>)

  /** Everything the meaning of a program depends on besides its text: arithmetic, comparison, and what calls return
      given the calls made before. A result of None means the operation has no meaning on those operands. */
  datatype World = World(
    arith: (ArithOp, Value, Value) -> Option<Value>,
    compare: (ComparisonMethod, Value, Value) -> Option<bool>,
    call: (string, seq<Value>, seq<Event>) -> Value)

  type Store = map<nat, Value>

  datatype Config =
    | Running(pc: nat, store: Store, trace: seq<Event>)
    | Halted(values: seq<Value>, trace: seq<Event>)
    | Stuck

  /** The position of a label, if the program has it. */
  function Find(program: seq<Inst>, l: Label): (at: Option<nat>)
    ensures at.Some? ==> at.value < |program| && program[at.value] == LabelAt(l)
    ensures at.None? ==> LabelAt(l) !in program
  {
    if program == [] then None
    else if program[0] == LabelAt(l) then Some(0)
    else match Find(program[1..], l) { case None => None case Some(k) => Some(k + 1) }
  }

  function ReadAll(store: Store, vars: seq<nat>): Option<seq<Value>> {
    if vars == [] then Some([])
    else if vars[0] !in store then None
    else match ReadAll(store, vars[1..]) { case None => None case Some(vs) => Some([store[vars[0]]] + vs) }
  }

  function Goto(program: seq<Inst>, l: Label, store: Store, trace: seq<Event>): Config {
    match Find(program, l)
    case None => Stuck
    case Some(at) => Running(at, store, trace)
  }

  function Put(c: Config, out: nat, v: Value): Config
    requires c.Running?
  {
    Running(c.pc + 1, c.store[out := v], c.trace)
  }

  function StepInst(w: World, program: seq<Inst>, c: Config, i: Inst): Config
    requires c.Running?
  {
    var st := c.store;
    match i
    case Return(values) =>
      (match ReadAll(st, values) { case None => Stuck case Some(vs) => Halted(vs, c.trace) })
    case Jump(target) => Goto(program, target, st, c.trace)
    case Call(out, callee, args) =>
      (match ReadAll(st, args) {
         case None => Stuck
         case Some(vs) => Running(c.pc + 1, st[out := w.call(callee, vs, c.trace)], c.trace + [Event(callee, vs)])
       })
    case AssignImm(out, imm) => Put(c, out, imm)
    case Increment(out) => if out in st then PutSome(c, out, w.arith(Add, st[out], Int(1))) else Stuck
    case Decrement(out) => if out in st then PutSome(c, out, w.arith(Sub, st[out], Int(1))) else Stuck
    case JumpIf(expected, _, read, target) =>
      if read in st && st[read].Bool? then
        if st[read].b == expected then Goto(program, target, st, c.trace) else Running(c.pc + 1, st, c.trace)
      else Stuck
    case Compare(how, read, right, result) =>
      if read in st && right in st then
        match w.compare(how, st[read], st[right]) { case None => Stuck case Some(b) => Put(c, result, Bool(b)) }
      else Stuck
    case Assign(out, read) => if read in st then Put(c, out, st[read]) else Stuck
    case Not(out, read) => if read in st && st[read].Bool? then Put(c, out, Bool(!st[read].b)) else Stuck
    case Arith(op, out, read) =>
        if out in st && read in st then PutSome(c, out, w.arith(op, st[out], st[read])) else Stuck
    case And(out, read) =>
      if out in st && read in st && st[out].Bool? && st[read].Bool? then Put(c, out, Bool(st[out].b && st[read].b))
          else Stuck
    case Or(out, read) =>
      if out in st && read in st && st[out].Bool? && st[read].Bool? then Put(c, out, Bool(st[out].b || st[read].b))
          else Stuck
    case Pointer(_, _, _) => Stuck
    // bookkeeping for the code generator
    case _ => Running(c.pc + 1, st, c.trace)
  }

  function PutSome(c: Config, out: nat, v: Option<Value>): Config
    requires c.Running?
  {
    match v
    case None => Stuck
    case Some(x) => Put(c, out, x)
  }

  function Step(w: World, program: seq<Inst>, c: Config): Config {
    if c.Running? && c.pc < |program| then StepInst(w, program, c, program[c.pc]) else Stuck
  }

  function Steps(w: World, program: seq<Inst>, c: Config, n: nat): Config
    decreases n
  {
    if n == 0 then c else Steps(w, program, Step(w, program, c), n - 1)
  }

  lemma {:induction false} StepsAdd(w: World, program: seq<Inst>, c: Config, n: nat, m: nat)
    ensures Steps(w, program, c, n + m) == Steps(w, program, Steps(w, program, c, n), m)
    decreases n
  {
    if n > 0 {
      StepsAdd(w, program, Step(w, program, c), n - 1, m);
    }
  }

  // ----- Fragments of a program -----

  ghost predicate At(program: seq<Inst>, p: nat, code: seq<Inst>) {
    p + |code| <= |program| && program[p..p + |code|] == code
  }

  ghost predicate UniqueLabels(program: seq<Inst>) {
    forall i, j :: 0 <= i < j < |program| && program[i].LabelAt? && program[j].LabelAt? ==>
        program[i].target != program[j].target
  }

  lemma AtParts(program: seq<Inst>, p: nat, a: seq<Inst>, b: seq<Inst>)
    requires At(program, p, a + b)
    ensures At(program, p, a) && At(program, p + |a|, b)
  {
    assert a == (a + b)[..|a|];
    assert b == (a + b)[|a|..];
  }

  lemma AtOne(program: seq<Inst>, p: nat, i: Inst)
    requires At(program, p, [i])
    ensures p < |program| && program[p] == i
  {
    assert program[p] == program[p..p + 1][0];
  }

  lemma FindsIt(program: seq<Inst>, p: nat, l: Label)
    requires UniqueLabels(program) && At(program, p, [LabelAt(l)])
    ensures Find(program, l) == Some(p)
  {
    AtOne(program, p, LabelAt(l));
  }
}
