/** Evaluating part of a procedure while its code is generated: the table of values known at compile time, and the
    code that remains for the rest. */
module Precompute {
  import opened Ir
  import opened Options

  // ----- Words -----

  const TWO63 := 0x8000_0000_0000_0000
  const TWO64 := 0x1_0000_0000_0000_0000

  /** The signed 64-bit number congruent to x. */
  function Wrap(x: int): (r: int)
    ensures -TWO63 <= r < TWO63
    ensures (x - r) % TWO64 == 0
  {
    (x + TWO63) % TWO64 - TWO63
  }

  /** Bitwise and, or on two's complement numbers of any width. */
  function BitAnd(a: int, b: int): int
    decreases (if a < 0 then -a else a) + (if b < 0 then -b else b)
  {
    if a == 0 || b == 0 then 0
    else if a == -1 then b
    else if b == -1 then a
    else 2 * BitAnd(a / 2, b / 2) + (a % 2) * (b % 2)
  }

  function BitOr(a: int, b: int): int {
    -1 - BitAnd(-1 - a, -1 - b)
  }

  function Compares(how: ComparisonMethod, a: int, b: int): bool {
    match how
    case Lesser => a < b
    case Greater => a > b
    case GreaterOrEqual => a >= b
    case LesserOrEqual => a <= b
    case AreEqual => a == b
    case NotEqual => a != b
  }

  function OfBool(b: bool): int { if b then 1 else 0 }

  function ArithWords(op: ArithOp, a: int, b: int): int {
    match op
    case Add => Wrap(a + b)
    case Sub => Wrap(a - b)
    case Mult => Wrap(a * b)
    case Div => 0
  }

  // ----- What values mean as words -----

  /** A 64-bit integer or a truth value. */
  predicate IsWord(v: Value) {
    match v
    case Int(i) => -TWO63 <= i < TWO63
    case Bool(_) => true
    case Undefined => false
  }

  function Encode(v: Value): int {
    match v
    case Int(i) => i
    case Bool(b) => OfBool(b)
    case Undefined => 0
  }

  /** Arithmetic on 64-bit integers without division; comparison of two integers or two truth values. */
  function Words(call: (string, seq<Value>, seq<Event>) -> Value): World {
    World(
      (op: ArithOp, a: Value, b: Value) => if a.Int? && b.Int? && op != Div then Some(Int(ArithWords(op, a.i, b.i)))
          else None,
      (how: ComparisonMethod, a: Value, b: Value) =>
        if (a.Int? && b.Int?) || (a.Bool? && b.Bool?) then Some(Compares(how, Encode(a), Encode(b))) else None,
      call)
  }

  // ----- The table -----

  /** What the generator knows of a variable. `once` says that it has been known before, or must not become known. */
  datatype Info = Info(known: bool, value: int, once: bool)

  const NOTHING := Info(false, 0, false)

  type Table = seq<Info>

  function Get(t: Table, v: nat): Info { if v < |t| then t[v] else NOTHING }

  function SetInfo(t: Table, v: nat, i: Info): (r: Table)
    ensures |r| == |t|
    ensures v < |t| ==> Get(r, v) == i
    ensures forall u :: u != v ==> Get(r, u) == Get(t, u)
  {
    if v < |t| then t[v := i] else t
  }

  datatype VarInfo = VarInfo(vn: nat, info: Info)

  /** Code that remains. */
  datatype Residual =
    | Run(i: Inst)
    | Mov(out: nat, imm: int)
    | ArithImm(op: ArithOp, out: nat, imm: int)
    | AndImm(out: nat, imm: int)
    | OrImm(out: nat, imm: int)
    | CompareImmLeft(how: ComparisonMethod, imm: int, right: nat, out: nat)
    | CompareImmRight(how: ComparisonMethod, left: nat, imm: int, out: nat)

  datatype Made = Made(table: Table, code: seq<Residual>)

  // ----- One instruction -----

  /** The instructions this part is about, besides those of option selects. */
  predicate Supported(i: Inst) {
    match i
    case AssignImm(_, imm) => IsWord(imm)
    case Assign(_, _) => true
    case Arith(op, _, _) => op != Div
    case Increment(_) => true
    case Decrement(_) => true
    case Compare(_, _, _, _) => true
    case Not(_, _) => true
    case And(_, _) => true
    case Or(_, _) => true
    case _ => false
  }

  predicate AllInputsKnown(t: Table, i: Inst) {
    forall v :: v in VarsOf(i) && Some(v) != MutationVar(i) ==> Get(t, v).known
  }

  predicate AnyKnown(t: Table, i: Inst) {
    exists v :: v in VarsOf(i) && Get(t, v).known
  }

  /** Give up knowing a variable: its value goes to where it lives at run time. */
  function Materialize(t: Table, v: nat): Made {
    if Get(t, v).known then Made(SetInfo(t, v, Info(false, Get(t, v).value, true)), [Mov(v, Get(t, v).value)])
        else Made(t, [])
  }

  /** A variable becomes known by its first constant; after that constants are stored at run time. */
  function GenAssignImm(t: Table, out: nat, imm: Value): Made {
    if !Get(t, out).once then Made(SetInfo(t, out, Info(true, Encode(imm), true)), [])
    else Made(SetInfo(t, out, Info(false, Get(t, out).value, true)), [Mov(out, Encode(imm))])
  }

  /** The generator panics on these. */
  predicate Panics(t: Table, i: Inst) {
    || (i.Assign? && i.out == i.read && !Get(t, i.out).known && !Get(t, i.out).once)
    || (i.Not? && Get(t, i.read).known && Get(t, i.out).once && !Get(t, i.out).known)
  }

  /** x = !x for an x never known: as what an instruction changes does not count as an input, nothing stops the
      generator from negating the value that happens to stand in the table. */
  predicate FoldsStale(t: Table, i: Inst) {
    i.Not? && i.out == i.read && !Get(t, i.out).known && !Get(t, i.out).once
  }

  /** Whether the instruction can be carried out on the table, all its inputs being known. */
  predicate CanPrecompute(t: Table, i: Inst) {
    match i
    case Arith(_, out, _) => Get(t, out).known
    case And(out, _) => Get(t, out).known
    case Or(out, _) => Get(t, out).known
    case Increment(out) => Get(t, out).known
    case Decrement(out) => Get(t, out).known
    case Assign(out, read) => Get(t, read).known && (Get(t, out).once ==> Get(t, out).known)
    case Not(out, _) => Get(t, out).once ==> Get(t, out).known
    case Compare(_, read, right, _) => Get(t, read).known && Get(t, right).known
    case _ => false
  }

  function WithValue(t: Table, v: nat, value: int): Table {
    SetInfo(t, v, Info(true, value, Get(t, v).once))
  }

  function Precomputed(t: Table, i: Inst): Table {
    match i
    case Arith(op, out, read) => WithValue(t, out, ArithWords(op, Get(t, out).value, Get(t, read).value))
    case And(out, read) => WithValue(t, out, BitAnd(Get(t, out).value, Get(t, read).value))
    case Or(out, read) => WithValue(t, out, BitOr(Get(t, out).value, Get(t, read).value))
    case Increment(out) => WithValue(t, out, Wrap(Get(t, out).value + 1))
    case Decrement(out) => WithValue(t, out, Wrap(Get(t, out).value - 1))
    case Assign(out, read) => SetInfo(t, out, Get(t, read))
    case Not(out, read) => WithValue(t, out, OfBool(Get(t, read).value == 0))
    case Compare(how, read, right, out) =>
        WithValue(t, out, OfBool(Compares(how, Get(t, read).value, Get(t, right).value)))
    case _ => t
  }

  /** Code for an instruction some of whose operands are known. */
  function PartialKnown(t: Table, i: Inst): seq<Residual> {
    match i
    case Assign(out, read) => [Mov(out, Get(t, read).value)]
    case Arith(op, out, read) => [ArithImm(op, out, Get(t, read).value)]
    case Compare(how, read, right, out) =>
      if Get(t, read).known then [CompareImmLeft(how, Get(t, read).value, right, out)]
      else [CompareImmRight(how, read, Get(t, right).value, out)]
    case And(out, read) => if Get(t, read).value == 0 then [Mov(out, 0)] else [AndImm(out, Get(t, read).value)]
    case Or(out, read) => if Get(t, read).value != 0 then [Mov(out, 1)] else [OrImm(out, Get(t, read).value)]
    // a jump is decided now
    case JumpIf(expected, _, read, target) => if (Get(t, read).value != 0) == expected then [Run(Jump(target))] else []
    case _ => []
  }

  /** Everything but option selects. */
  function GenSimple(t: Table, i: Inst): Made {
    var mut := MutationVar(i);
    var m := if mut.Some? && Get(t, mut.value).known && !AllInputsKnown(t, i) then Materialize(t, mut.value)
        else Made(t, []);
    if i.AssignImm? then
      var a := GenAssignImm(m.table, i.out, i.imm);
      Made(a.table, m.code + a.code)
    else if AllInputsKnown(m.table, i) && CanPrecompute(m.table, i) then Made(Precomputed(m.table, i), m.code)
    else if AnyKnown(m.table, i) then Made(m.table, m.code + PartialKnown(m.table, i))
    else Made(m.table, m.code + [Run(i)])
  }

  // ----- Option selects -----

  /** Known variables among those listed. */
  function Saved(t: Table, list: seq<nat>): seq<VarInfo> {
    if list == [] then []
    else
      var n := |list| - 1;
      Saved(t, list[..n]) + (if Get(t, list[n]).known then [VarInfo(list[n], Get(t, list[n]))] else [])
  }

  /** Moves of what the table knows of saved variables. */
  function Moves(t: Table, saved: seq<VarInfo>): seq<Residual> {
    if saved == [] then []
    else
      var n := |saved| - 1;
      Moves(t, saved[..n]) + (if Get(t, saved[n].vn).known then [Mov(saved[n].vn, Get(t, saved[n].vn).value)] else [])
  }

  function Restored(t: Table, saved: seq<VarInfo>): (r: Table)
    ensures |r| == |t|
  {
    if saved == [] then t
    else
      var n := |saved| - 1;
      SetInfo(Restored(t, saved[..n]), saved[n].vn, saved[n].info)
  }

  function Forgotten(t: Table, saved: seq<VarInfo>): (r: Table)
    ensures |r| == |t|
  {
    if saved == [] then t
    else
      var n := |saved| - 1;
      var before := Forgotten(t, saved[..n]);
      SetInfo(before, saved[n].vn, Get(before, saved[n].vn).(known := false))
  }

  /** The generator between two instructions: the table, and what the open option selects saved. */
  datatype Gen = Gen(table: Table, selects: seq<seq<VarInfo>>)

  datatype Generated = Generated(gen: Gen, code: seq<Residual>)

  function GenInst(g: Gen, lists: seq<seq<nat>>, i: Inst): Generated {
    match i
    case OptionSelectStart(list) =>
      var saved := Saved(g.table, if list < |lists| then lists[list] else []);
      Generated(Gen(g.table, g.selects + [saved]), Moves(g.table, saved))
    case OptionEnd(_) =>
      if g.selects == [] then Generated(g, [])
      else
        var saved := g.selects[|g.selects| - 1];
        Generated(g.(table := Restored(g.table, saved)), Moves(g.table, saved))
    case OptionSelectEnd =>
      if g.selects == [] then Generated(g, [])
      else Generated(Gen(Forgotten(g.table, g.selects[|g.selects| - 1]), g.selects[..|g.selects| - 1]), [])
    case _ =>
      var m := GenSimple(g.table, i);
      Generated(g.(table := m.table), m.code)
  }

  /** The whole run of the generator over a list of instructions. */
  function GenAll(g: Gen, lists: seq<seq<nat>>, insts: seq<Inst>): Generated {
    if insts == [] then Generated(g, [])
    else
      var n := |insts| - 1;
      var before := GenAll(g, lists, insts[..n]);
      var last := GenInst(before.gen, lists, insts[n]);
      Generated(last.gen, before.code + last.code)
  }

  lemma {:induction false} GenAllConcat(g: Gen, lists: seq<seq<nat>>, a: seq<Inst>, b: seq<Inst>)
    ensures var first := GenAll(g, lists, a); var second := GenAll(first.gen, lists, b);
            GenAll(g, lists, a + b) == Generated(second.gen, first.code + second.code)
    decreases |b|
  {
    hide GenInst;
    if b == [] {
      assert a + b == a;
      assert GenAll(g, lists, a).code + [] == GenAll(g, lists, a).code;
    } else {
      var n := |b| - 1;
      assert (a + b)[..|a + b| - 1] == a + b[..n];
      GenAllConcat(g, lists, a, b[..n]);
    }
  }

  // ----- Running the code that remains -----

  datatype Machine = Here(pc: nat, words: map<nat, int>) | Lost

  function FindMark(program: seq<Residual>, l: Label): (at: Option<nat>)
    ensures at.Some? ==> at.value < |program| && program[at.value] == Run(LabelAt(l))
    ensures at.None? ==> Run(LabelAt(l)) !in program
  {
    if program == [] then None
    else if program[0] == Run(LabelAt(l)) then Some(0)
    else match FindMark(program[1..], l) { case None => None case Some(k) => Some(k + 1) }
  }

  function JumpTo(program: seq<Residual>, l: Label, words: map<nat, int>): Machine {
    match FindMark(program, l)
    case None => Lost
    case Some(at) => Here(at, words)
  }

  function Next(m: Machine, out: nat, word: int): Machine
    requires m.Here?
  {
    Here(m.pc + 1, m.words[out := word])
  }

  /** An instruction with all operands at run time. */
  function RunInst(program: seq<Residual>, m: Machine, i: Inst): Machine
    requires m.Here?
  {
    var w := m.words;
    match i
    case Assign(out, read) => if read in w then Next(m, out, w[read]) else Lost
    case Arith(op, out, read) => if out in w && read in w then Next(m, out, ArithWords(op, w[out], w[read])) else Lost
    case Increment(out) => if out in w then Next(m, out, Wrap(w[out] + 1)) else Lost
    case Decrement(out) => if out in w then Next(m, out, Wrap(w[out] - 1)) else Lost
    case Compare(how, read, right, out) =>
      if read in w && right in w then Next(m, out, OfBool(Compares(how, w[read], w[right]))) else Lost
    case Not(out, read) => if read in w then Next(m, out, OfBool(w[read] == 0)) else Lost
    case And(out, read) => if out in w && read in w then Next(m, out, BitAnd(w[out], w[read])) else Lost
    case Or(out, read) => if out in w && read in w then Next(m, out, BitOr(w[out], w[read])) else Lost
    case Jump(target) => JumpTo(program, target, w)
    case JumpIf(expected, _, read, target) =>
      if read !in w then Lost
      else if (w[read] != 0) == expected then JumpTo(program, target, w)
      else Here(m.pc + 1, w)
    case LabelAt(_) => Here(m.pc + 1, w)
    case _ => Lost
  }

  function Advance(program: seq<Residual>, m: Machine): Machine {
    if m.Lost? || m.pc >= |program| then Lost
    else
      var w := m.words;
      match program[m.pc]
      case Run(i) => RunInst(program, m, i)
      case Mov(out, imm) => Next(m, out, imm)
      case ArithImm(op, out, imm) => if out in w then Next(m, out, ArithWords(op, w[out], imm)) else Lost
      case AndImm(out, imm) => if out in w then Next(m, out, BitAnd(w[out], imm)) else Lost
      case OrImm(out, imm) => if out in w then Next(m, out, BitOr(w[out], imm)) else Lost
      case CompareImmLeft(how, imm, right, out) =>
        if right in w then Next(m, out, OfBool(Compares(how, imm, w[right]))) else Lost
      case CompareImmRight(how, left, imm, out) =>
        if left in w then Next(m, out, OfBool(Compares(how, w[left], imm))) else Lost
  }

  function AdvanceBy(program: seq<Residual>, m: Machine, n: nat): Machine
    decreases n
  {
    if n == 0 then m else AdvanceBy(program, Advance(program, m), n - 1)
  }

  lemma {:induction false} AdvanceAdds(program: seq<Residual>, m: Machine, a: nat, b: nat)
    ensures AdvanceBy(program, m, a + b) == AdvanceBy(program, AdvanceBy(program, m, a), b)
    decreases a
  {
    if a > 0 {
      AdvanceAdds(program, Advance(program, m), a - 1, b);
    }
  }
}
