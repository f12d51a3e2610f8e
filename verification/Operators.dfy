/** Operators, how tightly they bind, and the trees an expression can be read as. */
module Operators {
  import opened Options

  datatype Operator =
    | ConstDeclare | Range | ArrayAccess | Declare | Lesser | LesserEqual | Greater | GreaterEqual | DoubleEqual
    | BangEqual | AssignTo | Plus | Divide | PlusEqual | MinusEqual | Dereference | Star | Minus | Dot | AddressOf
    | LogicalAnd | LogicalOr | LogicalNot

  function Precedence(op: Operator): nat {
    match op
    case Dot => 0
    case ArrayAccess => 0
    case Dereference => 5
    case AddressOf => 5
    case Star => 10
    case Divide => 10
    case Plus => 20
    case Minus => 20
    case LogicalNot => 25
    case Lesser => 30
    case LesserEqual => 30
    case Greater => 30
    case GreaterEqual => 30
    case DoubleEqual => 30
    case BangEqual => 30
    case LogicalAnd => 40
    case LogicalOr => 40
    case Range => 90
    case PlusEqual => 100
    case MinusEqual => 100
    case AssignTo => 100
    case Declare => 100
    case ConstDeclare => 100
  }

  predicate IsUnary(op: Operator) {
    op == Dereference || op == AddressOf || op == LogicalNot
  }

  /** An operator and the index of its token. */
  datatype OpToken = OpToken(index: nat, op: Operator)

  /** The order in which the heap gives operators back. */
  predicate Less(a: OpToken, b: OpToken) {
    if Precedence(a.op) == Precedence(b.op) then
      if IsUnary(a.op) then a.index > b.index else a.index < b.index
    else Precedence(a.op) < Precedence(b.op)
  }

  /** What the parser makes. Calls and procedure expressions are parsed before the operators around them. */
  datatype Node =
    | Leaf(text: string)
    | Call(callee: string, args: seq<Node>)
    | Unary(op: Operator, right: Node)
    | Binary(op: Operator, left: Node, right: Node)

  /** A piece of a line from token lo to token hi. Brackets and calls are operands as a whole; [ ] together with
      what is in it follows its operand. */
  datatype Item =
    | Operand(node: Node, lo: nat, hi: nat)
    | Prefix(op: Operator, lo: nat)
    | Infix(op: Operator, lo: nat)
    | Index(node: Node, lo: nat, last: nat)
    | Junk(lo: nat, upTo: nat)
  {
    function End(): nat {
      match this
      case Operand(_, _, hi) => hi
      case Index(_, _, last) => last
      case Junk(_, upTo) => upTo
      case _ => lo
    }

    predicate IsOp() { Prefix? || Infix? || Index? }

    function Tok(): OpToken
      requires IsOp()
    {
      OpToken(lo, if Index? then ArrayAccess else op)
    }
  }

  /** Operator signs that the constructors above tell apart really are of that kind. */
  predicate Proper(item: Item) {
    match item
    case Operand(_, lo, hi) => lo <= hi
    case Prefix(op, _) => IsUnary(op)
    case Infix(op, _) => !IsUnary(op) && op != ArrayAccess
    case Index(_, lo, last) => lo < last
    case Junk(lo, upTo) => lo <= upTo
  }

  /** The items follow one another without gaps. */
  predicate Line(items: seq<Item>) {
    && (forall k :: 0 <= k < |items| ==> Proper(items[k]))
    && (forall k :: 0 <= k < |items| - 1 ==> items[k + 1].lo == items[k].End() + 1)
  }

  // ----- Splitting at the loosest operator -----

  /** The position of the operator that the heap would give back last. */
  function Loosest(items: seq<Item>): (at: Option<nat>)
    ensures at.Some? ==> at.value < |items| && items[at.value].IsOp()
  {
    if items == [] then None
    else
      var n := |items| - 1;
      match Loosest(items[..n])
      case None => if items[n].IsOp() then Some(n) else None
      case Some(k) => if items[n].IsOp() && Less(items[k].Tok(), items[n].Tok()) then Some(n) else Some(k)
  }

  /** An expression tree that remembers where its tokens are. */
  datatype Placed =
    | Atom(item: Item)
    | Before(item: Item, arg: Placed)
    | Between(item: Item, left: Placed, right: Placed)
    | After(item: Item, left: Placed)

  function NodeOf(t: Placed): Node {
    match t
    case Atom(item) => if item.Operand? then item.node else Leaf("")
    case Before(item, arg) => Unary(if item.Prefix? then item.op else LogicalNot, NodeOf(arg))
    case Between(item, l, r) => Binary(if item.Infix? then item.op else Plus, NodeOf(l), NodeOf(r))
    case After(item, l) => Binary(ArrayAccess, NodeOf(l), if item.Index? then item.node else Leaf(""))
  }

  function Split(items: seq<Item>): Option<Placed> {
    if |items| == 1 && items[0].Operand? then Some(Atom(items[0]))
    else
      match Loosest(items)
      case None => None
      case Some(k) =>
        if items[k].Prefix? then
          if k > 0 then None
          else match Split(items[1..]) { case None => None case Some(t) => Some(Before(items[0], t)) }
        else if items[k].Index? then
          if k < |items| - 1 then None
          else match Split(items[..k]) { case None => None case Some(t) => Some(After(items[k], t)) }
        else
          match Split(items[..k])
          case None => None
          case Some(l) =>
              match Split(items[k + 1..]) { case None => None case Some(r) => Some(Between(items[k], l, r)) }
  }

  // ----- What makes a tree the right one -----

  function InOrder(t: Placed): (items: seq<Item>)
    ensures items != []
  {
    match t
    case Atom(item) => [item]
    case Before(item, arg) => [item] + InOrder(arg)
    case Between(item, l, r) => InOrder(l) + [item] + InOrder(r)
    case After(item, l) => InOrder(l) + [item]
  }

  /** No operator of the tree binds looser than the bound, or just as loose if `strict`. */
  predicate Tighter(t: Placed, bound: nat, strict: bool) {
    match t
    case Atom(_) => true
    case Before(item, arg) => item.Prefix? && Binds(item.op, bound, strict) && Tighter(arg, bound, strict)
    case Between(item, l, r) =>
        item.Infix? && Binds(item.op, bound, strict) && Tighter(l, bound, strict) && Tighter(r, bound, strict)
    case After(item, l) => item.Index? && Binds(ArrayAccess, bound, strict) && Tighter(l, bound, strict)
  }

  predicate Binds(op: Operator, bound: nat, strict: bool) {
    Precedence(op) < bound || (Precedence(op) == bound && !strict)
  }

  /** Operators under an operator bind tighter; on the left of a binary one, or under a prefix one, equally tight
      will do: binary operators associate to the left and prefix operators nest to the right. */
  predicate Respects(t: Placed) {
    match t
    case Atom(item) => item.Operand?
    case Before(item, arg) => item.Prefix? && Tighter(arg, Precedence(item.op), false) && Respects(arg)
    case Between(item, l, r) =>
      item.Infix? && Tighter(l, Precedence(item.op), false) && Tighter(r, Precedence(item.op), true) && Respects(l)
          && Respects(r)
    case After(item, l) => item.Index? && Tighter(l, Precedence(ArrayAccess), false) && Respects(l)
  }

  // ----- Which sequences are expressions -----

  predicate EndsOperand(item: Item) { item.Operand? || item.Index? }

  predicate StartsOperand(item: Item) { item.Operand? || item.Prefix? }

  predicate Follows(a: Item, b: Item) {
    if EndsOperand(a) then b.Infix? || b.Index? else a.IsOp() && StartsOperand(b)
  }

  /** Operands and operators take turns. */
  predicate Grammatical(items: seq<Item>) {
    && items != [] && StartsOperand(items[0]) && EndsOperand(items[|items| - 1])
    && forall k :: 0 <= k < |items| - 1 ==> Follows(items[k], items[k + 1])
  }

  /** A prefix operator comes before the operator in front of it. */
  predicate PrefixFits(a: Item, b: Item) {
    b.Prefix? && a.IsOp() ==> Less(b.Tok(), a.Tok())
  }

  predicate PrefixesFit(items: seq<Item>) {
    forall k :: 0 <= k < |items| - 1 ==> PrefixFits(items[k], items[k + 1])
  }
}
