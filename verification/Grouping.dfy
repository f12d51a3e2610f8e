/** Which operator binds tighter than which, and how expressions group by that. */
module Grouping {
  import opened Options
  import opened Operators
  import opened Splitting

  /** Classes of operators, the tightest first; the prefix ones are classes of their own. */
  const CLASSES: seq<seq<Operator>> := [
    [Dot, ArrayAccess],
    [Dereference, AddressOf],
    [Star, Divide],
    [Plus, Minus],
    [LogicalNot],
    [Lesser, LesserEqual, Greater, GreaterEqual, DoubleEqual, BangEqual],
    [LogicalAnd, LogicalOr],
    [Range],
    [AssignTo, PlusEqual, MinusEqual, Declare, ConstDeclare]]

  const PREFIXES: set<Operator> := {Dereference, AddressOf, LogicalNot}

  predicate InClass(op: Operator, k: nat) {
    k < |CLASSES| && op in CLASSES[k]
  }

  /** Every operator is in one class. */
  lemma OneClass(op: Operator, j: nat, k: nat)
    ensures exists i :: InClass(op, i)
    ensures InClass(op, j) && InClass(op, k) ==> j == k
  {
    var i := ClassOf(op);
    assert InClass(op, i);
    ClassIsOnly(op, j);
    ClassIsOnly(op, k);
  }

  function ClassOf(op: Operator): nat {
    match op
    case Dot => 0
    case ArrayAccess => 0
    case Dereference => 1
    case AddressOf => 1
    case Star => 2
    case Divide => 2
    case Plus => 3
    case Minus => 3
    case LogicalNot => 4
    case LogicalAnd => 6
    case LogicalOr => 6
    case Range => 7
    case AssignTo => 8
    case PlusEqual => 8
    case MinusEqual => 8
    case Declare => 8
    case ConstDeclare => 8
    case _ => 5
  }

  lemma ClassIsOnly(op: Operator, k: nat)
    ensures InClass(op, k) <==> k == ClassOf(op)
  {
    assert CLASSES[0] == [Dot, ArrayAccess] && CLASSES[1] == [Dereference, AddressOf] && CLASSES[2] == [Star, Divide];
    assert CLASSES[3] == [Plus, Minus] && CLASSES[4] == [LogicalNot] && CLASSES[6] == [LogicalAnd, LogicalOr];
    assert CLASSES[5] == [Lesser, LesserEqual, Greater, GreaterEqual, DoubleEqual, BangEqual];
    assert CLASSES[7] == [Range] && CLASSES[8] == [AssignTo, PlusEqual, MinusEqual, Declare, ConstDeclare];
    if k < |CLASSES| {
      MembersOf(CLASSES[k], op);
    }
  }

  lemma MembersOf(ops: seq<Operator>, op: Operator)
    ensures op in ops <==> exists i :: 0 <= i < |ops| && ops[i] == op
  {
  }

  /** The heap gives back operators of an earlier class first; of one class, binary ones from the left and prefix ones
      from the right. */
  lemma ClassesDecide(a: OpToken, b: OpToken, j: nat, k: nat)
    requires InClass(a.op, j) && InClass(b.op, k)
    ensures j < k ==> Less(a, b) && !Less(b, a)
    ensures j == k && a.op !in PREFIXES ==> b.op !in PREFIXES && (Less(a, b) <==> a.index < b.index)
    ensures j == k && a.op in PREFIXES ==> b.op in PREFIXES && (Less(a, b) <==> a.index > b.index)
  {
    ClassIsOnly(a.op, j);
    ClassIsOnly(b.op, k);
    ClassPrecedes(a.op, b.op);
  }

  lemma ClassPrecedes(a: Operator, b: Operator)
    ensures ClassOf(a) < ClassOf(b) <==> Precedence(a) < Precedence(b)
    ensures IsUnary(a) <==> a in PREFIXES
    ensures ClassOf(a) == ClassOf(b) ==> IsUnary(a) == IsUnary(b)
  {
  }

  // ----- Any expression -----

  /** The root of the tree that splitting finds is of the loosest class there is: of a binary class the rightmost of it,
      of a prefix class the leftmost. Its operands are what is on either side of it. */
  lemma RootIsLoosestClass(items: seq<Item>, k: nat, i: nat, j: nat, l: nat)
    requires Line(items) && Loosest(items) == Some(k) && i < |items| && items[i].IsOp() && i != k
    requires InClass(items[i].Tok().op, j) && InClass(items[k].Tok().op, l)
    ensures j <= l && (j == l ==> if items[k].Tok().op in PREFIXES then k < i else i < k)
  {
    hide InClass;
    LoosestIsLast(items);
    LineSorted(items, if i < k then i else k, if i < k then k else i);
    assert Less(items[i].Tok(), items[k].Tok());
    if l < j {
      ClassesDecide(items[k].Tok(), items[i].Tok(), l, j);
    } else {
      ClassesDecide(items[i].Tok(), items[k].Tok(), j, l);
    }
  }

  /** A tree in which operators are on the right side of each other by class is the one that splitting finds. */
  lemma TreeFound(items: seq<Item>, t: Placed)
    requires Line(items) && InOrder(t) == items && Respects(t)
    ensures Split(items) == Some(t)
  {
    OnlyOneTree(items, t);
  }

  // ----- Two operators -----

  lemma SmallTrees(x: Item, a: Item, y: Item)
    ensures InOrder(Atom(x)) == [x] && InOrder(Atom(y)) == [y] && InOrder(Between(a, Atom(x), Atom(y))) == [x, a, y]
    ensures InOrder(Before(a, Atom(x))) == [a, x] && InOrder(After(a, Atom(x))) == [x, a]
  {
    assert InOrder(Atom(x)) == [x] && InOrder(Atom(y)) == [y];
  }

  /** x a y b z: the tighter of two binary operators groups first, and of one class the left one. */
  lemma BinaryBinary(x: Item, a: Item, y: Item, b: Item, z: Item, j: nat, k: nat)
    requires Line([x, a, y, b, z]) && x.Operand? && y.Operand? && z.Operand? && a.Infix? && b.Infix?
    requires InClass(a.op, j) && InClass(b.op, k)
    ensures Split([x, a, y, b, z]) == Some(
      if j <= k then Between(b, Between(a, Atom(x), Atom(y)), Atom(z))
      else Between(a, Atom(x), Between(b, Atom(y), Atom(z))))
  {
    hide InClass, Precedence, IsUnary, Line;
    ClassIsOnly(a.op, j);
    ClassIsOnly(b.op, k);
    ClassPrecedes(a.op, b.op);
    ClassPrecedes(b.op, a.op);
    var t := if j <= k then Between(b, Between(a, Atom(x), Atom(y)), Atom(z))
             else Between(a, Atom(x), Between(b, Atom(y), Atom(z)));
    SmallTrees(x, a, y);
    SmallTrees(y, b, z);
    assert InOrder(t) == [x, a, y, b, z];
    TreeFound([x, a, y, b, z], t);
  }

  /** p x b z: a prefix operator takes its operand alone if it binds tighter, and all that follows if not. */
  lemma PrefixBinary(p: Item, x: Item, b: Item, z: Item, j: nat, k: nat)
    requires Line([p, x, b, z]) && p.Prefix? && x.Operand? && b.Infix? && z.Operand?
    requires InClass(p.op, j) && InClass(b.op, k)
    ensures Split([p, x, b, z]) == Some(
      if j < k then Between(b, Before(p, Atom(x)), Atom(z)) else Before(p, Between(b, Atom(x), Atom(z))))
  {
    hide InClass, Precedence, IsUnary, Line;
    KindsOf([p, x, b, z], p, 0);
    KindsOf([p, x, b, z], b, 2);
    ClassIsOnly(p.op, j);
    ClassIsOnly(b.op, k);
    ClassPrecedes(p.op, b.op);
    ClassPrecedes(b.op, p.op);
    var t := if j < k then Between(b, Before(p, Atom(x)), Atom(z)) else Before(p, Between(b, Atom(x), Atom(z)));
    SmallTrees(x, p, x);
    SmallTrees(x, b, z);
    assert InOrder(t) == [p, x, b, z];
    TreeFound([p, x, b, z], t);
  }

  lemma KindsOf(items: seq<Item>, item: Item, i: nat)
    requires Line(items) && i < |items| && items[i] == item
    ensures item.Prefix? ==> IsUnary(item.op)
    ensures item.Infix? ==> !IsUnary(item.op)
  {
    assert Proper(items[i]);
  }

  /** x b p z: behind a binary operator a prefix operator must bind tighter; otherwise there is no tree. */
  lemma BinaryPrefix(x: Item, b: Item, p: Item, z: Item, j: nat, k: nat)
    requires Line([x, b, p, z]) && x.Operand? && b.Infix? && p.Prefix? && z.Operand?
    requires InClass(b.op, j) && InClass(p.op, k)
    ensures Split([x, b, p, z]) == if k < j then Some(Between(b, Atom(x), Before(p, Atom(z)))) else None
  {
    hide InClass, Precedence, IsUnary, Line;
    var items := [x, b, p, z];
    KindsOf(items, b, 1);
    KindsOf(items, p, 2);
    ClassIsOnly(b.op, j);
    ClassIsOnly(p.op, k);
    ClassPrecedes(p.op, b.op);
    ClassPrecedes(b.op, p.op);
    if k < j {
      var t := Between(b, Atom(x), Before(p, Atom(z)));
      SmallTrees(z, p, x);
      assert InOrder(t) == items;
      TreeFound(items, t);
    } else {
      SplitsExactly(items);
      assert !PrefixFits(items[1], items[1 + 1]);
    }
  }

  /** p q x: the second of two prefix operators must not bind looser. */
  lemma PrefixPrefix(p: Item, q: Item, x: Item, j: nat, k: nat)
    requires Line([p, q, x]) && p.Prefix? && q.Prefix? && x.Operand? && InClass(p.op, j) && InClass(q.op, k)
    ensures Split([p, q, x]) == if k <= j then Some(Before(p, Before(q, Atom(x)))) else None
  {
    hide InClass, Precedence, IsUnary, Line;
    var items := [p, q, x];
    KindsOf(items, p, 0);
    KindsOf(items, q, 1);
    ClassIsOnly(p.op, j);
    ClassIsOnly(q.op, k);
    ClassPrecedes(p.op, q.op);
    ClassPrecedes(q.op, p.op);
    if k <= j {
      var t := Before(p, Before(q, Atom(x)));
      SmallTrees(x, q, x);
      assert InOrder(t) == items;
      TreeFound(items, t);
    } else {
      SplitsExactly(items);
      assert !PrefixFits(items[0], items[0 + 1]);
    }
  }

  /** x b y [i]: indexing takes the operand before it alone, but for a member access, which comes first. */
  lemma BinaryIndex(x: Item, b: Item, y: Item, i: Item)
    requires Line([x, b, y, i]) && x.Operand? && b.Infix? && y.Operand? && i.Index?
    ensures Split([x, b, y, i]) == Some(
      if b.op == Dot then After(i, Between(b, Atom(x), Atom(y))) else Between(b, Atom(x), After(i, Atom(y))))
  {
    hide InClass, Precedence, IsUnary, Line;
    var items := [x, b, y, i];
    InfixIsNoIndex(items, 1);
    ClassPrecedes(b.op, ArrayAccess);
    ClassPrecedes(ArrayAccess, b.op);
    var t := if b.op == Dot then After(i, Between(b, Atom(x), Atom(y))) else Between(b, Atom(x), After(i, Atom(y)));
    SmallTrees(x, b, y);
    SmallTrees(y, i, x);
    assert InOrder(t) == items;
    TreeFound(items, t);
  }

  lemma InfixIsNoIndex(items: seq<Item>, k: nat)
    requires Line(items) && k < |items| && items[k].Infix?
    ensures items[k].op != ArrayAccess
  {
    assert Proper(items[k]);
  }

  /** p x [i]: indexing comes before every prefix operator. */
  lemma PrefixIndex(p: Item, x: Item, i: Item)
    requires Line([p, x, i]) && p.Prefix? && x.Operand? && i.Index?
    ensures Split([p, x, i]) == Some(Before(p, After(i, Atom(x))))
  {
    hide InClass, Precedence, IsUnary, Line;
    var items, t := [p, x, i], Before(p, After(i, Atom(x)));
    KindsOf(items, p, 0);
    ClassPrecedes(p.op, p.op);
    ClassPrecedes(ArrayAccess, p.op);
    SmallTrees(x, i, x);
    assert InOrder(t) == items;
    TreeFound(items, t);
  }
}
