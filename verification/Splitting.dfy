/** Splitting at the loosest operator finds the one tree there is. */
module Splitting {
  import opened Options
  import opened Operators

  lemma {:induction false} LineSorted(items: seq<Item>, i: nat, j: nat)
    requires Line(items) && i < j < |items|
    ensures items[i].lo < items[j].lo && items[i].End() < items[j].lo
    decreases j
  {
    if j > i + 1 {
      LineSorted(items, i, j - 1);
    }
    assert Proper(items[j - 1]) && Proper(items[i]);
    assert items[j - 1 + 1].lo == items[j - 1].End() + 1;
  }

  lemma PartOfLine(items: seq<Item>, a: nat, b: nat)
    requires Line(items) && a <= b <= |items|
    ensures Line(items[a..b])
  {
    var part := items[a..b];
    forall k | 0 <= k < |part| - 1 ensures part[k + 1].lo == part[k].End() + 1 {
      assert part[k + 1] == items[a + k + 1] && part[k] == items[a + k];
    }
  }

  /** The loosest operator is the one that every other comes before. */
  lemma {:induction false} LoosestIsLast(items: seq<Item>)
    requires Line(items)
    ensures Loosest(items).None? ==> forall j :: 0 <= j < |items| ==> !items[j].IsOp()
    ensures Loosest(items).Some? ==> forall j :: 0 <= j < |items| && items[j].IsOp() && j != Loosest(items).value ==>
              Less(items[j].Tok(), items[Loosest(items).value].Tok())
  {
    if items != [] {
      var n := |items| - 1;
      PartOfLine(items, 0, n);
      LoosestIsLast(items[..n]);
      var before := Loosest(items[..n]);
      if before.Some? && items[n].IsOp() {
        LineSorted(items, before.value, n);
        LessTotal(items[before.value].Tok(), items[n].Tok());
        forall j | 0 <= j < n && items[j].IsOp() && j != before.value
            ensures Less(items[j].Tok(), items[before.value].Tok()) {
          assert items[..n][j] == items[j];
        }
        forall j | 0 <= j < n && items[j].IsOp() && Less(items[before.value].Tok(), items[n].Tok())
          ensures Less(items[j].Tok(), items[n].Tok())
        {
          if j != before.value {
            LessTransitive(items[j].Tok(), items[before.value].Tok(), items[n].Tok());
          }
        }
      } else {
        assert forall j :: 0 <= j < n ==> items[..n][j] == items[j];
      }
    }
  }

  lemma LessTotal(a: OpToken, b: OpToken)
    requires a.index != b.index
    ensures Less(a, b) <==> !Less(b, a)
  {
    SameKind(a.op, b.op);
  }

  lemma LessTransitive(a: OpToken, b: OpToken, c: OpToken)
    requires Less(a, b) && Less(b, c)
    ensures Less(a, c)
  {
    SameKind(a.op, b.op);
    SameKind(b.op, c.op);
  }

  /** Prefix and binary operators never bind equally tight. */
  lemma SameKind(a: Operator, b: Operator)
    ensures Precedence(a) == Precedence(b) ==> IsUnary(a) == IsUnary(b)
  {
  }

  lemma LoosestUnique(items: seq<Item>, k: nat)
    requires Line(items) && k < |items| && items[k].IsOp()
    requires forall j :: 0 <= j < |items| && items[j].IsOp() && j != k ==> Less(items[j].Tok(), items[k].Tok())
    ensures Loosest(items) == Some(k)
  {
    LoosestIsLast(items);
    var l := Loosest(items).value;
    if l != k {
      LineSorted(items, if l < k then l else k, if l < k then k else l);
      LessTotal(items[l].Tok(), items[k].Tok());
    }
  }

  lemma {:induction false} TighterByItems(t: Placed, bound: nat, strict: bool)
    requires Respects(t)
    ensures Tighter(t, bound, strict) <==>
            forall i :: i in InOrder(t) && i.IsOp() ==> Binds(i.Tok().op, bound, strict)
  {
    match t
    case Atom(_) =>
    case Before(item, arg) =>
      TighterByItems(arg, bound, strict);
      assert item in InOrder(t);
    case Between(item, l, r) =>
      TighterByItems(l, bound, strict);
      TighterByItems(r, bound, strict);
      assert item in InOrder(t);
    case After(item, l) =>
      TighterByItems(l, bound, strict);
      assert item in InOrder(t);
  }

  lemma Reading(items: seq<Item>, k: nat)
    requires k < |items|
    ensures items == items[..k] + [items[k]] + items[k + 1..]
    ensures k == |items| - 1 ==> items == items[..k] + [items[k]]
  {
  }

  lemma SplitAt(items: seq<Item>, k: nat)
    requires Split(items).Some? && !(|items| == 1 && items[0].Operand?) && Loosest(items) == Some(k)
    ensures var l, r, t := Split(items[..k]), Split(items[k + 1..]), Split(items).value;
      if items[k].Prefix? then k == 0 && r.Some? && t == Before(items[k], r.value)
      else if items[k].Index? then k == |items| - 1 && l.Some? && t == After(items[k], l.value)
      else l.Some? && r.Some? && t == Between(items[k], l.value, r.value)
  {
  }

  /** What splitting finds reads as the sequence it was given, and respects how tightly the operators bind. */
  lemma {:induction false} SplitReads(items: seq<Item>)
    requires Line(items) && Split(items).Some?
    ensures InOrder(Split(items).value) == items && Respects(Split(items).value)
    decreases |items|
  {
    hide Less, Precedence, Binds, Tighter, Line, Split, Loosest;
    if |items| == 1 && items[0].Operand? {
      SplitOperand(items);
      return;
    }
    var k := SplitsSomewhere(items);
    var root := items[k];
    var bound := Precedence(root.Tok().op);
    SplitAt(items, k);
    LoosestIsLast(items);
    PartOfLine(items, 0, k);
    PartOfLine(items, k + 1, |items|);
    OthersBind(items, k);
    assert items[0..k] == items[..k] && items[k + 1..|items|] == items[k + 1..];
    Reading(items, k);
    if !root.Prefix? {
      SplitReads(items[..k]);
      ChildBinds(items, 0, k, Split(items[..k]).value, bound, false);
    }
    if !root.Index? {
      SplitReads(items[k + 1..]);
      ChildBinds(items, k + 1, |items|, Split(items[k + 1..]).value, bound, !root.Prefix?);
    }
  }

  lemma SplitOperand(items: seq<Item>)
    requires |items| == 1 && items[0].Operand?
    ensures Split(items) == Some(Atom(items[0]))
  {
  }

  lemma SplitsSomewhere(items: seq<Item>) returns (k: nat)
    requires Split(items).Some? && !(|items| == 1 && items[0].Operand?)
    ensures Loosest(items) == Some(k) && k < |items| && items[k].IsOp()
  {
    k := Loosest(items).value;
  }

  lemma OthersBind(items: seq<Item>, k: nat)
    requires Line(items) && k < |items| && items[k].IsOp()
    requires forall j :: 0 <= j < |items| && items[j].IsOp() && j != k ==> Less(items[j].Tok(), items[k].Tok())
    ensures forall j :: 0 <= j < |items| && items[j].IsOp() && j != k ==>
              Binds(items[j].Tok().op, Precedence(items[k].Tok().op), j > k && !items[k].Prefix?)
  {
    assert Proper(items[k]);
    forall j | 0 <= j < |items| && items[j].IsOp() && j != k
      ensures Binds(items[j].Tok().op, Precedence(items[k].Tok().op), j > k && !items[k].Prefix?)
    {
      LineSorted(items, if j < k then j else k, if j < k then k else j);
      SameKind(items[j].Tok().op, items[k].Tok().op);
    }
  }

  lemma ChildBinds(items: seq<Item>, a: nat, b: nat, t: Placed, bound: nat, strict: bool)
    requires a <= b <= |items| && Respects(t) && InOrder(t) == items[a..b]
    requires forall j :: a <= j < b && items[j].IsOp() ==> Binds(items[j].Tok().op, bound, strict)
    ensures Tighter(t, bound, strict)
  {
    TighterByItems(t, bound, strict);
  }

  lemma SplitInto(items: seq<Item>, k: nat, l: Option<Placed>, r: Option<Placed>)
    requires k < |items| && items[k].IsOp() && Loosest(items) == Some(k)
    requires items[k].Prefix? ==> k == 0 && Split(items[1..]) == r && r.Some?
    requires items[k].Index? ==> k == |items| - 1 && Split(items[..k]) == l && l.Some?
    requires items[k].Infix? ==> Split(items[..k]) == l && l.Some? && Split(items[k + 1..]) == r && r.Some?
    ensures items[k].Prefix? ==> Split(items) == Some(Before(items[k], r.value))
    ensures items[k].Index? ==> Split(items) == Some(After(items[k], l.value))
    ensures items[k].Infix? ==> Split(items) == Some(Between(items[k], l.value, r.value))
  {
  }

  /** No other tree does. */
  lemma {:induction false} OnlyOneTree(items: seq<Item>, t: Placed)
    requires Line(items) && InOrder(t) == items && Respects(t)
    ensures Split(items) == Some(t)
    decreases t
  {
    hide Less, Precedence, Tighter, Line, Loosest, Split;
    if t.Atom? {
      SplitOperand(items);
      return;
    }
    var k := if t.Before? then 0 else |InOrder(t.left)|;
    RootIsLoosest(items, t, k);
    PartOfLine(items, 0, k);
    PartOfLine(items, k + 1, |items|);
    assert items[0..k] == items[..k] && items[k + 1..|items|] == items[k + 1..];
    match t
    case Atom(_) =>
    case Before(item, arg) =>
      assert items[1..] == InOrder(arg);
      OnlyOneTree(items[1..], arg);
      SplitInto(items, k, None, Some(arg));
    case Between(item, l, r) =>
      assert items[..k] == InOrder(l) && items[k + 1..] == InOrder(r);
      OnlyOneTree(items[..k], l);
      OnlyOneTree(items[k + 1..], r);
      SplitInto(items, k, Some(l), Some(r));
    case After(item, l) =>
      assert items[..k] == InOrder(l);
      OnlyOneTree(items[..k], l);
      SplitInto(items, k, Some(l), None);
  }

  lemma RootIsLoosest(items: seq<Item>, t: Placed, k: nat)
    requires Line(items) && InOrder(t) == items && Respects(t) && !t.Atom?
    requires k == if t.Before? then 0 else |InOrder(t.left)|
    ensures Loosest(items) == Some(k) && items[k] == t.item
  {
    var root := t.item;
    forall j | 0 <= j < |items| && items[j].IsOp() && j != k ensures Less(items[j].Tok(), root.Tok()) {
      LineSorted(items, if j < k then j else k, if j < k then k else j);
      assert Proper(items[j]) && Proper(items[k]);
      if j < k {
        assert items[j] == InOrder(t.left)[j];
        TighterByItems(t.left, Precedence(root.Tok().op), false);
      } else if t.Before? {
        assert items[j] == InOrder(t.arg)[j - 1];
        TighterByItems(t.arg, Precedence(root.op), false);
      } else {
        assert items[j] == InOrder(t.right)[j - k - 1];
        TighterByItems(t.right, Precedence(root.Tok().op), true);
      }
      SameKind(items[j].Tok().op, root.Tok().op);
    }
    LoosestUnique(items, k);
  }

  /** Which sequences are expressions: those where operands and operators take turns and every prefix operator comes
      first or after a looser operator. */
  lemma {:induction false} SplitsExactly(items: seq<Item>)
    requires Line(items)
    ensures Split(items).Some? <==> Grammatical(items) && PrefixesFit(items)
    decreases |items|
  {
    LoosestIsLast(items);
    if |items| == 1 && items[0].Operand? {
    } else if Loosest(items).None? {
      assert Grammatical(items) ==> items[0].Operand? && |items| > 1 && !items[0 + 1].IsOp();
    } else {
      var k := Loosest(items).value;
      PartOfLine(items, 0, k);
      PartOfLine(items, k + 1, |items|);
      assert items[0..k] == items[..k] && items[k + 1..|items|] == items[k + 1..];
      if !items[k].Prefix? { SplitsExactly(items[..k]); }
      if !items[k].Index? { SplitsExactly(items[k + 1..]); }
      PartsOfSentence(items, k);
    }
  }

  /** A sentence around its loosest operator. */
  lemma PartsOfSentence(items: seq<Item>, k: nat)
    requires Line(items) && k < |items| && items[k].IsOp()
    requires forall j :: 0 <= j < |items| && items[j].IsOp() && j != k ==> Less(items[j].Tok(), items[k].Tok())
    ensures var l, r := items[..k], items[k + 1..];
      Grammatical(items) && PrefixesFit(items) <==>
        && (if items[k].Prefix? then k == 0 else Grammatical(l) && PrefixesFit(l))
        && (if items[k].Index? then k == |items| - 1 else Grammatical(r) && PrefixesFit(r))
  {
    var l, r := items[..k], items[k + 1..];
    if Grammatical(items) && PrefixesFit(items) {
      SentenceParts(items, k);
    }
    if (if items[k].Prefix? then k == 0 else Grammatical(l) && PrefixesFit(l))
      && (if items[k].Index? then k == |items| - 1 else Grammatical(r) && PrefixesFit(r)) {
      PartsMakeSentence(items, k);
    }
  }

  lemma IndexComesFirst(items: seq<Item>, k: nat)
    requires Line(items) && k < |items| - 1 && items[k].Index? && (items[k + 1].Infix? || items[k + 1].Index?)
    ensures !Less(items[k + 1].Tok(), items[k].Tok())
  {
    assert Proper(items[k + 1]);
    LineSorted(items, k, k + 1);
  }

  lemma SentenceParts(items: seq<Item>, k: nat)
    requires Line(items) && k < |items| && items[k].IsOp() && Grammatical(items) && PrefixesFit(items)
    requires forall j :: 0 <= j < |items| && items[j].IsOp() && j != k ==> Less(items[j].Tok(), items[k].Tok())
    ensures if items[k].Prefix? then k == 0 else Grammatical(items[..k]) && PrefixesFit(items[..k])
    ensures if items[k].Index? then k == |items| - 1 else Grammatical(items[k + 1..]) && PrefixesFit(items[k + 1..])
  {
    hide Less;
    var l, r := items[..k], items[k + 1..];
    assert k > 0 ==> Follows(items[k - 1], items[k - 1 + 1]) && PrefixFits(items[k - 1], items[k - 1 + 1]);
    assert k < |items| - 1 ==> Follows(items[k], items[k + 1]);
    if items[k].Index? && k < |items| - 1 {
      IndexComesFirst(items, k);
    }
    if items[k].Prefix? && k > 0 {
      LineSorted(items, k - 1, k);
      LessTotal(items[k - 1].Tok(), items[k].Tok());
    }
    forall j | 0 <= j < |l| - 1 ensures Follows(l[j], l[j + 1]) && PrefixFits(l[j], l[j + 1]) {
      assert Follows(items[j], items[j + 1]);
    }
    forall j | 0 <= j < |r| - 1 ensures Follows(r[j], r[j + 1]) && PrefixFits(r[j], r[j + 1]) {
      assert Follows(items[k + 1 + j], items[k + 1 + j + 1]);
    }
  }

  lemma PartsMakeSentence(items: seq<Item>, k: nat)
    requires Line(items) && k < |items| && items[k].IsOp()
    requires forall j :: 0 <= j < |items| && items[j].IsOp() && j != k ==> Less(items[j].Tok(), items[k].Tok())
    requires if items[k].Prefix? then k == 0 else Grammatical(items[..k]) && PrefixesFit(items[..k])
    requires if items[k].Index? then k == |items| - 1 else Grammatical(items[k + 1..]) && PrefixesFit(items[k + 1..])
    ensures Grammatical(items) && PrefixesFit(items)
  {
    hide Less;
    var l, r := items[..k], items[k + 1..];
    forall j | 0 <= j < |items| - 1 ensures Follows(items[j], items[j + 1]) && PrefixFits(items[j], items[j + 1]) {
      if j + 1 < k {
        assert Follows(l[j], l[j + 1]);
      } else if j + 1 == k {
        assert l[k - 1] == items[j];
      } else if j == k {
        assert r[0] == items[k + 1];
      } else {
        assert Follows(r[j - k - 1], r[j - k - 1 + 1]);
      }
    }
  }

  // ----- What a node spells -----

  /** A node, read from left to right, is the sequence: an operand by itself, a prefix operator before its argument, a
      binary operator between its left and its right argument, an index after what is indexed. */
  ghost predicate Spells(n: Node, items: seq<Item>) {
    || (|items| == 1 && items[0].Operand? && items[0].node == n)
    || match n
       case Unary(op, arg) => |items| > 1 && items[0].Prefix? && items[0].op == op && Spells(arg, items[1..])
       case Binary(op, l, r) =>
         || (exists k :: 0 < k < |items| && InfixAt(items, k, op) && Spells(l, items[..k]) && Spells(r, items[k + 1..]))
         || (op == ArrayAccess && |items| > 1 && IndexLast(items, r) && Spells(l, items[..|items| - 1]))
       case _ => false
  }

  predicate InfixAt(items: seq<Item>, k: nat, op: Operator)
    requires k < |items|
  {
    items[k].Infix? && items[k].op == op
  }

  predicate IndexLast(items: seq<Item>, n: Node)
    requires items != []
  {
    var last := items[|items| - 1];
    last.Index? && last.node == n
  }

  lemma BinarySpells(op: Operator, lo: nat, l: Node, before: seq<Item>, r: Node, after: seq<Item>)
    requires before != [] && Spells(l, before) && Spells(r, after)
    ensures Spells(Binary(op, l, r), before + [Infix(op, lo)] + after)
  {
    var items, k := before + [Infix(op, lo)] + after, |before|;
    assert InfixAt(items, k, op) && items[..k] == before && items[k + 1..] == after;
  }

  lemma IndexSpells(last: Item, l: Node, before: seq<Item>)
    requires before != [] && Spells(l, before) && last.Index?
    ensures Spells(Binary(ArrayAccess, l, last.node), before + [last])
  {
    var items := before + [last];
    assert IndexLast(items, last.node) && items[..|items| - 1] == before;
  }

  lemma {:induction false} NodeSpells(t: Placed)
    requires Respects(t)
    ensures Spells(NodeOf(t), InOrder(t)) && InOrder(t) != []
  {
    hide Tighter, Precedence;
    match t
    case Atom(_) =>
    case Before(item, arg) =>
      NodeSpells(arg);
      assert InOrder(t)[1..] == InOrder(arg);
    case Between(item, l, r) =>
      hide Spells;
      NodeSpells(l);
      NodeSpells(r);
      BinarySpells(item.op, item.lo, NodeOf(l), InOrder(l), NodeOf(r), InOrder(r));
    case After(item, l) =>
      hide Spells;
      NodeSpells(l);
      IndexSpells(item, NodeOf(l), InOrder(l));
  }

  /** So the node of the tree that splitting finds spells the sequence. */
  lemma SplitSpells(items: seq<Item>)
    requires Line(items) && Split(items).Some?
    ensures Spells(NodeOf(Split(items).value), items)
  {
    hide Split, Line, Spells;
    SplitReads(items);
    NodeSpells(Split(items).value);
  }
}
