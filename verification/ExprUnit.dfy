/** The expression parser: operators are taken from a heap, tightest first, and each makes a node of what its
    neighbours have become by then. The map also keeps nodes that are parts of others by now; Holds says which entries
    still count. */
module ExprUnits {
  import opened Options
  import opened Operators
  import opened Splitting

  /** A token as the expression parser sees it; a word is one it can make a node of. */
  datatype Token = Word(text: string) | Sign(op: Operator) | Other(text: string)

  /** parseToken: a token by itself. Anything that begins with a minus counts as a number. */
  function ParseToken(t: Token): Option<Node> {
    match t
    case Word(text) => Some(Leaf(text))
    case Sign(Minus) => Some(Leaf("-"))
    case Sign(MinusEqual) => Some(Leaf("-="))
    case Sign(_) => None
    case Other(text) => if text != "" && text[0] == '-' then Some(Leaf(text)) else None
  }

  /** How an operator is written. */
  function Spelling(op: Operator): string {
    match op
    case ConstDeclare => "::"
    case Range => ".."
    case ArrayAccess => "["
    case Declare => ":="
    case Lesser => "<"
    case LesserEqual => "<="
    case Greater => ">"
    case GreaterEqual => ">="
    case DoubleEqual => "=="
    case BangEqual => "!="
    case AssignTo => "="
    case Plus => "+"
    case Divide => "/"
    case PlusEqual => "+="
    case MinusEqual => "-="
    case Dereference => "@"
    case Star => "*"
    case Minus => "-"
    case Dot => "."
    case AddressOf => "&"
    case LogicalAnd => "&&"
    case LogicalOr => "||"
    case LogicalNot => "!"
  }

  function TextOf(t: Token): string {
    match t
    case Word(text) => text
    case Sign(op) => Spelling(op)
    case Other(text) => text
  }

  /** A token by itself is an operand when it is a word or begins with a minus, and then it stands for its text. */
  lemma TokenAlone(t: Token)
    ensures ParseToken(t) ==
      if t.Word? || (TextOf(t) != "" && TextOf(t)[0] == '-') then Some(Leaf(TextOf(t))) else None
  {
    if t.Sign? {
      assert Spelling(Minus)[0] == '-' && Spelling(MinusEqual)[0] == '-';
      assert t.op != Minus && t.op != MinusEqual ==> Spelling(t.op)[0] != '-';
    }
  }

  /** What a range of tokens has become, stored under both of its ends. */
  datatype ParsedNode = ParsedNode(node: Option<Node>, otherEnd: nat)

  type Parsed = map<nat, ParsedNode>

  datatype Outcome =
    | Done(node: Option<Node>)
    | NeedsRight(at: nat)
    | NeedsLeft(at: nat)
    | Orphan(at: nat)
    | Inconsistent

  predicate IsError(o: Outcome) { !o.Done? }

  // ----- Reading a range of tokens -----

  /** Brackets inside the range have been parsed. */
  predicate Scannable(tokens: seq<Token>, parsed: Parsed, i: nat, end: nat)
    requires end <= |tokens|
    decreases end - i
  {
    i >= end ||
    if i in parsed then i < parsed[i].otherEnd < end && Scannable(tokens, parsed, parsed[i].otherEnd + 1, end)
    else tokens[i] != Sign(ArrayAccess) && tokens[i] != Other("(") && Scannable(tokens, parsed, i + 1, end)
  }

  /** The item that starts at token i. */
  function ReadOne(tokens: seq<Token>, parsed: Parsed, i: nat): Item
    requires i < |tokens|
  {
    if i in parsed then
      match parsed[i].node
      case None => Junk(i, parsed[i].otherEnd)
      case Some(n) =>
          if tokens[i] == Sign(ArrayAccess) then Index(n, i, parsed[i].otherEnd) else Operand(n, i, parsed[i].otherEnd)
    else
      match tokens[i]
      case Sign(op) => if IsUnary(op) then Prefix(op, i) else Infix(op, i)
      case t => match ParseToken(t) { case None => Junk(i, i) case Some(n) => Operand(n, i, i) }
  }

  function Read(tokens: seq<Token>, parsed: Parsed, i: nat, end: nat): (items: seq<Item>)
    requires end <= |tokens| && Scannable(tokens, parsed, i, end)
    ensures i < end ==> items != [] && items[0] == ReadOne(tokens, parsed, i)
    ensures i >= end ==> items == []
    decreases end - i
  {
    if i >= end then []
    else [ReadOne(tokens, parsed, i)] + Read(tokens, parsed, if i in parsed then parsed[i].otherEnd + 1 else i + 1, end)
  }

  /** What ranges of tokens have become is stored at both ends alike. */
  ghost predicate Mirrored(parsed: Parsed) {
    forall i :: i in parsed ==> parsed[i].otherEnd in parsed
  }

  ghost predicate MirroredIn(parsed: Parsed, items: seq<Item>) {
    forall k :: 0 <= k < |items| && items[k].Operand? && items[k].lo in parsed ==>
      items[k].hi in parsed && parsed[items[k].hi] == ParsedNode(Some(items[k].node), items[k].lo)
  }

  lemma OneItem(tokens: seq<Token>, parsed: Parsed, i: nat, end: nat)
    requires i < end <= |tokens| && Scannable(tokens, parsed, i, end)
    ensures var item := ReadOne(tokens, parsed, i);
      && Proper(item) && Matches(tokens, parsed, item) && item.lo == i && item.End() < end
      && item.End() == (if i in parsed then parsed[i].otherEnd else i)
      && Scannable(tokens, parsed, item.End() + 1, end)
  {
  }

  lemma LineCons(item: Item, rest: seq<Item>)
    requires Proper(item) && Line(rest) && (rest != [] ==> rest[0].lo == item.End() + 1)
    ensures Line([item] + rest)
  {
    var items := [item] + rest;
    forall k | 0 <= k < |items| - 1 ensures items[k + 1].lo == items[k].End() + 1 {
      if k > 0 {
        assert rest[k - 1 + 1].lo == rest[k - 1].End() + 1;
      }
    }
  }

  lemma {:induction false} ReadIsLine(tokens: seq<Token>, parsed: Parsed, i: nat, end: nat)
    requires i < end <= |tokens| && Scannable(tokens, parsed, i, end)
    ensures var items := Read(tokens, parsed, i, end);
      && Line(items) && items[0].lo == i && items[|items| - 1].End() == end - 1
      && forall k :: 0 <= k < |items| ==> Matches(tokens, parsed, items[k])
    decreases end - i
  {
    hide Scannable, ReadOne, Matches, Proper, Line;
    OneItem(tokens, parsed, i, end);
    var item := ReadOne(tokens, parsed, i);
    var next := item.End() + 1;
    if next < end {
      OneItem(tokens, parsed, next, end);
      ReadIsLine(tokens, parsed, next, end);
    }
    var rest := Read(tokens, parsed, next, end);
    LineNil();
    LineCons(item, rest);
  }

  lemma LineNil()
    ensures Line([])
  {
  }

  /** What an item says of the tokens and the map. */
  ghost predicate Matches(tokens: seq<Token>, parsed: Parsed, item: Item) {
    match item
    case Operand(node, lo, hi) =>
      if lo in parsed then parsed[lo] == ParsedNode(Some(node), hi)
      else lo == hi && lo < |tokens| && ParseToken(tokens[lo]) == Some(node)
    case Index(node, lo, last) => lo in parsed && parsed[lo] == ParsedNode(Some(node), last)
    case Prefix(op, lo) => lo !in parsed && lo < |tokens| && tokens[lo] == Sign(op)
    case Infix(op, lo) => lo !in parsed && lo < |tokens| && tokens[lo] == Sign(op)
    case Junk(_, _) => true
  }

  // ----- The heap -----

  /** The operators of the range outside brackets, as the scan over its tokens pushes them. */
  function ScanOps(tokens: seq<Token>, parsed: Parsed, i: nat, end: nat): seq<OpToken>
    requires end <= |tokens| && Scannable(tokens, parsed, i, end)
    decreases end - i
  {
    if i >= end then []
    else if i in parsed then
      (if tokens[i] == Sign(ArrayAccess) then [OpToken(i, ArrayAccess)] else [])
          + ScanOps(tokens, parsed, parsed[i].otherEnd + 1, end)
    else
      (if tokens[i].Sign? then [OpToken(i, tokens[i].op)] else []) + ScanOps(tokens, parsed, i + 1, end)
  }

  function Remaining(ops: seq<OpToken>): set<nat> {
    set o | o in ops :: o.index
  }

  method PopLeast(ops: seq<OpToken>) returns (least: OpToken, rest: seq<OpToken>)
    requires ops != []
    requires forall i, j :: 0 <= i < j < |ops| ==> ops[i].index != ops[j].index
    ensures least in ops && |rest| == |ops| - 1
    ensures forall o :: o in rest <==> o in ops && o != least
    ensures forall o :: o in rest ==> Less(least, o)
    ensures forall i, j :: 0 <= i < j < |rest| ==> rest[i].index != rest[j].index
  {
    var at := 0;
    for i := 1 to |ops|
      invariant 0 <= at < i
      invariant forall k :: 0 <= k < i && k != at ==> Less(ops[at], ops[k])
    {
      LessTotal(ops[at], ops[i]);
      if Less(ops[i], ops[at]) {
        forall k | 0 <= k < i && k != at ensures Less(ops[i], ops[k]) {
          LessTransitive(ops[i], ops[at], ops[k]);
        }
        at := i;
      }
    }
    least, rest := ops[at], ops[..at] + ops[at + 1..];
    forall o | o in ops && o != least ensures o in rest {
      var k :| 0 <= k < |ops| && ops[k] == o;
      assert rest[if k < at then k else k - 1] == o;
    }
  }

  // ----- What the map holds for a tree -----

  function First(t: Placed): nat {
    match t
    case Atom(item) => item.lo
    case Before(item, _) => item.lo
    case Between(_, l, _) => First(l)
    case After(_, l) => First(l)
  }

  function Last(t: Placed): nat {
    match t
    case Atom(item) => item.End()
    case Before(_, arg) => Last(arg)
    case Between(_, _, r) => Last(r)
    case After(item, _) => item.End()
  }

  /** Looking at either end of the range finds the node. */
  ghost predicate Has(tokens: seq<Token>, parsed: Parsed, lo: nat, hi: nat, node: Node) {
    || (lo in parsed && hi in parsed && parsed[lo] == ParsedNode(Some(node), hi)
        && parsed[hi] == ParsedNode(Some(node), lo))
    || (lo == hi && lo !in parsed && lo < |tokens| && ParseToken(tokens[lo]) == Some(node))
  }

  ghost predicate NoneLeft(t: Placed, left: set<nat>) {
    forall i :: i in InOrder(t) && i.IsOp() ==> i.lo !in left
  }

  /** `left` is the set of operators still in the heap: parts of the tree without them have become nodes. */
  ghost predicate Holds(tokens: seq<Token>, parsed: Parsed, t: Placed, left: set<nat>) {
    match t
    case Atom(item) => item.Operand? && Has(tokens, parsed, item.lo, item.hi, item.node)
    case Before(item, arg) =>
      if item.lo in left then Holds(tokens, parsed, arg, left)
      else NoneLeft(t, left) && Has(tokens, parsed, First(t), Last(t), NodeOf(t))
    case Between(item, l, r) =>
      if item.lo in left then Holds(tokens, parsed, l, left) && Holds(tokens, parsed, r, left)
      else NoneLeft(t, left) && Has(tokens, parsed, First(t), Last(t), NodeOf(t))
    case After(item, l) =>
      if item.lo in left then Holds(tokens, parsed, l, left) && Matches(tokens, parsed, item)
      else NoneLeft(t, left) && Has(tokens, parsed, First(t), Last(t), NodeOf(t))
  }

  lemma LineAround(l: seq<Item>, x: Item, r: seq<Item>)
    requires Line(l + [x] + r)
    ensures Line(l) && Proper(x) && Line(r)
    ensures l != [] ==> x.lo == l[|l| - 1].End() + 1
    ensures r != [] ==> r[0].lo == x.End() + 1
  {
    var items, k := l + [x] + r, |l|;
    PartOfLine(items, 0, k);
    PartOfLine(items, k + 1, |items|);
    assert items[0..k] == l && items[k + 1..|items|] == r && items[k] == x;
    if k > 0 {
      assert items[k - 1 + 1].lo == items[k - 1].End() + 1;
    }
    if r != [] {
      assert items[k + 1].lo == items[k].End() + 1;
    }
  }

  lemma AtomIsProper(t: Placed)
    requires Line(InOrder(t)) && t.Atom?
    ensures Proper(t.item)
  {
    assert Proper(InOrder(t)[0]);
  }

  /** Where the parts of a tree are. */
  lemma PartsAdjoin(t: Placed)
    requires Line(InOrder(t)) && Respects(t)
    ensures Proper(t.item)
    ensures t.Before? ==> Line(InOrder(t.arg)) && InOrder(t.arg)[0].lo == t.item.lo + 1
    ensures t.Between? ==> Line(InOrder(t.left)) && Line(InOrder(t.right))
    ensures t.Between? ==>
        InOrder(t.left)[|InOrder(t.left)| - 1].End() + 1 == t.item.lo && InOrder(t.right)[0].lo == t.item.lo + 1
    ensures t.After? ==> Line(InOrder(t.left)) && InOrder(t.left)[|InOrder(t.left)| - 1].End() + 1 == t.item.lo
  {
    hide Line, Tighter, Precedence, Binds, IsUnary;
    match t
    case Atom(item) => AtomIsProper(t);
    case Before(item, arg) =>
      assert InOrder(t) == [] + [item] + InOrder(arg);
      LineAround([], item, InOrder(arg));
    case Between(item, l, r) => LineAround(InOrder(l), item, InOrder(r));
    case After(item, l) =>
      assert InOrder(t) == InOrder(l) + [item] + [];
      LineAround(InOrder(l), item, []);
  }

  /** Where a tree begins and ends in the line. */
  ghost predicate Spanned(t: Placed) {
    && First(t) == InOrder(t)[0].lo && Last(t) == InOrder(t)[|InOrder(t)| - 1].End() && First(t) <= Last(t)
    && forall i :: i in InOrder(t) ==> First(t) <= i.lo <= i.End() <= Last(t)
  }

  lemma {:induction false} Spans(t: Placed)
    requires Line(InOrder(t)) && Respects(t)
    ensures Spanned(t)
  {
    hide Line, Tighter, Precedence, Binds, IsUnary, Spanned;
    PartsAdjoin(t);
    match t
    case Atom(_) => SpansRoot(t);
    case Before(item, arg) =>
      Spans(arg);
      SpansRoot(t);
    case Between(item, l, r) =>
      Spans(l);
      Spans(r);
      SpansRoot(t);
    case After(item, l) =>
      Spans(l);
      SpansRoot(t);
  }

  lemma SpansRoot(t: Placed)
    requires Proper(t.item) && (t.Before? ==> t.item.Prefix?) && (t.Between? ==> t.item.Infix?)
        && (t.After? ==> t.item.Index?)
    requires t.Before? ==> Spanned(t.arg) && InOrder(t.arg)[0].lo == t.item.lo + 1
    requires t.Between? ==> Spanned(t.left) && Spanned(t.right)
    requires t.Between? ==>
        InOrder(t.left)[|InOrder(t.left)| - 1].End() + 1 == t.item.lo && InOrder(t.right)[0].lo == t.item.lo + 1
    requires t.After? ==> Spanned(t.left) && InOrder(t.left)[|InOrder(t.left)| - 1].End() + 1 == t.item.lo
    ensures Spanned(t)
  {
    match t
    case Atom(_) =>
    case Before(item, arg) => JoinSpans([], item, InOrder(arg), First(t), Last(t));
    case Between(item, l, r) => JoinSpans(InOrder(l), item, InOrder(r), First(t), Last(t));
    case After(item, l) => JoinSpans(InOrder(l), item, [], First(t), Last(t));
  }

  lemma JoinSpans(a: seq<Item>, item: Item, b: seq<Item>, lo: nat, hi: nat)
    requires lo <= item.lo <= item.End() <= hi
    requires forall i :: i in a ==> lo <= i.lo <= i.End() <= hi
    requires forall i :: i in b ==> lo <= i.lo <= i.End() <= hi
    ensures forall i :: i in a + [item] + b ==> lo <= i.lo <= i.End() <= hi
    ensures [] + [item] + b == [item] + b && a + [item] + [] == a + [item]
  {
  }

  /** Changing the map outside a tree, and taking operators outside it from the heap, changes nothing for the tree. */
  lemma {:induction false} HoldsElsewhere(tokens: seq<Token>, parsed: Parsed, parsed': Parsed, t: Placed,
                                          left: set<nat>, left': set<nat>)
    requires Line(InOrder(t)) && Respects(t) && Holds(tokens, parsed, t, left)
    requires forall k :: First(t) <= k <= Last(t) ==>
        (k in parsed <==> k in parsed') && (k in parsed ==> parsed[k] == parsed'[k])
    requires forall i :: i in InOrder(t) && i.IsOp() ==> (i.lo in left <==> i.lo in left')
    ensures Holds(tokens, parsed', t, left')
  {
    hide Line, Precedence, Tighter, Has, NodeOf;
    PartsAdjoin(t);
    Spans(t);
    PartSpans(t);
    HasElsewhere(tokens, parsed, parsed', First(t), Last(t), NodeOf(t));
    match t
    case Atom(_) => assert NodeOf(t) == t.item.node by { NodeOfAtom(t.item); }
    case Before(item, arg) =>
      assert item in InOrder(t);
      Spans(arg);
      if item.lo in left { HoldsElsewhere(tokens, parsed, parsed', arg, left, left'); }
    case Between(item, l, r) =>
      assert item in InOrder(t);
      Spans(l);
      Spans(r);
      if item.lo in left {
        HoldsElsewhere(tokens, parsed, parsed', l, left, left');
        HoldsElsewhere(tokens, parsed, parsed', r, left, left');
      }
    case After(item, l) =>
      assert item in InOrder(t);
      Spans(l);
      if item.lo in left { HoldsElsewhere(tokens, parsed, parsed', l, left, left'); }
  }

  lemma HasElsewhere(tokens: seq<Token>, parsed: Parsed, parsed': Parsed, lo: nat, hi: nat, node: Node)
    requires lo <= hi
    requires forall k :: lo <= k <= hi ==> (k in parsed <==> k in parsed') && (k in parsed ==> parsed[k] == parsed'[k])
    ensures Has(tokens, parsed, lo, hi, node) ==> Has(tokens, parsed', lo, hi, node)
  {
  }

  lemma NodeOfAtom(item: Item)
    requires item.Operand?
    ensures NodeOf(Atom(item)) == item.node
  {
  }

  /** A tree whose operators have all been taken is a node in the map. */
  lemma NodeReady(tokens: seq<Token>, parsed: Parsed, t: Placed, left: set<nat>)
    requires Respects(t) && Holds(tokens, parsed, t, left) && NoneLeft(t, left)
    ensures Has(tokens, parsed, First(t), Last(t), NodeOf(t))
  {
    if !t.Atom? {
      assert t.item in InOrder(t);
    }
  }

  /** The subtree under the operator at token k. */
  function Under(t: Placed, k: nat): Placed {
    match t
    case Atom(_) => t
    case Before(item, arg) => if item.lo == k then t else Under(arg, k)
    case Between(item, l, r) => if item.lo == k then t else if k < item.lo then Under(l, k) else Under(r, k)
    case After(item, l) => if item.lo == k then t else Under(l, k)
  }

  function Stored(parsed: Parsed, lo: nat, hi: nat, node: Node): Parsed {
    parsed[lo := ParsedNode(Some(node), hi)][hi := ParsedNode(Some(node), lo)]
  }

  /** The operands of the root are in the map. */
  ghost predicate OperandsReady(tokens: seq<Token>, parsed: Parsed, t: Placed) {
    match t
    case Atom(_) => false
    case Before(_, arg) => Has(tokens, parsed, First(arg), Last(arg), NodeOf(arg))
    case Between(_, l, r) =>
      Has(tokens, parsed, First(l), Last(l), NodeOf(l)) && Has(tokens, parsed, First(r), Last(r), NodeOf(r))
    case After(item, l) => Has(tokens, parsed, First(l), Last(l), NodeOf(l)) && Matches(tokens, parsed, item)
  }

  ghost predicate IsLeast(t: Placed, left: set<nat>, op: OpToken) {
    && (exists i :: i in InOrder(t) && i.IsOp() && i.Tok() == op)
    && op.index in left
    && forall i :: i in InOrder(t) && i.IsOp() && i.lo in left && i.lo != op.index ==> Less(op, i.Tok())
  }

  lemma BelowRoot(t: Placed)
    requires Line(InOrder(t)) && Respects(t) && !t.Atom?
    ensures t.item.IsOp()
    ensures forall i :: i in InOrder(t) && i.IsOp() && i.lo != t.item.lo ==> Less(i.Tok(), t.item.Tok())
    ensures forall i :: i in InOrder(t) && i.lo == t.item.lo ==> i == t.item
  {
    var items := InOrder(t);
    var k := if t.Before? then 0 else |InOrder(t.left)|;
    RootIsLoosest(items, t, k);
    LoosestIsLast(items);
    forall i | i in items && i.lo == t.item.lo ensures i == t.item {
      var j :| 0 <= j < |items| && items[j] == i;
      if j != k {
        LineSorted(items, if j < k then j else k, if j < k then k else j);
      }
    }
  }

  lemma TakesRoot(tokens: seq<Token>, parsed: Parsed, t: Placed, left: set<nat>, op: OpToken)
    requires Line(InOrder(t)) && Respects(t) && Holds(tokens, parsed, t, left) && IsLeast(t, left, op)
    requires !t.Atom? && t.item.lo == op.index
    ensures t.item.IsOp() && t.item.Tok() == op && OperandsReady(tokens, parsed, t)
    ensures Holds(tokens, Stored(parsed, First(t), Last(t), NodeOf(t)), t, left - {op.index})
  {
    hide Line, Has, NodeOf, Precedence, Tighter, Less, Holds, InOrder, Matches;
    RootAlone(t, left, op);
    PartsAdjoin(t);
    StoredIsThere(tokens, parsed, First(t), Last(t), NodeOf(t));
    RootReady(tokens, parsed, t, left);
    RootDone(tokens, Stored(parsed, First(t), Last(t), NodeOf(t)), t, left - {op.index});
  }

  /** When the root is the least operator left, it is the only one. */
  lemma RootAlone(t: Placed, left: set<nat>, op: OpToken)
    requires Line(InOrder(t)) && Respects(t) && IsLeast(t, left, op) && !t.Atom? && t.item.lo == op.index
    ensures t.item.IsOp() && t.item.Tok() == op && t.item.lo in left
    ensures NoneLeft(t, left - {op.index})
    ensures forall i :: i in InOrder(t) && i.IsOp() && i.lo in left ==> i.lo == op.index
  {
    hide Line, Less, Precedence, Tighter;
    BelowRoot(t);
    forall i | i in InOrder(t) && i.IsOp() && i.lo != t.item.lo ensures i.lo !in left {
      if i.lo in left {
        LessTotal(op, i.Tok());
      }
    }
  }

  lemma RootReady(tokens: seq<Token>, parsed: Parsed, t: Placed, left: set<nat>)
    requires Line(InOrder(t)) && Respects(t) && Holds(tokens, parsed, t, left) && !t.Atom? && t.item.lo in left
    requires forall i :: i in InOrder(t) && i.IsOp() && i.lo in left ==> i.lo == t.item.lo
    ensures OperandsReady(tokens, parsed, t)
  {
    hide Line, Has, NodeOf, Precedence, Tighter, Matches, Binds, IsUnary, First, Last;
    Positions(t);
    PartsAdjoin(t);
    match t
    case Atom(_) =>
    case Before(item, arg) =>
      SideReady(tokens, parsed, item, arg, left);
    case Between(item, l, r) =>
      SideReady(tokens, parsed, item, l, left);
      SideReady(tokens, parsed, item, r, left);
    case After(item, l) =>
      SideReady(tokens, parsed, item, l, left);
  }

  /** A side of an operator is a node when no operator of it is left. */
  lemma SideReady(tokens: seq<Token>, parsed: Parsed, item: Item, side: Placed, left: set<nat>)
    requires Line(InOrder(side)) && Respects(side) && Holds(tokens, parsed, side, left)
    requires item.lo < First(side) || Last(side) < item.lo
    requires forall i :: i in InOrder(side) && i.IsOp() && i.lo in left ==> i.lo == item.lo
    ensures Has(tokens, parsed, First(side), Last(side), NodeOf(side))
  {
    hide Line, Has, NodeOf, Holds, Respects;
    Spans(side);
    NodeReady(tokens, parsed, side, left);
  }

  lemma RootDone(tokens: seq<Token>, parsed: Parsed, t: Placed, left: set<nat>)
    requires !t.Atom? && t.item.lo !in left && NoneLeft(t, left) && Has(tokens, parsed, First(t), Last(t), NodeOf(t))
    ensures Holds(tokens, parsed, t, left)
  {
  }

  lemma StoredIsThere(tokens: seq<Token>, parsed: Parsed, lo: nat, hi: nat, node: Node)
    ensures Has(tokens, Stored(parsed, lo, hi, node), lo, hi, node)
  {
  }

  /** The node made for `op` in the tree. */
  ghost predicate Taken(tokens: seq<Token>, parsed: Parsed, t: Placed, left: set<nat>, op: OpToken) {
    var s := Under(t, op.index);
    && !s.Atom? && Respects(s) && Line(InOrder(s)) && s.item.IsOp() && s.item.Tok() == op
    && First(t) <= First(s) <= Last(s) <= Last(t)
    && OperandsReady(tokens, parsed, s)
    && Holds(tokens, Stored(parsed, First(s), Last(s), NodeOf(s)), t, left - {op.index})
  }

  /** An operator below the root is the least one of the part it is in, and the root is still to come. */
  lemma LeastInPart(tokens: seq<Token>, parsed: Parsed, t: Placed, part: Placed, left: set<nat>, op: OpToken)
    requires Respects(t) && Holds(tokens, parsed, t, left) && IsLeast(t, left, op) && !t.Atom?
    requires forall i :: i in InOrder(part) ==> i in InOrder(t)
    requires forall i :: i in InOrder(t) && i.lo == op.index ==> i in InOrder(part)
    ensures IsLeast(part, left, op) && t.item.lo in left
  {
    hide Tighter, Precedence, Has, Matches, Less;
  }

  lemma {:induction false} TakesLeast(tokens: seq<Token>, parsed: Parsed, t: Placed, left: set<nat>, op: OpToken)
    requires Line(InOrder(t)) && Respects(t) && Holds(tokens, parsed, t, left) && IsLeast(t, left, op)
    ensures Taken(tokens, parsed, t, left, op)
    decreases t, 1
  {
    hide Line, OperandsReady, NodeOf, Precedence, Tighter, Has, IsLeast, NoneLeft, Matches;
    Spans(t);
    PartsAdjoin(t);
    if t.Atom? {
      NoOperators(t, left, op);
    } else if t.item.lo == op.index {
      TakesRoot(tokens, parsed, t, left, op);
    } else {
      var part := if t.Before? then t.arg else if t.After? || op.index < t.item.lo then t.left else t.right;
      PartOf(t, part, op.index);
      LeastInPart(tokens, parsed, t, part, left, op);
      TakesLeast(tokens, parsed, part, left, op);
      PutTogether(tokens, parsed, t, part, left, op);
    }
  }

  lemma NoOperators(t: Placed, left: set<nat>, op: OpToken)
    requires t.Atom? && Respects(t)
    ensures !IsLeast(t, left, op)
  {
  }

  lemma PartOf(t: Placed, part: Placed, k: nat)
    requires Line(InOrder(t)) && Respects(t) && !t.Atom? && t.item.lo != k
    requires part == if t.Before? then t.arg else if t.After? || k < t.item.lo then t.left else t.right
    ensures Line(InOrder(part)) && Respects(part)
    ensures forall i :: i in InOrder(part) ==> i in InOrder(t)
    ensures forall i :: i in InOrder(t) && i.lo == k ==> i in InOrder(part)
    ensures First(t) <= First(part) && Last(part) <= Last(t)
    ensures Under(t, k) == Under(part, k) || (t.Between? && part == t.left && k >= t.item.lo)
  {
    hide Line, Tighter, Precedence;
    PartsAdjoin(t);
    PartSpans(t);
    if t.Between? {
      forall i | i in InOrder(t) && i.lo == k ensures i in InOrder(part) {
        SidesApart(t, i);
      }
    }
  }

  lemma PartSpans(t: Placed)
    requires Line(InOrder(t)) && Respects(t)
    ensures t.Before? ==> First(t) <= First(t.arg) && Last(t.arg) == Last(t)
    ensures t.Between? ==>
        First(t) == First(t.left) && Last(t.left) <= Last(t) && First(t) <= First(t.right) && Last(t.right) == Last(t)
    ensures t.After? ==> First(t) == First(t.left) && Last(t.left) <= Last(t)
  {
    hide Line, InOrder;
    Positions(t);
    PartsTouch(t);
  }

  lemma PutTogether(tokens: seq<Token>, parsed: Parsed, t: Placed, part: Placed, left: set<nat>, op: OpToken)
    requires Line(InOrder(t)) && Respects(t) && !t.Atom? && Holds(tokens, parsed, t, left) && t.item.lo in left
        && t.item.lo != op.index
    requires part == if t.Before? then t.arg else if t.After? || op.index < t.item.lo then t.left else t.right
    requires Taken(tokens, parsed, part, left, op)
    ensures Taken(tokens, parsed, t, left, op)
  {
    hide Line, OperandsReady, NodeOf, Precedence, Tighter, Has, InOrder, Holds, First, Last;
    PartOf(t, part, op.index);
    var s := Under(part, op.index);
    PartHolds(tokens, parsed, Stored(parsed, First(s), Last(s), NodeOf(s)), t, part, left, op.index, First(s), Last(s));
  }

  lemma PartHolds(tokens: seq<Token>, parsed: Parsed, parsed': Parsed, t: Placed, part: Placed, left: set<nat>, k: nat,
                  lo: nat, hi: nat)
    requires Line(InOrder(t)) && Respects(t) && !t.Atom? && Holds(tokens, parsed, t, left) && t.item.lo in left
        && t.item.lo != k
    requires part == if t.Before? then t.arg else if t.After? || k < t.item.lo then t.left else t.right
    requires First(part) <= lo <= hi <= Last(part) && Holds(tokens, parsed', part, left - {k})
    requires forall j :: j != lo && j != hi ==>
        (j in parsed <==> j in parsed') && (j in parsed ==> parsed[j] == parsed'[j])
    ensures Holds(tokens, parsed', t, left - {k})
  {
    hide Line, Precedence, Tighter, Has, NodeOf, InOrder, First, Last;
    Positions(t);
    assert t.item.lo in left - {k};
    if t.Between? {
      var other := if k < t.item.lo then t.right else t.left;
      OtherSide(t, other, k);
      HoldsElsewhere(tokens, parsed, parsed', other, left, left - {k});
    }
  }

  lemma Positions(t: Placed)
    requires Line(InOrder(t)) && Respects(t)
    ensures t.Between? ==> First(t.left) <= Last(t.left) < t.item.lo < First(t.right) <= Last(t.right)
    ensures t.After? ==> First(t.left) <= Last(t.left) < t.item.lo
    ensures t.Before? ==> t.item.lo < First(t.arg) <= Last(t.arg)
  {
    hide Line, Tighter, Precedence;
    PartsAdjoin(t);
    match t
    case Atom(_) =>
    case Before(item, arg) => Spans(arg);
    case Between(item, l, r) =>
      Spans(l);
      Spans(r);
    case After(item, l) => Spans(l);
  }

  lemma OtherSide(t: Placed, other: Placed, k: nat)
    requires Line(InOrder(t)) && Respects(t) && t.Between? && k != t.item.lo
    requires other == if k < t.item.lo then t.right else t.left
    ensures Line(InOrder(other)) && forall i :: i in InOrder(other) ==> i.lo != k
  {
    hide Line, Tighter, Precedence;
    PartsAdjoin(t);
    forall i | i in InOrder(other) ensures i.lo != k {
      SidesApart(t, i);
    }
  }

  lemma SidesApart(t: Placed, i: Item)
    requires Line(InOrder(t)) && Respects(t) && t.Between?
    ensures i in InOrder(t.left) ==> i.lo < t.item.lo
    ensures i in InOrder(t.right) ==> i.lo > t.item.lo
  {
    hide Line;
    PartsAdjoin(t);
    Spans(t.left);
    Spans(t.right);
  }

  // ----- Parsing a range -----

  /** What an operator finds to its left: a node and where it starts. Prefix operators start where they are. */
  function LeftSide(tokens: seq<Token>, parsed: Parsed, op: OpToken, start: nat): (Option<Node>, nat)
    requires op.index < |tokens|
  {
    if IsUnary(op.op) then (None, op.index)
    else if op.index == 0 || op.index <= start then (None, 0)
    else if op.index - 1 in parsed then (parsed[op.index - 1].node, parsed[op.index - 1].otherEnd)
    else (ParseToken(tokens[op.index - 1]), op.index - 1)
  }

  /** What an operator finds to its right: a node and where it ends. */
  function RightSide(tokens: seq<Token>, parsed: Parsed, op: OpToken, end: nat): (Option<Node>, nat)
    requires op.index < |tokens|
  {
    if op.index + 1 >= |tokens| || op.index >= end then (None, op.index + 1)
    else
      var at := if op.op == ArrayAccess then op.index else op.index + 1;
      if at in parsed then (parsed[at].node, parsed[at].otherEnd) else (ParseToken(tokens[op.index + 1]), op.index + 1)
  }

  /** At the end of a range, with more tokens in the line, an operator looks at the token behind the range. */
  lemma LooksBehindRange(tokens: seq<Token>, parsed: Parsed, op: OpToken, end: nat)
    requires op.index + 1 == end < |tokens| && end !in parsed && op.op != ArrayAccess
    ensures RightSide(tokens, parsed, op, end).0.Some? <==>
      tokens[end].Word? || (TextOf(tokens[end]) != "" && TextOf(tokens[end])[0] == '-')
  {
    TokenAlone(tokens[end]);
  }

  function MakeNode(op: Operator, left: Option<Node>, right: Node): Node {
    match left
    case None => Unary(op, right)
    case Some(l) => Binary(op, l, right)
  }

  lemma OperandsFound(tokens: seq<Token>, parsed: Parsed, s: Placed, start: nat, end: nat)
    requires Line(InOrder(s)) && Respects(s) && !s.Atom? && OperandsReady(tokens, parsed, s)
    requires start <= First(s) && Last(s) < end <= |tokens| && s.item.IsOp()
    ensures s.item.lo < |tokens|
    ensures var l, r := LeftSide(tokens, parsed, s.item.Tok(), start), RightSide(tokens, parsed, s.item.Tok(), end);
      && l.1 == First(s) && r.0.Some? && r.1 == Last(s) && (!IsUnary(s.item.Tok().op) ==> l.0.Some?)
      && NodeOf(s) == MakeNode(s.item.Tok().op, l.0, r.0.value)
  {
    hide Line, Precedence, Tighter, InOrder, Has, LeftSide, RightSide, Matches;
    Positions(s);
    PartsTouch(s);
    match s
    case Before(item, arg) =>
      RightFound(tokens, parsed, First(arg), Last(arg), NodeOf(arg), item.Tok(), end);
      UnaryLeft(tokens, parsed, item.Tok(), start);
    case Between(item, l, r) =>
      LeftFound(tokens, parsed, First(l), Last(l), NodeOf(l), item.Tok(), start);
      RightFound(tokens, parsed, First(r), Last(r), NodeOf(r), item.Tok(), end);
    case After(item, l) =>
      LeftFound(tokens, parsed, First(l), Last(l), NodeOf(l), item.Tok(), start);
      IndexFound(tokens, parsed, item, end);
  }

  lemma UnaryLeft(tokens: seq<Token>, parsed: Parsed, op: OpToken, start: nat)
    requires IsUnary(op.op) && op.index < |tokens|
    ensures LeftSide(tokens, parsed, op, start) == (None, op.index)
  {
  }

  lemma LeftFound(tokens: seq<Token>, parsed: Parsed, lo: nat, hi: nat, node: Node, op: OpToken, start: nat)
    requires Has(tokens, parsed, lo, hi, node) && start <= lo <= hi && hi + 1 == op.index < |tokens| && !IsUnary(op.op)
    ensures LeftSide(tokens, parsed, op, start) == (Some(node), lo)
  {
  }

  lemma RightFound(tokens: seq<Token>, parsed: Parsed, lo: nat, hi: nat, node: Node, op: OpToken, end: nat)
    requires Has(tokens, parsed, lo, hi, node) && lo == op.index + 1 && lo <= hi < end <= |tokens|
        && op.op != ArrayAccess
    ensures RightSide(tokens, parsed, op, end) == (Some(node), hi)
  {
  }

  lemma IndexFound(tokens: seq<Token>, parsed: Parsed, item: Item, end: nat)
    requires item.Index? && Matches(tokens, parsed, item) && item.lo < item.last < end <= |tokens|
    ensures RightSide(tokens, parsed, item.Tok(), end) == (Some(item.node), item.last)
  {
  }

  lemma PartsTouch(t: Placed)
    requires Line(InOrder(t)) && Respects(t)
    ensures Proper(t.item)
    ensures t.Between? ==> Last(t.left) + 1 == t.item.lo && First(t.right) == t.item.lo + 1
    ensures t.After? ==> Last(t.left) + 1 == t.item.lo
    ensures t.Before? ==> First(t.arg) == t.item.lo + 1
  {
    hide Line, Tighter, Precedence;
    PartsAdjoin(t);
    match t
    case Atom(_) =>
    case Before(item, arg) => Spans(arg);
    case Between(item, l, r) =>
      Spans(l);
      Spans(r);
    case After(item, l) => Spans(l);
  }

  lemma {:induction false} HoldsAtFirst(tokens: seq<Token>, parsed: Parsed, t: Placed, left: set<nat>)
    requires Respects(t)
    requires forall i :: i in InOrder(t) ==>
        Matches(tokens, parsed, i) && MirroredIn(parsed, [i]) && (i.IsOp() ==> i.lo in left)
    ensures Holds(tokens, parsed, t, left)
  {
    hide Precedence, Tighter;
    assert t.item in InOrder(t);
    match t
    case Atom(item) => assert MirroredIn(parsed, [item]) && [item][0] == item;
    case Before(item, arg) => HoldsAtFirst(tokens, parsed, arg, left);
    case Between(item, l, r) =>
      HoldsAtFirst(tokens, parsed, l, left);
      HoldsAtFirst(tokens, parsed, r, left);
    case After(item, l) => HoldsAtFirst(tokens, parsed, l, left);
  }
}
