/** Parsing a range of tokens without unparsed brackets. */
module LineParses {
  import opened Options
  import opened Operators
  import opened Splitting
  import opened ExprUnits

  /** The operators of the sequence, in any order. */
  ghost predicate OpsOf(ops: seq<OpToken>, items: seq<Item>) {
    forall o :: o in ops <==> exists j :: 0 <= j < |items| && items[j].IsOp() && items[j].Tok() == o
  }

  lemma {:induction false} ScanFindsOps(tokens: seq<Token>, parsed: Parsed, i: nat, end: nat)
    requires end <= |tokens| && Scannable(tokens, parsed, i, end)
    requires forall item :: item in Read(tokens, parsed, i, end) ==> !item.Junk?
    ensures var items, ops := Read(tokens, parsed, i, end), ScanOps(tokens, parsed, i, end);
      && OpsOf(ops, items)
      && (forall o :: o in ops ==> i <= o.index < end)
      && (forall a, b :: 0 <= a < b < |ops| ==> ops[a].index != ops[b].index)
    decreases end - i
  {
    hide Scannable, ReadOne, Matches, Proper, OpsOf, ScanOps, OpAt;
    if i < end {
      OneItem(tokens, parsed, i, end);
      var item := ReadOne(tokens, parsed, i);
      var next := item.End() + 1;
      assert Read(tokens, parsed, i, end) == [item] + Read(tokens, parsed, next, end);
      assert Read(tokens, parsed, i, end)[0] == item;
      ScanFindsOps(tokens, parsed, next, end);
      ScanHead(tokens, parsed, i, end);
      OpOfItem(tokens, parsed, i);
      ScanStep(item, Read(tokens, parsed, next, end), ScanOps(tokens, parsed, next, end));
    } else {
      NoOps(tokens, parsed, i, end);
    }
  }

  lemma NoOps(tokens: seq<Token>, parsed: Parsed, i: nat, end: nat)
    requires end <= |tokens| && end <= i && Scannable(tokens, parsed, i, end)
    ensures OpsOf([], []) && ScanOps(tokens, parsed, i, end) == []
  {
  }

  lemma ScanHead(tokens: seq<Token>, parsed: Parsed, i: nat, end: nat)
    requires i < end <= |tokens| && Scannable(tokens, parsed, i, end)
    ensures i !in parsed ==> tokens[i] != Sign(ArrayAccess)
    ensures var next := if i in parsed then parsed[i].otherEnd + 1 else i + 1;
      && i < next <= end && Scannable(tokens, parsed, next, end)
      && ScanOps(tokens, parsed, i, end) == OpAt(tokens, parsed, i) + ScanOps(tokens, parsed, next, end)
  {
  }

  function OpAt(tokens: seq<Token>, parsed: Parsed, i: nat): seq<OpToken>
    requires i < |tokens|
  {
    if tokens[i].Sign? && (i in parsed ==> tokens[i] == Sign(ArrayAccess)) then [OpToken(i, tokens[i].op)] else []
  }

  lemma OpOfItem(tokens: seq<Token>, parsed: Parsed, i: nat)
    requires i < |tokens| && !ReadOne(tokens, parsed, i).Junk? && (i !in parsed ==> tokens[i] != Sign(ArrayAccess))
    ensures var item := ReadOne(tokens, parsed, i); OpAt(tokens, parsed, i) == if item.IsOp() then [item.Tok()] else []
  {
  }

  lemma ScanStep(item: Item, rest: seq<Item>, ops: seq<OpToken>)
    requires OpsOf(ops, rest)
    ensures OpsOf((if item.IsOp() then [item.Tok()] else []) + ops, [item] + rest)
  {
    var items, all := [item] + rest, (if item.IsOp() then [item.Tok()] else []) + ops;
    forall o | o in all ensures exists j :: 0 <= j < |items| && items[j].IsOp() && items[j].Tok() == o {
      if o in ops {
        var j :| 0 <= j < |rest| && rest[j].IsOp() && rest[j].Tok() == o;
        assert items[j + 1] == rest[j];
      } else {
        assert items[0] == item;
      }
    }
    forall j | 0 <= j < |items| && items[j].IsOp() ensures items[j].Tok() in all {
      if j > 0 {
        assert items[j] == rest[j - 1];
        assert items[j].Tok() in ops;
      }
    }
  }

  /** The heap holds operators of the sequence, each once. */
  ghost predicate HeapOf(ops: seq<OpToken>, items: seq<Item>, parsed: Parsed) {
    && (forall o :: o in ops ==> exists j :: 0 <= j < |items| && items[j].IsOp() && items[j].Tok() == o)
    && (forall a, b :: 0 <= a < b < |ops| ==> ops[a].index != ops[b].index)
    && (forall o :: o in ops && o.op == ArrayAccess ==> o.index in parsed)
  }

  /** Popping the least operator and making its node brings the map one step closer to the tree. */
  lemma StepFits(tokens: seq<Token>, parsed: Parsed, items: seq<Item>, t: Placed, ops: seq<OpToken>, op: OpToken,
                 rest: seq<OpToken>,
                 start: nat, end: nat)
    requires Line(items) && InOrder(t) == items && Respects(t) && HeapOf(ops, items, parsed)
    requires start == First(t) && Last(t) < end <= |tokens|
    requires Holds(tokens, parsed, t, Remaining(ops))
    requires op in ops && (forall o :: o in rest <==> o in ops && o != op) && forall o :: o in rest ==> Less(op, o)
    ensures op.index < |tokens|
    ensures var l, r := LeftSide(tokens, parsed, op, start), RightSide(tokens, parsed, op, end);
      && r.0.Some? && (!IsUnary(op.op) ==> l.0.Some?) && start <= l.1 <= r.1 < end
      && Holds(tokens, Stored(parsed, l.1, r.1, MakeNode(op.op, l.0, r.0.value)), t, Remaining(rest))
  {
    hide Line, Respects, InOrder, Holds, LeftSide, RightSide, Less, NodeOf, OperandsReady;
    var left := Remaining(ops);
    LeastOfHeap(items, t, ops, op, rest, parsed);
    TakesLeast(tokens, parsed, t, left, op);
    var s := Under(t, op.index);
    OperandsFound(tokens, parsed, s, start, end);
    Spans(s);
    assert Remaining(rest) == left - {op.index} by { HeapShrinks(items, ops, op, rest, parsed); }
  }

  lemma LeastOfHeap(items: seq<Item>, t: Placed, ops: seq<OpToken>, op: OpToken, rest: seq<OpToken>, parsed: Parsed)
    requires Line(items) && InOrder(t) == items && HeapOf(ops, items, parsed)
    requires op in ops && (forall o :: o in rest <==> o in ops && o != op) && forall o :: o in rest ==> Less(op, o)
    ensures IsLeast(t, Remaining(ops), op)
  {
    hide Less, InOrder;
    forall i | i in items && i.IsOp() && i.lo in Remaining(ops) && i.lo != op.index ensures Less(op, i.Tok()) {
      var o :| o in ops && o.index == i.lo;
      var j :| 0 <= j < |items| && items[j].IsOp() && items[j].Tok() == o;
      var k :| 0 <= k < |items| && items[k] == i;
      if j != k {
        LineSorted(items, if j < k then j else k, if j < k then k else j);
      }
    }
  }

  lemma HeapShrinks(items: seq<Item>, ops: seq<OpToken>, op: OpToken, rest: seq<OpToken>, parsed: Parsed)
    requires HeapOf(ops, items, parsed) && op in ops && forall o :: o in rest <==> o in ops && o != op
    ensures Remaining(rest) == Remaining(ops) - {op.index}
  {
    forall o | o in ops && o.index == op.index ensures o == op {
      var a :| 0 <= a < |ops| && ops[a] == o;
      var b :| 0 <= b < |ops| && ops[b] == op;
    }
  }

  // ----- Prefix operators in the wrong place -----

  /** A prefix operator waits in the heap behind the operator in front of it, and the map says nothing of it. */
  ghost predicate Waiting(tokens: seq<Token>, parsed: Parsed, ops: seq<OpToken>, a: Item, b: Item) {
    && a.IsOp() && b.Prefix? && !a.Index? && b.lo == a.lo + 1 && b.lo < |tokens| && tokens[b.lo] == Sign(b.op)
        && IsUnary(b.op)
    && Less(a.Tok(), b.Tok()) && a.Tok() in ops && b.Tok() in ops && a.op != ArrayAccess
    && Mirrored(parsed) && b.lo !in parsed
  }

  lemma StepMisfits(tokens: seq<Token>, parsed: Parsed, ops: seq<OpToken>, op: OpToken, rest: seq<OpToken>, a: Item,
                    b: Item,
                    start: nat, end: nat)
    requires Waiting(tokens, parsed, ops, a, b) && op.index < |tokens|
    requires op in ops && (forall o :: o in rest <==> o in ops && o != op) && forall o :: o in rest ==> Less(op, o)
    ensures var l, r := LeftSide(tokens, parsed, op, start), RightSide(tokens, parsed, op, end);
      r.0.Some? && (IsUnary(op.op) || l.0.Some?) && (op.op == ArrayAccess ==> op.index in parsed)
          && (forall o :: o in ops && o.index == op.index ==> o == op) ==>
        Waiting(tokens, Stored(parsed, l.1, r.1, MakeNode(op.op, l.0, r.0.value)), rest, a, b)
  {
    hide Less, ParseToken, MakeNode;
    LessTotal(a.Tok(), b.Tok());
    UnaryIsNoWord(b.op);
  }

  lemma UnaryIsNoWord(op: Operator)
    ensures IsUnary(op) ==> ParseToken(Sign(op)) == None
  {
  }

  /** What parsing a range is about to do: the items it sees, with what brackets have become stored at both their
      ends. */
  ghost predicate Sentence(parsed: Parsed, items: seq<Item>) {
    Grammatical(items) && Mirrored(parsed) && MirroredIn(parsed, items)
  }

  lemma NothingIsJunk(items: seq<Item>)
    requires Grammatical(items)
    ensures forall item :: item in items ==> !item.Junk?
  {
    forall k | 0 <= k < |items| ensures !items[k].Junk? {
      if k < |items| - 1 {
        assert Follows(items[k], items[k + 1]);
      }
    }
  }

  lemma Begins(tokens: seq<Token>, parsed: Parsed, start: nat, end: nat)
    requires start < end <= |tokens| && Scannable(tokens, parsed, start, end)
        && Sentence(parsed, Read(tokens, parsed, start, end))
    ensures var items, ops := Read(tokens, parsed, start, end), ScanOps(tokens, parsed, start, end);
      && Line(items) && HeapOf(ops, items, parsed) && (forall o :: o in ops ==> o.index < |tokens|)
      && match Split(items) {
           case Some(t) =>
             InOrder(t) == items && Respects(t) && First(t) == start && Last(t) == end - 1
                 && Holds(tokens, parsed, t, Remaining(ops))
           case None => exists a, b :: Waiting(tokens, parsed, ops, a, b)
         }
  {
    hide Scannable, Read, ScanOps, Waiting, Respects, Holds, Less, Grammatical, Split, InOrder, First, Last, Matches,
        MirroredIn, Line, Remaining, OpsOf, HeapOf;
    var items, ops := Read(tokens, parsed, start, end), ScanOps(tokens, parsed, start, end);
    ReadIsLine(tokens, parsed, start, end);
    NothingIsJunk(items);
    ScanFindsOps(tokens, parsed, start, end);
    IndexesAreKnown(tokens, parsed, items, ops);
    OpsMakeHeap(ops, items, parsed);
    if Split(items).Some? {
      BeginsTree(tokens, parsed, items, Split(items).value, ops);
    } else {
      SplitsExactly(items);
      var k :| 0 <= k < |items| - 1 && !PrefixFits(items[k], items[k + 1]);
      SomeoneWaits(tokens, parsed, items, ops, k);
    }
  }

  lemma IndexesAreKnown(tokens: seq<Token>, parsed: Parsed, items: seq<Item>, ops: seq<OpToken>)
    requires Line(items) && forall k :: 0 <= k < |items| ==> Matches(tokens, parsed, items[k])
    requires OpsOf(ops, items)
    ensures forall o :: o in ops && o.op == ArrayAccess ==> o.index in parsed
  {
    forall o | o in ops && o.op == ArrayAccess ensures o.index in parsed {
      var j :| 0 <= j < |items| && items[j].IsOp() && items[j].Tok() == o;
      assert Matches(tokens, parsed, items[j]) && Proper(items[j]);
    }
  }

  lemma OpsMakeHeap(ops: seq<OpToken>, items: seq<Item>, parsed: Parsed)
    requires OpsOf(ops, items)
    requires forall a, b :: 0 <= a < b < |ops| ==> ops[a].index != ops[b].index
    requires forall o :: o in ops && o.op == ArrayAccess ==> o.index in parsed
    ensures HeapOf(ops, items, parsed)
  {
  }

  lemma BeginsTree(tokens: seq<Token>, parsed: Parsed, items: seq<Item>, t: Placed, ops: seq<OpToken>)
    requires Line(items) && items != [] && Split(items) == Some(t) && MirroredIn(parsed, items)
    requires forall k :: 0 <= k < |items| ==> Matches(tokens, parsed, items[k])
    requires OpsOf(ops, items)
    ensures InOrder(t) == items && Respects(t) && First(t) == items[0].lo && Last(t) == items[|items| - 1].End()
    ensures Holds(tokens, parsed, t, Remaining(ops))
  {
    hide Split, InOrder, First, Last, Matches, Line, Less, Respects, Holds;
    SplitReads(items);
    Spans(t);
    forall i | i in InOrder(t) ensures Matches(tokens, parsed, i) && MirroredIn(parsed, [i])
        && (i.IsOp() ==> i.lo in Remaining(ops)) {
      var k :| 0 <= k < |items| && items[k] == i;
      if i.IsOp() {
        assert items[k].Tok() in ops;
      }
    }
    HoldsAtFirst(tokens, parsed, t, Remaining(ops));
  }

  lemma SomeoneWaits(tokens: seq<Token>, parsed: Parsed, items: seq<Item>, ops: seq<OpToken>, k: nat)
    requires Line(items) && Grammatical(items) && Mirrored(parsed) && k < |items| - 1
        && !PrefixFits(items[k], items[k + 1])
    requires forall i :: 0 <= i < |items| ==> Matches(tokens, parsed, items[i])
    requires OpsOf(ops, items)
    ensures Waiting(tokens, parsed, ops, items[k], items[k + 1])
  {
    assert Follows(items[k], items[k + 1]) && Proper(items[k]) && Proper(items[k + 1]);
    LessTotal(items[k].Tok(), items[k + 1].Tok());
  }

  lemma SingleToken(tokens: seq<Token>, parsed: Parsed, start: nat)
    requires start < |tokens| && Scannable(tokens, parsed, start, start + 1)
        && Grammatical(Read(tokens, parsed, start, start + 1))
    ensures ParseToken(tokens[start]).Some?
    ensures Split(Read(tokens, parsed, start, start + 1)) ==
        Some(Atom(Operand(ParseToken(tokens[start]).value, start, start)))
  {
    assert Read(tokens, parsed, start, start + 1) == [ReadOne(tokens, parsed, start)];
  }

  /** A finished tree of more than one token is found at the start of its range. */
  lemma Finished(tokens: seq<Token>, parsed: Parsed, t: Placed)
    requires Respects(t) && Holds(tokens, parsed, t, {}) && First(t) < Last(t)
    ensures First(t) in parsed && parsed[First(t)] == ParsedNode(Some(NodeOf(t)), Last(t))
  {
    NodeReady(tokens, parsed, t, {});
  }

  /** Several tokens, a binary operator or an index the first of them. */
  predicate Headless(tokens: seq<Token>, parsed: Parsed, start: nat, end: nat) {
    start + 1 < end <= |tokens| && OpAt(tokens, parsed, start) != [] && !IsUnary(tokens[start].op)
  }

  /** Its operator is among those to be reduced, and it finds nothing to its left. */
  lemma HeadIsWaiting(tokens: seq<Token>, parsed: Parsed, start: nat, end: nat) returns (head: OpToken)
    requires start < end <= |tokens| && Scannable(tokens, parsed, start, end)
    ensures Headless(tokens, parsed, start, end) ==>
      && head in ScanOps(tokens, parsed, start, end) && head.index < |tokens| && !IsUnary(head.op)
      && forall p: Parsed :: LeftSide(tokens, p, head, start).0.None?
  {
    hide Scannable, ScanOps;
    ScanHead(tokens, parsed, start, end);
    head := OpToken(start, if tokens[start].Sign? then tokens[start].op else Plus);
    assert Headless(tokens, parsed, start, end) ==> OpAt(tokens, parsed, start) == [head];
  }

  class LineParse {
    const tokens: seq<Token>
    var parsed: Parsed

    constructor (tokens: seq<Token>)
      ensures this.tokens == tokens && parsed == map[]
    {
      this.tokens := tokens;
      parsed := map[];
    }

    method CollectOps(start: nat, end: nat) returns (ops: seq<OpToken>)
      requires start <= end <= |tokens| && Scannable(tokens, parsed, start, end)
      ensures ops == ScanOps(tokens, parsed, start, end)
    {
      hide Scannable, ScanOps;
      ops := [];
      var i := start;
      while i < end
        invariant start <= i <= end && Scannable(tokens, parsed, i, end)
        invariant ops + ScanOps(tokens, parsed, i, end) == ScanOps(tokens, parsed, start, end)
      {
        var tok := tokens[i];
        ScanHead(tokens, parsed, i, end);
        if i in parsed && tok != Sign(ArrayAccess) {
          i := parsed[i].otherEnd + 1;
          continue;
        }
        if tok.Sign? {
          ops := ops + [OpToken(i, tok.op)];
        }
        i := if tok == Sign(ArrayAccess) then parsed[i].otherEnd + 1 else i + 1;
      }
      NoOps(tokens, parsed, i, end);
    }

    /** Make the node of one operator, or say which operand it lacks. */
    method ReduceOne(op: OpToken, start: nat, end: nat) returns (failure: Option<Outcome>)
      requires op.index < |tokens| && (op.op == ArrayAccess ==> op.index in parsed)
      modifies this
      ensures var l, r := LeftSide(tokens, old(parsed), op, start), RightSide(tokens, old(parsed), op, end);
        if r.0.None? then failure == Some(NeedsRight(op.index)) && parsed == old(parsed)
        else if !IsUnary(op.op) && l.0.None? then failure == Some(NeedsLeft(op.index)) && parsed == old(parsed)
        else failure == None && parsed == Stored(old(parsed), l.1, r.1, MakeNode(op.op, l.0, r.0.value))
    {
      var unaryOp := IsUnary(op.op);
      var leftI: int := if unaryOp then op.index else op.index - 1;
      var rightI: nat := op.index + 1;
      var left: Option<Node>, right: Option<Node> := None, None;
      if op.index > 0 && op.index > start && !unaryOp {
        if op.index - 1 in parsed {
          left, leftI := parsed[op.index - 1].node, parsed[op.index - 1].otherEnd;
        } else {
          left := ParseToken(tokens[leftI]);
        }
      }
      if op.index < |tokens| - 1 && op.index < end {
        var rightIndex := if op.op == ArrayAccess then op.index else op.index + 1;
        if rightIndex in parsed {
          right, rightI := parsed[rightIndex].node, parsed[rightIndex].otherEnd;
        } else {
          right := ParseToken(tokens[op.index + 1]);
        }
      }
      if right.None? {
        return Some(NeedsRight(op.index));
      }
      if !unaryOp && left.None? {
        return Some(NeedsLeft(op.index));
      }
      var newNode := MakeNode(op.op, left, right.value);
      parsed := parsed[leftI := ParsedNode(Some(newNode), rightI)];
      parsed := parsed[rightI := ParsedNode(Some(newNode), leftI)];
      return None;
    }

    /** A range whose operands and operators take turns becomes the tree that splitting at the loosest operator
        gives, and nothing outside the range changes; if there is no such tree, because a prefix operator follows a
        tighter operator, it is an error. */
    method ParseExprUnit(start: nat, end: nat) returns (r: Outcome)
      requires start <= end <= |tokens| && Scannable(tokens, parsed, start, end)
      modifies this
      ensures start == end ==> r == Done(None) && parsed == old(parsed)
      ensures var items := Read(tokens, old(parsed), start, end);
        Sentence(old(parsed), items) ==>
          match Split(items)
          case Some(t) =>
            && r == Done(Some(NodeOf(t))) && Spells(NodeOf(t), items)
            && SameOutside(old(parsed), parsed, start, end)
          case None => IsError(r)
      // an operator with nothing before it, though tokens may come before the range, is an error as well
      ensures Headless(tokens, old(parsed), start, end) ==> IsError(r)
    {
      hide Scannable, Read, ScanOps, Split, Line, Respects, InOrder, Holds, HeapOf, Waiting, Grammatical, Mirrored,
          MirroredIn, LeftSide, RightSide, Less, NodeOf, Remaining, Spells, OpAt, IsUnary;
      if start < end {
        ReadIsLine(tokens, parsed, start, end);
      }
      if start == end {
        assert Read(tokens, parsed, start, end) == [] && !Sentence(parsed, []) by { EmptyRange(tokens, parsed, start); }
        return Done(None);
      }
      ghost var items := Read(tokens, parsed, start, end);
      if end - start == 1 {
        if Sentence(parsed, items) {
          SingleToken(tokens, parsed, start);
          SplitSpells(items);
          NodeOfAtom(Operand(ParseToken(tokens[start]).value, start, start));
        }
        return Done(ParseToken(tokens[start]));
      }
      var ops := CollectOps(start, end);
      ghost var good, split := Sentence(parsed, items), Split(items);
      ghost var a, b := Junk(0, 0), Junk(0, 0);
      if good {
        Begins(tokens, parsed, start, end);
        if split.Some? {
          SplitSpells(items);
        }
        if split.None? {
          a, b :| Waiting(tokens, parsed, ops, a, b);
        }
      }
      ghost var headless := Headless(tokens, parsed, start, end);
      ghost var head := HeadIsWaiting(tokens, parsed, start, end);
      OpsAreSound(tokens, parsed, start, end);
      while ops != []
        invariant headless ==> head in ops
        invariant ValidHeap(tokens, parsed, ops)
        invariant good ==> Line(items) && HeapOf(ops, items, parsed)
        invariant good && split.Some? ==>
          && InOrder(split.value) == items && Respects(split.value) && First(split.value) == start
              && Last(split.value) == end - 1
          && Holds(tokens, parsed, split.value, Remaining(ops)) && SameOutside(old(parsed), parsed, start, end)
        invariant good && split.None? ==> Waiting(tokens, parsed, ops, a, b)
        decreases |ops|
      {
        var op, rest := PopLeast(ops);
        if good && split.Some? {
          StepFits(tokens, parsed, items, split.value, ops, op, rest, start, end);
        }
        if good && split.None? {
          StepMisfits(tokens, parsed, ops, op, rest, a, b, start, end);
        }
        ghost var before := parsed;
        var failure := ReduceOne(op, start, end);
        if failure.Some? {
          return failure.value;
        }
        HeapGoesOn(tokens, before, parsed, items, ops, rest);
        ops := rest;
      }
      if headless {
        assert false;
      }
      if good && split.None? {
        assert false by { NobodyWaits(tokens, parsed, a, b); }
      }
      if good && split.Some? {
        assert Remaining([]) == {} by { NothingRemains(); }
        Finished(tokens, parsed, split.value);
      }
      r := WholeRange(start, end);
    }

    /** What stands for the whole range once no operator is left. */
    method WholeRange(start: nat, end: nat) returns (r: Outcome)
      requires start <= end
      ensures start in parsed && parsed[start].otherEnd == end - 1 ==> r == Done(parsed[start].node)
      ensures !(start in parsed && parsed[start].otherEnd == end - 1) ==> IsError(r)
    {
      if start in parsed {
        if parsed[start].otherEnd == end - 1 {
          return Done(parsed[start].node);
        }
        for i := start to end {
          if i !in parsed {
            return Orphan(i);
          }
        }
        return Inconsistent;
      }
      return Orphan(start);
    }
  }

  ghost predicate SameOutside(parsed: Parsed, parsed': Parsed, start: nat, end: nat) {
    forall k :: !(start <= k < end) ==> (k in parsed <==> k in parsed') && (k in parsed ==> parsed[k] == parsed'[k])
  }

  ghost predicate ValidHeap(tokens: seq<Token>, parsed: Parsed, ops: seq<OpToken>) {
    && (forall o :: o in ops ==> o.index < |tokens| && (o.op == ArrayAccess ==> o.index in parsed))
    && (forall a, b :: 0 <= a < b < |ops| ==> ops[a].index != ops[b].index)
  }

  lemma HeapGoesOn(tokens: seq<Token>, parsed: Parsed, parsed': Parsed, items: seq<Item>, ops: seq<OpToken>,
                   rest: seq<OpToken>)
    requires forall k :: k in parsed ==> k in parsed'
    requires ValidHeap(tokens, parsed, ops) && forall o :: o in rest ==> o in ops
    requires forall a, b :: 0 <= a < b < |rest| ==> rest[a].index != rest[b].index
    ensures ValidHeap(tokens, parsed', rest)
    ensures HeapOf(ops, items, parsed) ==> HeapOf(rest, items, parsed')
  {
  }

  lemma {:induction false} OpsAreSound(tokens: seq<Token>, parsed: Parsed, i: nat, end: nat)
    requires end <= |tokens| && Scannable(tokens, parsed, i, end)
    ensures ValidHeap(tokens, parsed, ScanOps(tokens, parsed, i, end))
    ensures forall o :: o in ScanOps(tokens, parsed, i, end) ==> i <= o.index
    decreases end - i
  {
    if i < end {
      OpsAreSound(tokens, parsed, if i in parsed then parsed[i].otherEnd + 1 else i + 1, end);
    }
  }

  lemma EmptyRange(tokens: seq<Token>, parsed: Parsed, start: nat)
    requires start <= |tokens| && Scannable(tokens, parsed, start, start)
    ensures Read(tokens, parsed, start, start) == [] && !Sentence(parsed, [])
  {
  }

  lemma NobodyWaits(tokens: seq<Token>, parsed: Parsed, a: Item, b: Item)
    ensures !Waiting(tokens, parsed, [], a, b)
  {
  }

  lemma NothingRemains()
    ensures Remaining([]) == {}
  {
  }
}
