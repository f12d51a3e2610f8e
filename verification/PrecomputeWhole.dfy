/** The code that is left, against the code it is left of. */
module PrecomputeWhole {
  import opened Ir
  import opened Options
  import opened Precompute
  import opened PrecomputeSimple
  import opened PrecomputeBlocks
  import opened PrecomputeSound
  import E = ExprLowering
  import S = Simulation

  // ----- The instructions run as the block means -----

  lemma InstRuns(w: World, program: seq<Inst>, p: nat, i: Inst, store: Store)
    requires Ir.At(program, p, [i]) && Supported(i) && ExecInst(w, store, i).Some?
    ensures E.Goes(w, program, p, store, [], 1, p + 1, ExecInst(w, store, i).value, [])
  {
    var n := E.OneStep(w, program, p, i, store, [], ExecInst(w, store, i).value, []);
  }

  lemma {:induction false} BlockRuns(w: World, program: seq<Inst>, p: nat, items: seq<Item>,
                                     store: Store) returns (n: nat)
    requires UniqueLabels(program) && Ir.At(program, p, Flatten(items)) && AllSupported(items)
        && Exec(w, items, store).Some?
    ensures E.Goes(w, program, p, store, [], n, p + |Flatten(items)|, Exec(w, items, store).value, [])
    decreases items
  {
    hide UniqueLabels, Ir.At, E.Goes, FlattenItem, ExecItem, SupportedItem;
    if items == [] {
      S.StartsHere(w, program, p, store, []);
      n := 0;
    } else {
      var code := FlattenItem(items[0]);
      var store1 := ExecItem(w, items[0], store).value;
      AtParts(program, p, code, Flatten(items[1..]));
      var n1 := ItemRuns(w, program, p, items[0], store);
      var n2 := BlockRuns(w, program, p + |code|, items[1..], store1);
      E.GoesOn(w, program, p, store, [], n1, p + |code|, store1, [], n2, p + |code| + |Flatten(items[1..])|,
          Exec(w, items, store).value, []);
      n := n1 + n2;
    }
  }

  lemma {:induction false} ItemRuns(w: World, program: seq<Inst>, p: nat, item: Item, store: Store) returns (n: nat)
    requires UniqueLabels(program) && Ir.At(program, p, FlattenItem(item)) && SupportedItem(item)
        && ExecItem(w, item, store).Some?
    ensures E.Goes(w, program, p, store, [], n, p + |FlattenItem(item)|, ExecItem(w, item, store).value, [])
    decreases item, 1
  {
    hide UniqueLabels, Ir.At, E.Goes, ExecInst;
    if item.Do? {
      InstRuns(w, program, p, item.i, store);
      n := 1;
    } else {
      n := SelectRuns(w, program, p, item, store);
    }
  }

  /** The pieces of a select's instructions. */
  lemma InstsShape(program: seq<Inst>, p: nat, item: Item)
    requires item.Select? && UniqueLabels(program) && Ir.At(program, p, FlattenItem(item))
    ensures var p1 := p + 1; var p2 := p1 + |Flatten(item.test)|; var p3 := p2 + 1; var p4 := p3 + |Flatten(item.thn)|;
        var p5 := p4 + 1;
      && Ir.At(program, p, [OptionSelectStart(item.list)]) && Ir.At(program, p1, Flatten(item.test))
      && Ir.At(program, p2, [JumpIf(false, false, item.cond, item.otherwise)]) && Ir.At(program, p3, Flatten(item.thn))
      && Ir.At(program, p4, [OptionEnd(item.thnList)])
      && (!item.hasElse ==>
            && Ir.At(program, p5, [OptionSelectEnd]) && Ir.At(program, p5 + 1, [LabelAt(item.otherwise)])
            && Find(program, item.otherwise) == Some(p5 + 1) && p + |FlattenItem(item)| == p5 + 2)
      && (item.hasElse ==>
            var p6 := p5 + 2 + |Flatten(item.els)|;
            && Ir.At(program, p5, [Jump(item.end)]) && Ir.At(program, p5 + 1, [LabelAt(item.otherwise)])
            && Find(program, item.otherwise) == Some(p5 + 1) && Ir.At(program, p5 + 2, Flatten(item.els))
            && Ir.At(program, p6, [OptionEnd(item.elsList)]) && Ir.At(program, p6 + 1, [OptionSelectEnd])
            && Ir.At(program, p6 + 2, [LabelAt(item.end)]) && Find(program, item.end) == Some(p6 + 2)
                && p + |FlattenItem(item)| == p6 + 3)
  {
    hide UniqueLabels, Ir.At, Find, Flatten;
    var a, b, c, d, e := [OptionSelectStart(item.list)], Flatten(item.test),
        [JumpIf(false, false, item.cond, item.otherwise)], Flatten(item.thn),
                         [OptionEnd(item.thnList)];
    var head, mark := a + b + c + d + e, [LabelAt(item.otherwise)];
    if item.hasElse {
      var tail := ElseInsts(item);
      assert FlattenItem(item) == head + tail;
      AtParts(program, p, head, tail);
      ElseShape(program, p + |head|, item);
    } else {
      assert FlattenItem(item) == head + ([OptionSelectEnd] + mark);
      AtParts(program, p, head, [OptionSelectEnd] + mark);
      AtParts(program, p + |head|, [OptionSelectEnd], mark);
      FindsIt(program, p + |head| + 1, item.otherwise);
    }
    AtParts(program, p, a + b + c + d, e);
    AtParts(program, p, a + b + c, d);
    AtParts(program, p, a + b, c);
    AtParts(program, p, a, b);
  }

  lemma ElseShape(program: seq<Inst>, p: nat, item: Item)
    requires item.Select? && UniqueLabels(program) && Ir.At(program, p, ElseInsts(item))
    ensures var p6 := p + 2 + |Flatten(item.els)|;
      && Ir.At(program, p, [Jump(item.end)]) && Ir.At(program, p + 1, [LabelAt(item.otherwise)])
      && Find(program, item.otherwise) == Some(p + 1) && Ir.At(program, p + 2, Flatten(item.els))
      && Ir.At(program, p6, [OptionEnd(item.elsList)]) && Ir.At(program, p6 + 1, [OptionSelectEnd])
      && Ir.At(program, p6 + 2, [LabelAt(item.end)]) && Find(program, item.end) == Some(p6 + 2)
          && |ElseInsts(item)| == 5 + |Flatten(item.els)|
  {
    hide UniqueLabels, Ir.At, Find, Flatten;
    var a, b, c := [Jump(item.end)], [LabelAt(item.otherwise)], Flatten(item.els);
    var d, e, f := [OptionEnd(item.elsList)], [OptionSelectEnd], [LabelAt(item.end)];
    AtParts(program, p, a + b + c + d + e, f);
    AtParts(program, p, a + b + c + d, e);
    AtParts(program, p, a + b + c, d);
    AtParts(program, p, a + b, c);
    AtParts(program, p, a, b);
    FindsIt(program, p + 1, item.otherwise);
    FindsIt(program, p + |a + b + c + d + e|, item.end);
  }

  lemma {:induction false} SelectRuns(w: World, program: seq<Inst>, p: nat, item: Item, store: Store) returns (n: nat)
    requires item.Select? && UniqueLabels(program) && Ir.At(program, p, FlattenItem(item)) && SupportedItem(item)
        && ExecItem(w, item, store).Some?
    ensures E.Goes(w, program, p, store, [], n, p + |FlattenItem(item)|, ExecItem(w, item, store).value, [])
    decreases item, 0
  {
    hide UniqueLabels, Ir.At, E.Goes, Flatten, Exec, AllSupported, Find, FlattenItem;
    InstsShape(program, p, item);
    var p1, s := p + 1, Exec(w, item.test, store).value;
    var p2 := p1 + |Flatten(item.test)|;
    var p5 := p2 + 1 + |Flatten(item.thn)| + 1;
    var end, jump := p + |FlattenItem(item)|, JumpIf(false, false, item.cond, item.otherwise);
    S.MarkerRuns(w, program, p, OptionSelectStart(item.list), store, []);
    var n1 := BlockRuns(w, program, p1, item.test, store);
    E.GoesOn(w, program, p, store, [], 1, p1, store, [], n1, p2, s, []);
    if s[item.cond].b {
      var s' := Exec(w, item.thn, s).value;
      var n2 := E.JumpNotTaken(w, program, p2, jump, s, []);
      var n3 := BlockRuns(w, program, p2 + 1, item.thn, s);
      S.MarkerRuns(w, program, p5 - 1, OptionEnd(item.thnList), s', []);
      E.GoesOn(w, program, p, store, [], 1 + n1, p2, s, [], n2, p2 + 1, s, []);
      E.GoesOn(w, program, p, store, [], 1 + n1 + n2, p2 + 1, s, [], n3, p5 - 1, s', []);
      E.GoesOn(w, program, p, store, [], 1 + n1 + n2 + n3, p5 - 1, s', [], 1, p5, s', []);
      var n4 := LeavesThen(w, program, p5, end, item, s');
      E.GoesOn(w, program, p, store, [], 1 + n1 + n2 + n3 + 1, p5, s', [], n4, end, s', []);
      n := 1 + n1 + n2 + n3 + 1 + n4;
    } else {
      var q := p5 + 1;
      E.JumpTaken(w, program, p2, jump, q, s, []);
      E.GoesOn(w, program, p, store, [], 1 + n1, p2, s, [], 1, q, s, []);
      S.MarkerRuns(w, program, q, LabelAt(item.otherwise), s, []);
      E.GoesOn(w, program, p, store, [], 1 + n1 + 1, q, s, [], 1, q + 1, s, []);
      n := 1 + n1 + 2;
      if item.hasElse {
        var s' := Exec(w, item.els, s).value;
        var n2 := BlockRuns(w, program, q + 1, item.els, s);
        var p6 := q + 1 + |Flatten(item.els)|;
        E.GoesOn(w, program, p, store, [], n, q + 1, s, [], n2, p6, s', []);
        S.MarkerRuns(w, program, p6, OptionEnd(item.elsList), s', []);
        S.MarkerRuns(w, program, p6 + 1, OptionSelectEnd, s', []);
        S.MarkerRuns(w, program, p6 + 2, LabelAt(item.end), s', []);
        E.GoesOn(w, program, p, store, [], n + n2, p6, s', [], 1, p6 + 1, s', []);
        E.GoesOn(w, program, p, store, [], n + n2 + 1, p6 + 1, s', [], 1, p6 + 2, s', []);
        E.GoesOn(w, program, p, store, [], n + n2 + 2, p6 + 2, s', [], 1, p6 + 3, s', []);
        n := n + n2 + 3;
      }
    }
  }

  lemma LeavesThen(w: World, program: seq<Inst>, p: nat, end: nat, item: Item, store: Store) returns (n: nat)
    requires item.Select?
    requires !item.hasElse ==>
        Ir.At(program, p, [OptionSelectEnd]) && Ir.At(program, p + 1, [LabelAt(item.otherwise)]) && end == p + 2
    requires item.hasElse ==>
        Ir.At(program, p, [Jump(item.end)]) && end > 0 && Ir.At(program, end - 1, [LabelAt(item.end)])
                              && Find(program, item.end) == Some(end - 1)
    ensures E.Goes(w, program, p, store, [], n, end, store, [])
  {
    hide Ir.At, E.Goes, Find;
    n := 2;
    if item.hasElse {
      S.JumpRuns(w, program, p, item.end, end - 1, store, []);
      S.MarkerRuns(w, program, end - 1, LabelAt(item.end), store, []);
      E.GoesOn(w, program, p, store, [], 1, end - 1, store, [], 1, end, store, []);
    } else {
      S.MarkerRuns(w, program, p, OptionSelectEnd, store, []);
      S.MarkerRuns(w, program, p + 1, LabelAt(item.otherwise), store, []);
      E.GoesOn(w, program, p, store, [], 1, p + 1, store, [], 1, p + 2, store, []);
    }
  }

  // ----- Labels survive -----

  predicate IsMark(r: Residual) { r.Run? && r.i.LabelAt? }

  lemma GenLabels(g: Gen, lists: seq<seq<nat>>, i: Inst)
    ensures var code := GenInst(g, lists, i).code;
      forall r :: r in code && IsMark(r) ==> r.i == i && |code| == 1
  {
    hide AllInputsKnown, CanPrecompute, AnyKnown, Precomputed, Saved, Moves, Restored, Forgotten, Wrap, BitAnd, BitOr,
        Compares;
    if i.OptionSelectStart? {
      MovesAreMoves(g.table, Saved(g.table, if i.list < |lists| then lists[i.list] else []));
    } else if i.OptionEnd? && g.selects != [] {
      MovesAreMoves(g.table, g.selects[|g.selects| - 1]);
    } else if i.LabelAt? {
      assert !AllInputsKnown(g.table, i) || !CanPrecompute(g.table, i) by { JumpsGenerate(g.table, i); }
      JumpsGenerate(g.table, i);
    }
  }

  lemma {:induction false} MovesAreMoves(t: Table, saved: seq<VarInfo>)
    ensures forall r :: r in Moves(t, saved) ==> r.Mov?
  {
    if saved != [] {
      MovesAreMoves(t, saved[..|saved| - 1]);
    }
  }

  lemma {:induction false} MarksUnique(g: Gen, lists: seq<seq<nat>>, insts: seq<Inst>)
    requires UniqueLabels(insts)
    ensures UniqueMarks(GenAll(g, lists, insts).code)
    ensures forall r :: r in GenAll(g, lists, insts).code && IsMark(r) ==> r.i in insts
    decreases |insts|
  {
    hide GenInst;
    if insts != [] {
      var n := |insts| - 1;
      var before := GenAll(g, lists, insts[..n]);
      var last := GenInst(before.gen, lists, insts[n]);
      MarksUnique(g, lists, insts[..n]);
      GenLabels(before.gen, lists, insts[n]);
      MarksJoin(before.code, last.code, insts, n);
    }
  }

  lemma MarksJoin(a: seq<Residual>, b: seq<Residual>, insts: seq<Inst>, n: nat)
    requires n + 1 == |insts| && UniqueLabels(insts) && UniqueMarks(a)
    requires forall r :: r in a && IsMark(r) ==> r.i in insts[..n]
    requires forall r :: r in b && IsMark(r) ==> r.i == insts[n] && |b| == 1
    ensures UniqueMarks(a + b) && forall r :: r in a + b && IsMark(r) ==> r.i in insts
  {
    var c := a + b;
    forall i, j | 0 <= i < j < |c| && IsMark(c[i]) && IsMark(c[j]) ensures c[i].i.target != c[j].i.target {
      if j >= |a| {
        assert c[j] == b[j - |a|] && c[j] in b;
        if i < |a| {
          assert c[i] in a;
          var k :| 0 <= k < n && insts[..n][k] == c[i].i;
        }
      }
    }
  }

  // ----- The theorem -----

  /** Loop-free code and the code generated for it, started with the same values of the variables in scope: when the
      first comes to its end, so does the second, and every variable in scope then has its value in the table or at run
      time. */
  lemma PartialEvaluationSound(w: World, call: (string, seq<Value>, seq<Event>) -> Value, lists: seq<seq<nat>>,
                               scope: set<nat>, t: Table,
                               items: seq<Item>, store: Store, words: map<nat, int>)
    returns (n: nat, m: nat, store': Store, words': map<nat, int>)
    requires w == Words(call) && UniqueLabels(Flatten(items))
    requires (forall v :: v in scope ==> v < |t|) && Scoped(|t|, lists, scope, items) && Guarded(t, lists, items)
    requires AllSupported(items) && Exec(w, items, store).Some? && AgreeOn(scope, t, store, words)
    ensures var program := Flatten(items); var made := GenAll(Gen(t, []), lists, program);
      && Steps(w, program, Running(0, store, []), n) == Running(|program|, store', [])
      && AdvanceBy(made.code, Here(0, words), m) == Here(|made.code|, words')
      && AgreeOn(ScopeAfter(scope, items), made.gen.table, store', words')
      && made.gen.selects == [] && store' == Exec(w, items, store).value
  {
    hide UniqueLabels, UniqueMarks, Ir.At, Sits, Flatten, CodeOf, After, Exec, GenAll, Scoped, Guarded, AllSupported,
        Words, AgreeOn, ScopeAfter,
      Touched, WordsElsewhere;
    var program, code := Flatten(items), CodeOf(t, lists, items);
    GenFlatten(t, [], lists, items);
    MarksUnique(Gen(t, []), lists, program);
    WholesSit(program, code);
    n := BlockRuns(w, program, 0, items, store);
    store' := Exec(w, items, store).value;
    m, words' := BlockSound(w, call, code, 0, |t|, lists, scope, t, items, store, words);
  }

  lemma WholesSit(program: seq<Inst>, code: seq<Residual>)
    ensures Ir.At(program, 0, program) && Sits(code, 0, code)
  {
  }
}
