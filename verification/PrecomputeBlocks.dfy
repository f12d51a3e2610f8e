/** Loop-free code with nested option selects: its meaning, and what the generator makes of it. */
module PrecomputeBlocks {
  import opened Ir
  import opened Options
  import opened Precompute
  import opened PrecomputeSimple

  /** An if statement as it reaches the generator: the list of variables it may change, the instructions of its
      test, the variable tested, and the branches, each with the list of its own; without an else, els, elsList and end
      mean nothing. */
  datatype Item =
    | Do(i: Inst)
    | Select(list: nat, test: seq<Item>, cond: nat, thn: seq<Item>, thnList: nat, otherwise: Label,
             hasElse: bool, els: seq<Item>, elsList: nat, end: Label)

  /** The instructions themselves. */
  function Flatten(items: seq<Item>): seq<Inst>
    decreases items
  {
    if items == [] then [] else FlattenItem(items[0]) + Flatten(items[1..])
  }

  function FlattenItem(item: Item): seq<Inst>
    decreases item
  {
    match item
    case Do(i) => [i]
    case Select(list, test, cond, thn, thnList, otherwise, hasElse, els, elsList, end) =>
      [OptionSelectStart(list)] + Flatten(test) + [JumpIf(false, false, cond, otherwise)] + Flatten(thn)
          + [OptionEnd(thnList)]
      + if hasElse then [Jump(end)] + [LabelAt(otherwise)] + Flatten(els) + [OptionEnd(elsList)] + [OptionSelectEnd]
          + [LabelAt(end)]
        else [OptionSelectEnd] + [LabelAt(otherwise)]
  }

  predicate AllSupported(items: seq<Item>)
    decreases items
  {
    items == [] || (SupportedItem(items[0]) && AllSupported(items[1..]))
  }

  predicate SupportedItem(item: Item)
    decreases item
  {
    match item
    case Do(i) => Supported(i)
    case Select(_, test, _, thn, _, _, hasElse, els, _, _) =>
      AllSupported(test) && AllSupported(thn) && (hasElse ==> AllSupported(els))
  }

  // ----- Meaning -----

  function Exec(w: World, items: seq<Item>, store: Store): Option<Store>
    requires AllSupported(items)
    decreases items
  {
    if items == [] then Some(store)
    else match ExecItem(w, items[0], store) { case None => None case Some(s) => Exec(w, items[1..], s) }
  }

  function ExecItem(w: World, item: Item, store: Store): Option<Store>
    requires SupportedItem(item)
    decreases item
  {
    match item
    case Do(i) => ExecInst(w, store, i)
    case Select(_, test, cond, thn, _, _, hasElse, els, _, _) =>
      match Exec(w, test, store)
      case None => None
      case Some(s) =>
        if cond !in s || !s[cond].Bool? then None
        else if s[cond].b then Exec(w, thn, s)
        else if hasElse then Exec(w, els, s)
        else Some(s)
  }

  // ----- What the generator makes of it -----

  function Listed(lists: seq<seq<nat>>, list: nat): seq<nat> {
    if list < |lists| then lists[list] else []
  }

  function After(t: Table, lists: seq<seq<nat>>, items: seq<Item>): Table
    decreases items
  {
    if items == [] then t else After(AfterItem(t, lists, items[0]), lists, items[1..])
  }

  function AfterItem(t: Table, lists: seq<seq<nat>>, item: Item): Table
    decreases item
  {
    match item
    case Do(i) => GenSimple(t, i).table
    case Select(list, test, _, thn, _, _, hasElse, els, _, _) =>
      var saved := Saved(t, Listed(lists, list));
      var t1 := Restored(After(After(t, lists, test), lists, thn), saved);
      if hasElse then Forgotten(Restored(After(t1, lists, els), saved), saved) else Forgotten(t1, saved)
  }

  function CodeOf(t: Table, lists: seq<seq<nat>>, items: seq<Item>): seq<Residual>
    decreases items
  {
    if items == [] then []
        else CodeOfItem(t, lists, items[0]) + CodeOf(AfterItem(t, lists, items[0]), lists, items[1..])
  }

  function Branch(t: Table, cond: nat, otherwise: Label): seq<Residual> {
    GenSimple(t, JumpIf(false, false, cond, otherwise)).code
  }

  function CodeOfItem(t: Table, lists: seq<seq<nat>>, item: Item): seq<Residual>
    decreases item
  {
    match item
    case Do(i) => GenSimple(t, i).code
    case Select(list, test, cond, thn, _, otherwise, hasElse, els, _, end) =>
      var saved := Saved(t, Listed(lists, list));
      var t1 := After(t, lists, test);
      var t2 := After(t1, lists, thn);
      Moves(t, saved) + CodeOf(t, lists, test) + Branch(t1, cond, otherwise) + CodeOf(t1, lists, thn) + Moves(t2, saved)
      + if !hasElse then [Run(LabelAt(otherwise))]
        else
          var t3 := Restored(t2, saved);
          [Run(Jump(end))] + [Run(LabelAt(otherwise))] + CodeOf(t3, lists, els) + Moves(After(t3, lists, els), saved)
              + [Run(LabelAt(end))]
  }

  lemma GenOne(g: Gen, lists: seq<seq<nat>>, i: Inst)
    ensures GenAll(g, lists, [i]) == GenInst(g, lists, i)
  {
    assert [i][..0] == [];
    assert GenAll(g, lists, []) == Generated(g, []);
    assert [] + GenInst(g, lists, i).code == GenInst(g, lists, i).code;
  }

  lemma JumpsGenerate(t: Table, i: Inst)
    requires i.Jump? || i.LabelAt? || i.JumpIf?
    ensures GenSimple(t, i).table == t
    ensures !i.JumpIf? ==> GenSimple(t, i).code == [Run(i)]
  {
    assert [] + [Run(i)] == [Run(i)];
  }

  /** Generating code for the instructions of a block goes through the block's structure. */
  lemma {:induction false} GenFlatten(t: Table, selects: seq<seq<VarInfo>>, lists: seq<seq<nat>>, items: seq<Item>)
    requires AllSupported(items)
    ensures GenAll(Gen(t, selects), lists, Flatten(items)) ==
        Generated(Gen(After(t, lists, items), selects), CodeOf(t, lists, items))
    decreases items
  {
    hide GenInst, GenAll, FlattenItem, CodeOfItem, AfterItem, SupportedItem;
    if items == [] {
      GenNone(Gen(t, selects), lists);
    } else {
      GenFlattenItem(t, selects, lists, items[0]);
      GenFlatten(AfterItem(t, lists, items[0]), selects, lists, items[1..]);
      GenAllConcat(Gen(t, selects), lists, FlattenItem(items[0]), Flatten(items[1..]));
    }
  }

  lemma GenNone(g: Gen, lists: seq<seq<nat>>)
    ensures GenAll(g, lists, []) == Generated(g, [])
  {
  }

  /** One more instruction. */
  lemma GenMore(g: Gen, lists: seq<seq<nat>>, a: seq<Inst>, i: Inst, mid: Gen, code: seq<Residual>)
    requires GenAll(g, lists, a) == Generated(mid, code)
    ensures GenAll(g, lists, a + [i]) == Generated(GenInst(mid, lists, i).gen, code + GenInst(mid, lists, i).code)
  {
    hide GenInst, GenAll;
    GenAllConcat(g, lists, a, [i]);
    GenOne(mid, lists, i);
  }

  lemma {:induction false} GenFlattenItem(t: Table, selects: seq<seq<VarInfo>>, lists: seq<seq<nat>>, item: Item)
    requires SupportedItem(item)
    ensures GenAll(Gen(t, selects), lists, FlattenItem(item)) ==
            Generated(Gen(AfterItem(t, lists, item), selects), CodeOfItem(t, lists, item))
    decreases item
  {
    hide GenAll, GenSimple, Saved, Moves, Restored, Forgotten;
    if item.Do? {
      GenOne(Gen(t, selects), lists, item.i);
    } else {
      GenThen(t, selects, lists, item);
      var saved := Saved(t, Listed(lists, item.list));
      var t3 := Restored(After(After(t, lists, item.test), lists, item.thn), saved);
      var g := Gen(t, selects);
      var head, code := ThenInsts(item), ThenCode(t, lists, item);
      if !item.hasElse {
        GenMore(g, lists, head, OptionSelectEnd, Gen(t3, selects + [saved]), code);
        JumpsGenerate(Forgotten(t3, saved), LabelAt(item.otherwise));
        GenMore(g, lists, head + [OptionSelectEnd], LabelAt(item.otherwise), Gen(Forgotten(t3, saved), selects),
            code + []);
        assert FlattenItem(item) == head + [OptionSelectEnd] + [LabelAt(item.otherwise)];
        assert CodeOfItem(t, lists, item) == code + [] + [Run(LabelAt(item.otherwise))];
      } else {
        GenElse(t3, t, selects, lists, item);
        GenAllConcat(g, lists, head, ElseInsts(item));
        assert FlattenItem(item) == head + ElseInsts(item);
        assert CodeOfItem(t, lists, item) == code + ElseCode(t3, lists, item, saved);
      }
    }
  }

  function ThenInsts(item: Item): seq<Inst>
    requires item.Select?
  {
    [OptionSelectStart(item.list)] + Flatten(item.test) + [JumpIf(false, false, item.cond, item.otherwise)]
        + Flatten(item.thn)
    + [OptionEnd(item.thnList)]
  }

  function ThenCode(t: Table, lists: seq<seq<nat>>, item: Item): seq<Residual>
    requires item.Select?
  {
    var saved := Saved(t, Listed(lists, item.list));
    var t1 := After(t, lists, item.test);
    Moves(t, saved) + CodeOf(t, lists, item.test) + Branch(t1, item.cond, item.otherwise) + CodeOf(t1, lists, item.thn)
    + Moves(After(t1, lists, item.thn), saved)
  }

  function ElseInsts(item: Item): seq<Inst>
    requires item.Select?
  {
    [Jump(item.end)] + [LabelAt(item.otherwise)] + Flatten(item.els) + [OptionEnd(item.elsList)] + [OptionSelectEnd]
        + [LabelAt(item.end)]
  }

  function ElseCode(t: Table, lists: seq<seq<nat>>, item: Item, saved: seq<VarInfo>): seq<Residual>
    requires item.Select?
  {
    [Run(Jump(item.end))] + [Run(LabelAt(item.otherwise))] + CodeOf(t, lists, item.els)
        + Moves(After(t, lists, item.els), saved)
    + [Run(LabelAt(item.end))]
  }

  lemma {:induction false} GenThen(t: Table, selects: seq<seq<VarInfo>>, lists: seq<seq<nat>>, item: Item)
    requires item.Select? && SupportedItem(item)
    ensures var saved := Saved(t, Listed(lists, item.list));
            GenAll(Gen(t, selects), lists, ThenInsts(item)) ==
            Generated(Gen(Restored(After(After(t, lists, item.test), lists, item.thn), saved), selects + [saved]),
                ThenCode(t, lists, item))
    decreases item, 0
  {
    hide GenAll, GenSimple, Saved, Moves, Restored, Forgotten, Flatten, CodeOf, After;
    var g := Gen(t, selects);
    var saved := Saved(t, Listed(lists, item.list));
    var inner := selects + [saved];
    var t1 := After(t, lists, item.test);
    var start, jump := [OptionSelectStart(item.list)], JumpIf(false, false, item.cond, item.otherwise);
    GenOne(g, lists, OptionSelectStart(item.list));
    GenFlatten(t, inner, lists, item.test);
    GenAllConcat(g, lists, start, Flatten(item.test));
    JumpsGenerate(t1, jump);
    GenMore(g, lists, start + Flatten(item.test), jump, Gen(t1, inner), Moves(t, saved) + CodeOf(t, lists, item.test));
    GenFlatten(t1, inner, lists, item.thn);
    GenAllConcat(g, lists, start + Flatten(item.test) + [jump], Flatten(item.thn));
    GenMore(g, lists, start + Flatten(item.test) + [jump] + Flatten(item.thn), OptionEnd(item.thnList),
        Gen(After(t1, lists, item.thn), inner),
            Moves(t, saved) + CodeOf(t, lists, item.test) + Branch(t1, item.cond, item.otherwise)
            + CodeOf(t1, lists, item.thn));
  }

  lemma {:induction false} GenElse(t: Table, t0: Table, selects: seq<seq<VarInfo>>, lists: seq<seq<nat>>, item: Item)
    requires item.Select? && item.hasElse && AllSupported(item.els)
    ensures var saved := Saved(t0, Listed(lists, item.list));
            GenAll(Gen(t, selects + [saved]), lists, ElseInsts(item)) ==
            Generated(Gen(Forgotten(Restored(After(t, lists, item.els), saved), saved), selects),
                ElseCode(t, lists, item, saved))
    decreases item, 0
  {
    hide GenAll, GenSimple, Saved, Moves, Restored, Forgotten, Flatten, CodeOf, After;
    var saved := Saved(t0, Listed(lists, item.list));
    var inner := selects + [saved];
    var g := Gen(t, inner);
    var t1 := After(t, lists, item.els);
    var t2 := Restored(t1, saved);
    JumpsGenerate(t, Jump(item.end));
    JumpsGenerate(t, LabelAt(item.otherwise));
    JumpsGenerate(Forgotten(t2, saved), LabelAt(item.end));
    var a, ra := [Jump(item.end)] + [LabelAt(item.otherwise)], [Run(Jump(item.end))] + [Run(LabelAt(item.otherwise))];
    GenOne(g, lists, Jump(item.end));
    GenMore(g, lists, [Jump(item.end)], LabelAt(item.otherwise), g, [Run(Jump(item.end))]);
    GenFlatten(t, inner, lists, item.els);
    GenAllConcat(g, lists, a, Flatten(item.els));
    var b, rb := a + Flatten(item.els), ra + CodeOf(t, lists, item.els);
    GenMore(g, lists, b, OptionEnd(item.elsList), Gen(t1, inner), rb);
    GenMore(g, lists, b + [OptionEnd(item.elsList)], OptionSelectEnd, Gen(t2, inner), rb + Moves(t1, saved));
    assert rb + Moves(t1, saved) + [] == rb + Moves(t1, saved);
    GenMore(g, lists, b + [OptionEnd(item.elsList)] + [OptionSelectEnd], LabelAt(item.end),
        Gen(Forgotten(t2, saved), selects), rb + Moves(t1, saved));
  }
}
