/** When a select leaves nothing half known: if what it lists has been known before. */
module PrecomputeOnce {
  import opened Ir
  import opened Options
  import opened Precompute
  import opened PrecomputeSimple
  import opened PrecomputeBlocks
  import opened PrecomputeSound

  /** Results of comparisons, which become known whatever was known of them before. */
  function ComparedInto(items: seq<Item>): set<nat>
    decreases items
  {
    if items == [] then {} else ComparedIntoItem(items[0]) + ComparedInto(items[1..])
  }

  function ComparedIntoItem(item: Item): set<nat>
    decreases item
  {
    match item
    case Do(i) => if i.Compare? then {i.result} else {}
    case Select(_, test, _, thn, _, _, hasElse, els, _, _) =>
        ComparedInto(test) + ComparedInto(thn) + (if hasElse then ComparedInto(els) else {})
  }

  /** Every variable a select lists is marked as known before when the select starts, and is no result of a
      comparison in it. */
  predicate ListsOnce(t: Table, lists: seq<seq<nat>>, items: seq<Item>)
    decreases items
  {
    items == [] || (ListsOnceItem(t, lists, items[0]) && ListsOnce(AfterItem(t, lists, items[0]), lists, items[1..]))
  }

  predicate ListsOnceItem(t: Table, lists: seq<seq<nat>>, item: Item)
    decreases item
  {
    match item
    case Do(i) => !Panics(t, i) && !FoldsStale(t, i)
    case Select(list, test, _, thn, _, _, hasElse, els, _, _) =>
      var t1 := After(t, lists, test);
      && (forall v :: v in Listed(lists, list) ==> Get(t, v).once && v !in ComparedIntoItem(item))
      && ListsOnce(t, lists, test) && ListsOnce(t1, lists, thn)
      && (hasElse ==> ListsOnce(Restored(After(t1, lists, thn), Saved(t, Listed(lists, list))), lists, els))
  }

  /** Marked, and not known now. */
  predicate Spent(t: Table, v: nat) {
    Get(t, v).once && !Get(t, v).known
  }

  lemma {:induction false} StaysSpent(t: Table, lists: seq<seq<nat>>, items: seq<Item>, v: nat)
    requires AllSupported(items) && Spent(t, v) && v !in ComparedInto(items)
    ensures Spent(After(t, lists, items), v)
    decreases items
  {
    if items != [] {
      if items[0].Do? {
        SimpleStaysSpent(t, items[0].i, v);
      } else {
        SelectStaysSpent(t, lists, items[0], v);
      }
      StaysSpent(AfterItem(t, lists, items[0]), lists, items[1..], v);
    }
  }

  lemma SimpleStaysSpent(t: Table, i: Inst, v: nat)
    requires Supported(i) && Spent(t, v) && !(i.Compare? && i.result == v)
    ensures Spent(GenSimple(t, i).table, v)
  {
    hide AllInputsKnown, AnyKnown, Wrap, BitAnd, BitOr, Compares, ArithWords, PartialKnown;
    if OutOf(i) != v {
      SimpleElsewhere(t, i);
    }
  }

  lemma {:induction false} SelectStaysSpent(t: Table, lists: seq<seq<nat>>, item: Item, v: nat)
    requires item.Select? && SupportedItem(item) && Spent(t, v) && v !in ComparedIntoItem(item)
    ensures Spent(AfterItem(t, lists, item), v)
    decreases item
  {
    hide After, ComparedInto, Saved, Restored, Forgotten;
    var saved := Saved(t, Listed(lists, item.list));
    var t1 := After(t, lists, item.test);
    var t2 := After(t1, lists, item.thn);
    var t3 := Restored(t2, saved);
    SavedFacts(t, Listed(lists, item.list));
    StaysSpent(t, lists, item.test, v);
    StaysSpent(t1, lists, item.thn, v);
    RestoredElsewhere(t2, saved);
    RestoredElsewhere(t3, saved);
    if item.hasElse {
      StaysSpent(t3, lists, item.els, v);
      RestoredElsewhere(After(t3, lists, item.els), saved);
      RestoredElsewhere(Restored(After(t3, lists, item.els), saved), saved);
    }
  }

  /** Then no select leaves a variable known that it has not saved, so what holds for guarded code holds. */
  lemma {:induction false} OnceIsEnough(t: Table, lists: seq<seq<nat>>, items: seq<Item>)
    requires AllSupported(items) && ListsOnce(t, lists, items)
    ensures Guarded(t, lists, items)
    decreases items
  {
    if items != [] {
      if items[0].Select? {
        SelectIsGuarded(t, lists, items[0]);
      }
      OnceIsEnough(AfterItem(t, lists, items[0]), lists, items[1..]);
    }
  }

  lemma {:induction false} SelectIsGuarded(t: Table, lists: seq<seq<nat>>, item: Item)
    requires item.Select? && SupportedItem(item) && ListsOnceItem(t, lists, item)
    ensures GuardedItem(t, lists, item)
    decreases item
  {
    hide After, ComparedInto, Saved, Restored, Guarded, ListsOnce;
    var listed := Listed(lists, item.list);
    var saved := Saved(t, listed);
    var t1 := After(t, lists, item.test);
    var t2 := After(t1, lists, item.thn);
    var t3 := Restored(t2, saved);
    OnceIsEnough(t, lists, item.test);
    OnceIsEnough(t1, lists, item.thn);
    SavedFacts(t, listed);
    RestoredElsewhere(t2, saved);
    forall v | v in listed && !Get(t, v).known ensures Spent(t2, v) {
      StaysSpent(t, lists, item.test, v);
      StaysSpent(t1, lists, item.thn, v);
    }
    if item.hasElse {
      OnceIsEnough(t3, lists, item.els);
      forall v | v in listed && !Get(t, v).known ensures Spent(After(t3, lists, item.els), v) {
        StaysSpent(t3, lists, item.els, v);
      }
    }
  }

  // ----- Without it -----

  /** if c { x = 5 } for parameters x and c, variables 0 and 1; variable 2 holds the constant. */
  function AssignInBranch(): seq<Item> {
    [Select(0, [], 1, [Do(AssignImm(2, Int(5))), Do(Assign(0, 2))], 1, Label(Else, 0), false, [], 0, Label(Else, 0))]
  }

  /** The generator takes x for 5 from then on although the branch was not taken: x was never known before, so the
      select did not save it, and the first constant it is given makes it known. */
  lemma BranchLeaksOut(call: (string, seq<Value>, seq<Event>) -> Value)
    ensures var t, lists, scope := [NOTHING, NOTHING, NOTHING], [[0]], {0, 1};
      var store: Store, words: map<nat, int> := map[0 := Int(7), 1 := Bool(false)], map[0 := 7, 1 := 0];
      && Scoped(3, lists, scope, AssignInBranch()) && AgreeOn(scope, t, store, words)
          && !Guarded(t, lists, AssignInBranch())
      && AllSupported(AssignInBranch()) && Exec(Words(call), AssignInBranch(), store) == Some(store)
      && Get(After(t, lists, AssignInBranch()), 0).known && Get(After(t, lists, AssignInBranch()), 0).value == 5
  {
    var t, lists := [NOTHING, NOTHING, NOTHING], [[0]];
    var item := AssignInBranch()[0];
    LeakingTable(t, lists);
    LeakingScope(t, lists);
    assert AssignInBranch()[1..] == [];
    assert !NothingNew(After(t, lists, item.thn), [0], Saved(t, [0])) by {
      assert 0 in [0];
    }
    assert !GuardedItem(t, lists, item);
  }

  lemma LeakingTable(t: Table, lists: seq<seq<nat>>)
    requires t == [NOTHING, NOTHING, NOTHING] && lists == [[0]]
    ensures var item := AssignInBranch()[0];
      && Saved(t, [0]) == [] && After(t, lists, item.test) == t
      && After(t, lists, item.thn) == [Info(true, 5, true), NOTHING, Info(true, 5, true)]
      && After(t, lists, AssignInBranch()) == [Info(true, 5, true), NOTHING, Info(true, 5, true)]
  {
    var item := AssignInBranch()[0];
    var i, j := AssignImm(2, Int(5)), Assign(0, 2);
    var t1 := t[2 := Info(true, 5, true)];
    var t2 := t1[0 := Info(true, 5, true)];
    assert GenSimple(t, i).table == t1;
    assert AllInputsKnown(t1, j) && CanPrecompute(t1, j);
    assert GenSimple(t1, j).table == t2;
    assert item.thn[1..] == [Do(j)] && item.thn[1..][1..] == [];
    assert After(t1, lists, [Do(j)]) == After(t2, lists, []) == t2;
    assert After(t, lists, item.thn) == After(t1, lists, [Do(j)]);
    assert Saved(t, [0]) == [] by {
      assert [0][..0] == [];
      assert Saved(t, []) == [];
    }
    assert Restored(t2, []) == t2 && Forgotten(t2, []) == t2;
    assert AfterItem(t, lists, item) == t2;
    assert AssignInBranch()[1..] == [];
    assert After(t2, lists, []) == t2;
  }

  lemma LeakingScope(t: Table, lists: seq<seq<nat>>)
    requires t == [NOTHING, NOTHING, NOTHING] && lists == [[0]]
    ensures Scoped(3, lists, {0, 1}, AssignInBranch())
  {
    var item := AssignInBranch()[0];
    var i, j := AssignImm(2, Int(5)), Assign(0, 2);
    assert item.thn[1..] == [Do(j)] && [Do(j)][1..] == [] && AssignInBranch()[1..] == [];
    assert Scoped(3, lists, {0, 1, 2}, [Do(j)]);
    assert ScopeAfterItem({0, 1}, Do(i)) == {0, 1, 2};
    assert Scoped(3, lists, {0, 1}, item.thn);
    assert Touched(lists, [Do(j)]) == {0} + Touched(lists, []);
    assert Touched(lists, item.thn) == {2} + Touched(lists, [Do(j)]) == {0, 2};
    assert SetOf([0]) == {0};
    assert ScopedItem(3, lists, {0, 1}, item);
  }

  /** if c { x = (k == k) } computed straight into x, with x and c variables 0 and 1 and k variable 2, known to be 5. */
  function CompareInBranch(): seq<Item> {
    [Select(0, [], 1, [Do(Compare(AreEqual, 2, 2, 0))], 1, Label(Else, 0), false, [], 0, Label(Else, 0))]
  }

  /** Being marked does not stop a comparison: x becomes known in the branch although it has been known before, and the
      generator takes it for true from then on although the branch was not taken. */
  lemma ComparisonLeaksOut(call: (string, seq<Value>, seq<Event>) -> Value)
    ensures var t, lists, scope := [Info(false, 0, true), NOTHING, Info(true, 5, true)], [[0]], {0, 1, 2};
      var store: Store, words: map<nat, int> := map[0 := Bool(false), 1 := Bool(false), 2 := Int(5)],
          map[0 := 0, 1 := 0];
      && Scoped(3, lists, scope, CompareInBranch()) && AgreeOn(scope, t, store, words)
          && !Guarded(t, lists, CompareInBranch())
      && (forall v :: v in lists[0] ==> Get(t, v).once)
      && AllSupported(CompareInBranch()) && Exec(Words(call), CompareInBranch(), store) == Some(store)
      && Get(After(t, lists, CompareInBranch()), 0).known && Get(After(t, lists, CompareInBranch()), 0).value == 1
  {
    var t, lists := [Info(false, 0, true), NOTHING, Info(true, 5, true)], [[0]];
    var item := CompareInBranch()[0];
    ComparingTable(t, lists);
    ComparingScope(lists);
    assert CompareInBranch()[1..] == [];
    assert !NothingNew(After(t, lists, item.thn), [0], Saved(t, [0])) by {
      assert 0 in [0];
    }
    assert !GuardedItem(t, lists, item);
  }

  lemma ComparingTable(t: Table, lists: seq<seq<nat>>)
    requires t == [Info(false, 0, true), NOTHING, Info(true, 5, true)] && lists == [[0]]
    ensures var item := CompareInBranch()[0];
      && Saved(t, [0]) == [] && After(t, lists, item.test) == t
      && After(t, lists, item.thn) == [Info(true, 1, true), NOTHING, Info(true, 5, true)]
      && After(t, lists, CompareInBranch()) == [Info(true, 1, true), NOTHING, Info(true, 5, true)]
  {
    var item, i := CompareInBranch()[0], Compare(AreEqual, 2, 2, 0);
    var t1 := t[0 := Info(true, 1, true)];
    assert AllInputsKnown(t, i) && CanPrecompute(t, i);
    assert GenSimple(t, i).table == t1;
    assert item.thn[1..] == [] && CompareInBranch()[1..] == [];
    assert After(t, lists, item.thn) == After(t1, lists, []) == t1;
    assert Saved(t, [0]) == [] by {
      assert [0][..0] == [];
      assert Saved(t, []) == [];
    }
    assert Restored(t1, []) == t1 && Forgotten(t1, []) == t1;
    assert AfterItem(t, lists, item) == t1;
    assert After(t1, lists, []) == t1;
  }

  lemma ComparingScope(lists: seq<seq<nat>>)
    requires lists == [[0]]
    ensures Scoped(3, lists, {0, 1, 2}, CompareInBranch())
  {
    var item, i := CompareInBranch()[0], Compare(AreEqual, 2, 2, 0);
    assert item.thn[1..] == [] && CompareInBranch()[1..] == [];
    assert Scoped(3, lists, {0, 1, 2}, item.thn);
    assert Touched(lists, item.thn) == {0} + Touched(lists, []);
    assert SetOf([0]) == {0};
    assert ScopedItem(3, lists, {0, 1, 2}, item);
  }
}
