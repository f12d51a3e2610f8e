/** An if without else: exactly when all inputs go right. */
module PrecomputeExact {
  import opened Ir
  import opened Options
  import opened Precompute
  import opened PrecomputeSimple
  import opened PrecomputeBlocks
  import opened PrecomputeSound
  import opened PrecomputeWhole

  /** The generated code comes to its end, and table and storage then have the values of the plain run. */
  ghost predicate Right(w: World, lists: seq<seq<nat>>, scope: set<nat>, t: Table, items: seq<Item>, store: Store,
                        words: map<nat, int>)
    requires AllSupported(items) && Exec(w, items, store).Some?
  {
    var made := GenAll(Gen(t, []), lists, Flatten(items));
    exists m: nat, words' :: AdvanceBy(made.code, Here(0, words), m) == Here(|made.code|, words') &&
      AgreeOn(ScopeAfter(scope, items), made.gen.table, Exec(w, items, store).value, words')
  }

  ghost predicate AlwaysRight(w: World, lists: seq<seq<nat>>, scope: set<nat>, t: Table, items: seq<Item>)
    requires AllSupported(items)
  {
    forall store, words :: AgreeOn(scope, t, store, words) && Exec(w, items, store).Some? ==>
        Right(w, lists, scope, t, items, store, words)
  }

  /** What instructions read, tests included. */
  function ReadsIn(items: seq<Item>): set<nat>
    decreases items
  {
    if items == [] then {} else ReadsInItem(items[0]) + ReadsIn(items[1..])
  }

  function ReadsInItem(item: Item): set<nat>
    decreases item
  {
    match item
    case Do(i) => ReadsOf(i)
    case Select(_, test, cond, thn, _, _, hasElse, els, _, _) =>
      ReadsIn(test) + {cond} + ReadsIn(thn) + (if hasElse then ReadsIn(els) else {})
  }

  /** if test { thn }, where the test reads nothing that the branch may change. */
  predicate PlainIf(lists: seq<seq<nat>>, item: Item) {
    && item.Select? && !item.hasElse
    && (ReadsIn(item.test) + {item.cond}) !! SetOf(Listed(lists, item.list))
  }

  // ----- A variable that is neither read nor written makes no difference -----

  lemma InstWithout(w: World, store: Store, i: Inst, v: nat, x: Value)
    requires Supported(i) && v !in ReadsOf(i) && v != OutOf(i)
    ensures ExecInst(w, store[v := x], i) ==
            match ExecInst(w, store, i) { case None => None case Some(s) => Some(s[v := x]) }
  {
    var out := OutOf(i);
    match ExecInst(w, store, i) {
      case None =>
      case Some(s) =>
        assert s == store[out := s[out]];
        assert store[v := x][out := s[out]] == s[v := x];
    }
  }

  lemma {:induction false} ExecWithout(w: World, lists: seq<seq<nat>>, items: seq<Item>, store: Store, v: nat, x: Value)
    requires AllSupported(items) && v !in ReadsIn(items) && v !in Touched(lists, items)
    ensures Exec(w, items, store[v := x]) ==
            match Exec(w, items, store) { case None => None case Some(s) => Some(s[v := x]) }
    decreases items
  {
    hide ExecInst;
    if items != [] {
      var item := items[0];
      if item.Do? {
        InstWithout(w, store, item.i, v, x);
      } else {
        ExecWithout(w, lists, item.test, store, v, x);
        if Exec(w, item.test, store).Some? {
          var s := Exec(w, item.test, store).value;
          ExecWithout(w, lists, item.thn, s, v, x);
          if item.hasElse {
            ExecWithout(w, lists, item.els, s, v, x);
          }
        }
      }
      if ExecItem(w, item, store).Some? {
        ExecWithout(w, lists, items[1..], ExecItem(w, item, store).value, v, x);
      }
    }
  }

  // ----- Leaking is wrong -----

  /** On this input the test comes out false. */
  predicate NotTaken(w: World, item: Item, store: Store)
    requires item.Select? && AllSupported(item.test)
  {
    match Exec(w, item.test, store)
    case None => false
    case Some(s) => item.cond in s && s[item.cond] == Bool(false)
  }

  /** A listed variable becomes known in the branch without having been saved. Where the branch is not taken it may hold
      anything, also something other than the table says. */
  lemma LeakIsWrong(w: World, lists: seq<seq<nat>>, scope: set<nat>, t: Table, item: Item, store: Store,
                    words: map<nat, int>, v: nat)
    requires PlainIf(lists, item) && AllSupported([item]) && Scoped(|t|, lists, scope, [item])
        && (forall u :: u in scope ==> u < |t|)
    requires AllSupported(item.test) && AgreeOn(scope, t, store, words) && NotTaken(w, item, store)
    requires v in Listed(lists, item.list) && Get(AfterThen(t, lists, item), v).known
    requires !IsSaved(Saved(t, Listed(lists, item.list)), v)
    ensures !AlwaysRight(w, lists, scope, t, [item])
  {
    hide Scoped, ScopedItem, GenAll, AdvanceBy, Exec, NotTaken, AllSupported, AfterThen;
    LeakStays(lists, scope, t, item, v);
    var c := Get(After(t, lists, [item]), v).value;
    var other := if c == 0 then 1 else 0;
    var store', words' := store[v := Int(other)], words[v := other];
    assert AgreeOn(scope, t, store', words');
    OtherwiseTheSame(w, lists, item, store, v, Int(other));
    GenFlatten(t, [], lists, [item]);
    assert !Right(w, lists, scope, t, [item], store', words');
  }

  function AfterThen(t: Table, lists: seq<seq<nat>>, item: Item): Table
    requires item.Select?
  {
    After(After(t, lists, item.test), lists, item.thn)
  }

  /** Giving the variable another value, the branch is still not taken. */
  lemma OtherwiseTheSame(w: World, lists: seq<seq<nat>>, item: Item, store: Store, v: nat, x: Value)
    requires PlainIf(lists, item) && AllSupported([item]) && AllSupported(item.test) && NotTaken(w, item, store)
    requires v !in Touched(lists, item.test) && v in Listed(lists, item.list)
    ensures Exec(w, [item], store[v := x]).Some? && v in Exec(w, [item], store[v := x]).value
    ensures Exec(w, [item], store[v := x]).value[v] == x
  {
    assert v in SetOf(Listed(lists, item.list));
    ExecWithout(w, lists, item.test, store, v, x);
    assert [item][1..] == [];
    var s := Exec(w, item.test, store).value[v := x];
    assert ExecItem(w, item, store[v := x]) == Some(s);
    assert Exec(w, [], s) == Some(s);
  }

  /** It is not in the saved table, so it stays known. */
  lemma LeakStays(lists: seq<seq<nat>>, scope: set<nat>, t: Table, item: Item, v: nat)
    requires PlainIf(lists, item) && Scoped(|t|, lists, scope, [item]) && (forall u :: u in scope ==> u < |t|)
    requires v in Listed(lists, item.list) && Get(AfterThen(t, lists, item), v).known
    requires !IsSaved(Saved(t, Listed(lists, item.list)), v)
    ensures Get(After(t, lists, [item]), v) == Get(AfterThen(t, lists, item), v)
    ensures v in ScopeAfter(scope, [item]) && v in scope && v !in Touched(lists, item.test) && !Get(t, v).known
  {
    hide Saved, Restored, Forgotten, Touched, Listed, SavedFrom, ScopeAfter, After, AfterItem, ScopedItem, Scoped,
        ReadsIn;
    var listed := Listed(lists, item.list);
    var saved, t0, t1 := Saved(t, listed), After(t, lists, item.test), AfterThen(t, lists, item);
    PlainIfParts(lists, scope, t, item);
    AfterSelect(t, lists, item);
    SavedInRange(t, listed, |t|);
    TableElsewhere(|t|, t, lists, scope, item.test);
    TableElsewhere(|t|, t0, lists, scope, item.thn);
    RestoredFacts(t1, saved, t);
    ForgottenFacts(Restored(t1, saved), saved, t);
  }

  lemma PlainIfParts(lists: seq<seq<nat>>, scope: set<nat>, t: Table, item: Item)
    requires PlainIf(lists, item) && Scoped(|t|, lists, scope, [item])
    ensures After(t, lists, [item]) == AfterItem(t, lists, item)
    ensures (forall u :: u in Listed(lists, item.list) ==> u in scope) && Touched(lists, item.test) !! scope
    ensures ScopeAfter(scope, [item]) == scope && Scoped(|t|, lists, scope, item.test)
        && Scoped(|t|, lists, scope, item.thn)
  {
    hide Saved, Restored, Forgotten, AfterItem, Touched, ReadsIn;
    assert [item][1..] == [];
    assert ScopedItem(|t|, lists, scope, item);
    assert forall u :: u in Listed(lists, item.list) ==> u in SetOf(Listed(lists, item.list));
  }

  // ----- Exactly -----

  lemma PlainIfGuarded(lists: seq<seq<nat>>, t: Table, item: Item)
    requires PlainIf(lists, item) && Guarded(t, lists, item.test)
        && Guarded(After(t, lists, item.test), lists, item.thn)
    requires NothingNew(AfterThen(t, lists, item), Listed(lists, item.list), Saved(t, Listed(lists, item.list)))
    ensures Guarded(t, lists, [item])
  {
    hide Saved, Restored, NothingNew, Listed, ReadsIn;
    assert [item][1..] == [];
    assert GuardedItem(t, lists, item);
  }

  /** Some input does not take the branch: then all inputs go right exactly when the branch leaves no variable of
      the list known that was not known before. */
  lemma RightExactly(w: World, call: (string, seq<Value>, seq<Event>) -> Value, lists: seq<seq<nat>>, scope: set<nat>,
                     t: Table,
                     item: Item, store: Store, words: map<nat, int>)
    requires w == Words(call) && PlainIf(lists, item) && UniqueLabels(Flatten([item]))
    requires AllSupported([item]) && Scoped(|t|, lists, scope, [item]) && (forall u :: u in scope ==> u < |t|)
    requires Guarded(t, lists, item.test) && Guarded(After(t, lists, item.test), lists, item.thn)
    requires AllSupported(item.test) && AgreeOn(scope, t, store, words) && NotTaken(w, item, store)
    ensures AlwaysRight(w, lists, scope, t, [item]) <==>
      NothingNew(AfterThen(t, lists, item), Listed(lists, item.list), Saved(t, Listed(lists, item.list)))
  {
    hide Scoped, Words, AdvanceBy, GenAll, UniqueLabels, AgreeOn, Right, Flatten, ScopedItem, AfterThen, ReadsIn,
        NotTaken;
    var listed := Listed(lists, item.list);
    var saved, t1 := Saved(t, listed), AfterThen(t, lists, item);
    if NothingNew(t1, listed, saved) {
      forall s, u | AgreeOn(scope, t, s, u) && Exec(w, [item], s).Some?
          ensures Right(w, lists, scope, t, [item], s, u) {
        GoesRight(w, call, lists, scope, t, item, s, u);
      }
    } else {
      var v :| v in listed && Get(t1, v).known && !IsSaved(saved, v);
      LeakIsWrong(w, lists, scope, t, item, store, words, v);
    }
  }

  lemma GoesRight(w: World, call: (string, seq<Value>, seq<Event>) -> Value, lists: seq<seq<nat>>, scope: set<nat>,
                  t: Table,
                  item: Item, store: Store, words: map<nat, int>)
    requires w == Words(call) && PlainIf(lists, item) && UniqueLabels(Flatten([item]))
    requires AllSupported([item]) && Scoped(|t|, lists, scope, [item]) && (forall u :: u in scope ==> u < |t|)
    requires Guarded(t, lists, item.test) && Guarded(After(t, lists, item.test), lists, item.thn)
    requires NothingNew(AfterThen(t, lists, item), Listed(lists, item.list), Saved(t, Listed(lists, item.list)))
    requires AgreeOn(scope, t, store, words) && Exec(w, [item], store).Some?
    ensures Right(w, lists, scope, t, [item], store, words)
  {
    hide Scoped, Words, AdvanceBy, GenAll, UniqueLabels, AgreeOn, Flatten, NothingNew, Exec, Steps, PlainIf, AfterThen;
    PlainIfGuarded(lists, t, item);
    var n, m, store', words' := PartialEvaluationSound(w, call, lists, scope, t, [item], store, words);
  }
}
