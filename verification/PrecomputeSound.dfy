/** The code that remains, together with what is known, does what the whole code does, whichever way its branches go. */
module PrecomputeSound {
  import opened Ir
  import opened Options
  import opened Precompute
  import opened PrecomputeSimple
  import opened PrecomputeBlocks

  // ----- What the proof needs of the code -----

  function SetOf(listed: seq<nat>): set<nat> { set v | v in listed }

  /** Variables that the generator may treat differently after a block than before. */
  function Touched(lists: seq<seq<nat>>, items: seq<Item>): set<nat>
    decreases items
  {
    if items == [] then {} else TouchedItem(lists, items[0]) + Touched(lists, items[1..])
  }

  function TouchedItem(lists: seq<seq<nat>>, item: Item): set<nat>
    decreases item
  {
    match item
    case Do(i) => if Supported(i) then {OutOf(i)} else {}
    case Select(list, test, _, thn, _, _, hasElse, els, _, _) =>
      SetOf(Listed(lists, list)) + Touched(lists, test) + Touched(lists, thn)
          + (if hasElse then Touched(lists, els) else {})
  }

  /** Variables in scope after a block; what branches create goes out of scope with them. */
  function ScopeAfter(scope: set<nat>, items: seq<Item>): set<nat>
    decreases items
  {
    if items == [] then scope else ScopeAfter(ScopeAfterItem(scope, items[0]), items[1..])
  }

  function ScopeAfterItem(scope: set<nat>, item: Item): set<nat> {
    if item.Do? && Supported(item.i) then scope + {OutOf(item.i)} else scope
  }

  /** Only variables in scope are read, n bounds all of them, and the list of a select names every variable of the
      surrounding scope that its branches may change; its test changes none. */
  predicate Scoped(n: nat, lists: seq<seq<nat>>, scope: set<nat>, items: seq<Item>)
    decreases items
  {
    items == [] || (ScopedItem(n, lists, scope, items[0])
        && Scoped(n, lists, ScopeAfterItem(scope, items[0]), items[1..]))
  }

  predicate ScopedItem(n: nat, lists: seq<seq<nat>>, scope: set<nat>, item: Item)
    decreases item
  {
    match item
    case Do(i) => Supported(i) && ReadsOf(i) <= scope && OutOf(i) < n
    case Select(list, test, cond, thn, _, _, hasElse, els, _, _) =>
      var listed := SetOf(Listed(lists, list));
      && listed <= scope
      && Scoped(n, lists, scope, test) && Touched(lists, test) !! scope && cond in ScopeAfter(scope, test)
      && Scoped(n, lists, scope, thn) && Touched(lists, thn) * scope <= listed
      && (hasElse ==> Scoped(n, lists, scope, els) && Touched(lists, els) * scope <= listed)
  }

  predicate IsSaved(saved: seq<VarInfo>, v: nat) {
    exists k :: 0 <= k < |saved| && saved[k].vn == v
  }

  /** No listed variable has become known that was not known when the select started. */
  predicate NothingNew(t: Table, listed: seq<nat>, saved: seq<VarInfo>) {
    forall v :: v in listed && Get(t, v).known ==> IsSaved(saved, v)
  }

  /** The generator does not panic or negate a stale value, and no select leaves a variable known that it has not
      saved. */
  predicate Guarded(t: Table, lists: seq<seq<nat>>, items: seq<Item>)
    decreases items
  {
    items == [] || (GuardedItem(t, lists, items[0]) && Guarded(AfterItem(t, lists, items[0]), lists, items[1..]))
  }

  predicate GuardedItem(t: Table, lists: seq<seq<nat>>, item: Item)
    decreases item
  {
    match item
    case Do(i) => !Panics(t, i) && !FoldsStale(t, i)
    case Select(list, test, _, thn, _, _, hasElse, els, _, _) =>
      var listed := Listed(lists, list);
      var saved := Saved(t, listed);
      var t1 := After(t, lists, test);
      var t2 := After(t1, lists, thn);
      var t3 := Restored(t2, saved);
      && Guarded(t, lists, test) && Guarded(t1, lists, thn) && NothingNew(t2, listed, saved)
      && (hasElse ==> Guarded(t3, lists, els) && NothingNew(After(t3, lists, els), listed, saved))
  }

  lemma {:induction false} ScopedIsSupported(n: nat, lists: seq<seq<nat>>, scope: set<nat>, items: seq<Item>)
    requires Scoped(n, lists, scope, items)
    ensures AllSupported(items)
    decreases items
  {
    if items != [] {
      if items[0].Select? {
        ScopedIsSupported(n, lists, scope, items[0].test);
        ScopedIsSupported(n, lists, scope, items[0].thn);
        if items[0].hasElse {
          ScopedIsSupported(n, lists, scope, items[0].els);
        }
      }
      ScopedIsSupported(n, lists, ScopeAfterItem(scope, items[0]), items[1..]);
    }
  }

  lemma {:induction false} ScopeGrows(n: nat, lists: seq<seq<nat>>, scope: set<nat>, items: seq<Item>)
    requires Scoped(n, lists, scope, items) && (forall v :: v in scope ==> v < n)
    ensures scope <= ScopeAfter(scope, items) && forall v :: v in ScopeAfter(scope, items) ==> v < n
    decreases items
  {
    if items != [] {
      ScopeGrows(n, lists, ScopeAfterItem(scope, items[0]), items[1..]);
    }
  }

  // ----- Saving, moving, restoring -----

  lemma {:induction false} SavedFacts(t: Table, listed: seq<nat>)
    ensures forall v :: IsSaved(Saved(t, listed), v) <==> v in listed && Get(t, v).known
    ensures forall k :: 0 <= k < |Saved(t, listed)| ==> Saved(t, listed)[k].info == Get(t, Saved(t, listed)[k].vn)
  {
    if listed != [] {
      var n := |listed| - 1;
      SavedFacts(t, listed[..n]);
      var before, now := Saved(t, listed[..n]), Saved(t, listed);
      assert listed == listed[..n] + [listed[n]];
      forall v ensures IsSaved(now, v) <==> v in listed && Get(t, v).known {
        if IsSaved(before, v) {
          var k :| 0 <= k < |before| && before[k].vn == v;
          assert now[k].vn == v;
        }
        if v == listed[n] && Get(t, v).known {
          assert now[|now| - 1].vn == v;
        }
      }
    }
  }

  ghost predicate SavedFrom(saved: seq<VarInfo>, from: Table, n: nat) {
    forall k :: 0 <= k < |saved| ==> saved[k].info == Get(from, saved[k].vn) && saved[k].vn < n
  }

  lemma {:induction false} RestoredFacts(t: Table, saved: seq<VarInfo>, from: Table)
    requires SavedFrom(saved, from, |t|)
    ensures forall v :: Get(Restored(t, saved), v) == if IsSaved(saved, v) then Get(from, v) else Get(t, v)
  {
    if saved != [] {
      var n := |saved| - 1;
      RestoredFacts(t, saved[..n], from);
      MoreSaved(saved);
    }
  }

  lemma MoreSaved(saved: seq<VarInfo>)
    requires saved != []
    ensures var n := |saved| - 1; forall v :: IsSaved(saved, v) <==> IsSaved(saved[..n], v) || v == saved[n].vn
  {
    var n := |saved| - 1;
    forall v | IsSaved(saved[..n], v) ensures IsSaved(saved, v) {
      var k :| 0 <= k < n && saved[..n][k].vn == v;
      assert saved[k].vn == v;
    }
    forall v | IsSaved(saved, v) && v != saved[n].vn ensures IsSaved(saved[..n], v) {
      var k :| 0 <= k < |saved| && saved[k].vn == v;
      assert saved[..n][k].vn == v;
    }
  }

  lemma {:induction false} ForgottenFacts(t: Table, saved: seq<VarInfo>, from: Table)
    requires SavedFrom(saved, from, |t|)
    ensures forall v :: Get(Forgotten(t, saved), v) == if IsSaved(saved, v) then Get(t, v).(known := false)
        else Get(t, v)
  {
    if saved != [] {
      ForgottenFacts(t, saved[..|saved| - 1], from);
      MoreSaved(saved);
    }
  }

  ghost predicate Moved(t: Table, saved: seq<VarInfo>, words: map<nat, int>, words': map<nat, int>) {
    forall v :: if IsSaved(saved, v) && Get(t, v).known then v in words' && words'[v] == Get(t, v).value
                else (v in words' <==> v in words) && (v in words ==> words'[v] == words[v])
  }

  /** The moves put what is known of saved variables where it lives at run time. */
  lemma {:induction false} MovesFacts(t: Table, saved: seq<VarInfo>, words: map<nat, int>)
    ensures Straight(words, Moves(t, saved)).Some? && NoJumps(Moves(t, saved))
    ensures Moved(t, saved, words, Straight(words, Moves(t, saved)).value)
  {
    hide Moved, Effect, Get;
    if saved == [] {
      NothingMoved(t, words);
    } else {
      var n := |saved| - 1;
      var before := Moves(t, saved[..n]);
      MovesFacts(t, saved[..n], words);
      var words1 := Straight(words, before).value;
      OneMoreMoved(t, saved, words, words1);
      if Get(t, saved[n].vn).known {
        StraightMore(words, before, Mov(saved[n].vn, Get(t, saved[n].vn).value));
        MovEffect(words1, saved[n].vn, Get(t, saved[n].vn).value);
      } else {
        assert Moves(t, saved) == before;
      }
    }
  }

  lemma NothingMoved(t: Table, words: map<nat, int>)
    ensures Moved(t, [], words, words)
  {
  }

  lemma OneMoreMoved(t: Table, saved: seq<VarInfo>, words: map<nat, int>, words1: map<nat, int>)
    requires saved != [] && Moved(t, saved[..|saved| - 1], words, words1)
    ensures var vn := saved[|saved| - 1].vn;
            Moved(t, saved, words, if Get(t, vn).known then words1[vn := Get(t, vn).value] else words1)
  {
    hide Get, IsSaved;
    MoreSaved(saved);
  }

  lemma MovEffect(words: map<nat, int>, out: nat, imm: int)
    ensures Effect(words, Mov(out, imm)) == Some(words[out := imm])
  {
  }

  lemma StraightMore(words: map<nat, int>, code: seq<Residual>, r: Residual)
    requires Straight(words, code).Some?
    ensures Straight(words, code + [r]) == Effect(Straight(words, code).value, r)
  {
    assert (code + [r])[..|code + [r]| - 1] == code;
  }

  predicate NoJumps(code: seq<Residual>) {
    forall k :: 0 <= k < |code| && code[k].Run? ==> !code[k].i.Jump? && !code[k].i.JumpIf?
  }

  // ----- What does not change -----

  lemma {:induction false} TableElsewhere(n: nat, t: Table, lists: seq<seq<nat>>, scope: set<nat>, items: seq<Item>)
    requires Scoped(n, lists, scope, items)
    ensures |After(t, lists, items)| == |t|
    ensures forall v :: v !in Touched(lists, items) ==> Get(After(t, lists, items), v) == Get(t, v)
    decreases items
  {
    if items != [] {
      if items[0].Select? {
        TableElsewhereSelect(n, t, lists, scope, items[0]);
      } else {
        SimpleElsewhere(t, items[0].i);
      }
      TableElsewhere(n, AfterItem(t, lists, items[0]), lists, ScopeAfterItem(scope, items[0]), items[1..]);
    }
  }

  lemma SimpleElsewhere(t: Table, i: Inst)
    requires Supported(i)
    ensures |GenSimple(t, i).table| == |t|
    ensures forall v :: v != OutOf(i) ==> Get(GenSimple(t, i).table, v) == Get(t, v)
    ensures NoJumps(GenSimple(t, i).code)
  {
    hide AllInputsKnown, CanPrecompute, AnyKnown, Wrap, BitAnd, BitOr, Compares, ArithWords;
  }

  lemma {:induction false} RestoredElsewhere(t: Table, saved: seq<VarInfo>)
    ensures forall v :: !IsSaved(saved, v) ==>
        Get(Restored(t, saved), v) == Get(t, v) && Get(Forgotten(t, saved), v) == Get(t, v)
  {
    if saved != [] {
      RestoredElsewhere(t, saved[..|saved| - 1]);
      MoreSaved(saved);
    }
  }

  lemma {:induction false} TableElsewhereSelect(n: nat, t: Table, lists: seq<seq<nat>>, scope: set<nat>, item: Item)
    requires item.Select? && ScopedItem(n, lists, scope, item)
    ensures |AfterItem(t, lists, item)| == |t|
    ensures forall v :: v !in TouchedItem(lists, item) ==> Get(AfterItem(t, lists, item), v) == Get(t, v)
    decreases item
  {
    var saved := Saved(t, Listed(lists, item.list));
    var t1 := After(t, lists, item.test);
    var t2 := After(t1, lists, item.thn);
    var t3 := Restored(t2, saved);
    TableElsewhere(n, t, lists, scope, item.test);
    TableElsewhere(n, t1, lists, scope, item.thn);
    SavedFacts(t, Listed(lists, item.list));
    RestoredElsewhere(t2, saved);
    RestoredElsewhere(t3, saved);
    if item.hasElse {
      var t4 := After(t3, lists, item.els);
      TableElsewhere(n, t3, lists, scope, item.els);
      RestoredElsewhere(t4, saved);
      RestoredElsewhere(Restored(t4, saved), saved);
    }
  }

  /** After a select: what it lists is no longer known, the rest of the scope is as before. */
  lemma SelectEnds(n: nat, t: Table, lists: seq<seq<nat>>, scope: set<nat>, item: Item)
    requires item.Select? && ScopedItem(n, lists, scope, item) && GuardedItem(t, lists, item) && |t| == n
    requires forall v :: v in scope ==> v < n
    ensures forall v :: v in Listed(lists, item.list) ==> !Get(AfterItem(t, lists, item), v).known
    ensures forall v :: v in scope && v !in Listed(lists, item.list) ==> Get(AfterItem(t, lists, item), v) == Get(t, v)
  {
    hide Saved, Restored, Forgotten, After, Touched, Guarded, Scoped, AfterItem, Listed, SavedFrom;
    var listed := Listed(lists, item.list);
    var saved := Saved(t, listed);
    var t1 := After(t, lists, item.test);
    var t2 := After(t1, lists, item.thn);
    var t3 := Restored(t2, saved);
    forall v | v in listed ensures v in scope {
      assert v in SetOf(listed);
    }
    SavedInRange(t, listed, n);
    TableElsewhereSelect(n, t, lists, scope, item);
    TableElsewhere(n, t, lists, scope, item.test);
    TableElsewhere(n, t1, lists, scope, item.thn);
    RestoredFacts(t2, saved, t);
    AfterSelect(t, lists, item);
    if item.hasElse {
      TableElsewhere(n, t3, lists, scope, item.els);
      RestoredFacts(After(t3, lists, item.els), saved, t);
      ForgottenFacts(Restored(After(t3, lists, item.els), saved), saved, t);
    } else {
      ForgottenFacts(t3, saved, t);
    }
  }

  lemma AfterSelect(t: Table, lists: seq<seq<nat>>, item: Item)
    requires item.Select?
    ensures var saved := Saved(t, Listed(lists, item.list));
      var t3 := Restored(After(After(t, lists, item.test), lists, item.thn), saved);
      AfterItem(t, lists, item) ==
        if item.hasElse then Forgotten(Restored(After(t3, lists, item.els), saved), saved) else Forgotten(t3, saved)
  {
    hide Saved, Restored, Forgotten, After, Listed;
  }

  lemma SavedInRange(t: Table, listed: seq<nat>, n: nat)
    requires forall v :: v in listed ==> v < n
    ensures SavedFrom(Saved(t, listed), t, n)
    ensures forall v :: IsSaved(Saved(t, listed), v) <==> v in listed && Get(t, v).known
  {
    SavedFacts(t, listed);
    var saved := Saved(t, listed);
    forall k | 0 <= k < |saved| ensures saved[k].vn < n {
      assert IsSaved(saved, saved[k].vn);
    }
  }

  lemma InstElsewhere(w: World, store: Store, i: Inst)
    requires Supported(i)
    ensures ExecInst(w, store, i).Some? ==>
      var store' := ExecInst(w, store, i).value;
          forall v :: v != OutOf(i) ==> (v in store' <==> v in store) && (v in store ==> store'[v] == store[v])
  {
  }

  ghost predicate SameElsewhere(touched: set<nat>, store: Store, store': Store) {
    forall v :: v !in touched ==> (v in store' <==> v in store) && (v in store ==> store'[v] == store[v])
  }

  lemma {:induction false} StoreElsewhere(w: World, lists: seq<seq<nat>>, items: seq<Item>, store: Store)
    requires AllSupported(items) && Exec(w, items, store).Some?
    ensures SameElsewhere(Touched(lists, items), store, Exec(w, items, store).value)
    decreases items
  {
    if items != [] {
      var item := items[0];
      var store1 := ExecItem(w, item, store).value;
      if item.Do? {
        InstElsewhere(w, store, item.i);
      } else {
        var s := Exec(w, item.test, store).value;
        StoreElsewhere(w, lists, item.test, store);
        if s[item.cond].b {
          StoreElsewhere(w, lists, item.thn, s);
        } else if item.hasElse {
          StoreElsewhere(w, lists, item.els, s);
        }
      }
      StoreElsewhere(w, lists, items[1..], store1);
    }
  }

  // ----- One instruction -----

  lemma ReadyWords(w: World, scope: set<nat>, t: Table, store: Store, words: map<nat, int>, i: Inst)
    requires Supported(i) && ReadsOf(i) <= scope && OutOf(i) < |t| && !Panics(t, i) && !FoldsStale(t, i)
    requires AgreeOn(scope, t, store, words) && ExecInst(w, store, i).Some? && ActsOnWords(w, store, i)
    ensures Ready(t, words, i, WordOf(store, LeftOf(i)), WordOf(store, RightOf(i)))
  {
    hide OnWords, Panics, FoldsStale, Encode, ExecInst;
    forall v | v in ReadsOf(i) ensures Agrees(t, store, words, v) {
    }
    if i.And? || i.Or? {
      BoolsAreBits(store, i.out);
      BoolsAreBits(store, i.read);
    }
  }

  lemma DoSound(w: World, call: (string, seq<Value>, seq<Event>) -> Value, scope: set<nat>, t: Table, store: Store,
                words: map<nat, int>, i: Inst)
    requires w == Words(call) && Supported(i) && ReadsOf(i) <= scope && OutOf(i) < |t| && !Panics(t, i)
        && !FoldsStale(t, i)
    requires AgreeOn(scope, t, store, words) && ExecInst(w, store, i).Some?
    ensures var made := GenSimple(t, i); var store' := ExecInst(w, store, i).value;
      && Straight(words, made.code).Some? && NoJumps(made.code)
      && AgreeOn(scope + {OutOf(i)}, made.table, store', Straight(words, made.code).value)
      && WordsElsewhere({OutOf(i)}, words, Straight(words, made.code).value)
  {
    hide GenSimple, OnWords, Straight, Panics, FoldsStale, Encode, Ready;
    InstActsOnWords(w, call, store, i);
    var a, b := WordOf(store, LeftOf(i)), WordOf(store, RightOf(i));
    ReadyWords(w, scope, t, store, words, i);
    SimpleLeaves(t, words, i, a, b);
    SimpleElsewhere(t, i);
    InstElsewhere(w, store, i);
  }

  lemma BoolsAreBits(store: Store, v: nat)
    requires v in store && store[v].Bool?
    ensures Encode(store[v]) == 0 || Encode(store[v]) == 1
  {
  }

  ghost predicate WordsElsewhere(touched: set<nat>, words: map<nat, int>, words': map<nat, int>) {
    forall v :: v !in touched ==> (v in words' <==> v in words) && (v in words ==> words'[v] == words[v])
  }

  // ----- Running what remains -----

  ghost predicate Sits(program: seq<Residual>, p: nat, code: seq<Residual>) {
    p + |code| <= |program| && program[p..p + |code|] == code
  }

  lemma SitsParts(program: seq<Residual>, p: nat, a: seq<Residual>, b: seq<Residual>)
    requires Sits(program, p, a + b)
    ensures Sits(program, p, a) && Sits(program, p + |a|, b)
  {
    assert a == (a + b)[..|a|];
    assert b == (a + b)[|a|..];
  }

  lemma SitsOne(program: seq<Residual>, p: nat, r: Residual)
    requires Sits(program, p, [r])
    ensures p < |program| && program[p] == r
  {
    assert program[p] == program[p..p + 1][0];
  }

  ghost predicate UniqueMarks(program: seq<Residual>) {
    forall i, j ::
      0 <= i < j < |program| && program[i].Run? && program[i].i.LabelAt? && program[j].Run? && program[j].i.LabelAt? ==>
        program[i].i.target != program[j].i.target
  }

  lemma FindsMark(program: seq<Residual>, p: nat, l: Label)
    requires UniqueMarks(program) && Sits(program, p, [Run(LabelAt(l))])
    ensures FindMark(program, l) == Some(p)
  {
    SitsOne(program, p, Run(LabelAt(l)));
  }

  ghost predicate Reaches(program: seq<Residual>, p: nat, words: map<nat, int>, n: nat, q: nat, words': map<nat, int>) {
    AdvanceBy(program, Here(p, words), n) == Here(q, words')
  }

  lemma ReachesOn(program: seq<Residual>, p: nat, words: map<nat, int>, n: nat, q: nat, words1: map<nat, int>, m: nat,
                  r: nat, words2: map<nat, int>)
    requires Reaches(program, p, words, n, q, words1) && Reaches(program, q, words1, m, r, words2)
    ensures Reaches(program, p, words, n + m, r, words2)
  {
    AdvanceAdds(program, Here(p, words), n, m);
  }

  lemma {:induction false} StraightRuns(program: seq<Residual>, p: nat, code: seq<Residual>, words: map<nat, int>)
    requires Sits(program, p, code) && NoJumps(code) && Straight(words, code).Some?
    ensures Reaches(program, p, words, |code|, p + |code|, Straight(words, code).value)
    decreases |code|
  {
    hide Effect, Sits, Reaches, Straight;
    if code == [] {
      NothingRuns(program, p, words);
      NothingStraight(words);
    } else {
      var n := |code| - 1;
      var before, r := code[..n], code[n];
      assert code == before + [r];
      SitsParts(program, p, before, [r]);
      SitsOne(program, p + n, r);
      LastStraight(words, code);
      StraightRuns(program, p, before, words);
      var w := Straight(words, before).value;
      OneRuns(program, p + n, r, w);
      ReachesOn(program, p, words, n, p + n, w, 1, p + n + 1, Effect(w, r).value);
    }
  }

  lemma NothingStraight(words: map<nat, int>)
    ensures Straight(words, []) == Some(words)
  {
  }

  lemma LastStraight(words: map<nat, int>, code: seq<Residual>)
    requires code != [] && Straight(words, code).Some?
    ensures var n := |code| - 1;
      Straight(words, code[..n]).Some? && Effect(Straight(words, code[..n]).value, code[n]) == Straight(words, code)
  {
    hide Effect;
  }

  lemma OneRuns(program: seq<Residual>, p: nat, r: Residual, words: map<nat, int>)
    requires p < |program| && program[p] == r && (r.Run? ==> !r.i.Jump? && !r.i.JumpIf?) && Effect(words, r).Some?
    ensures Reaches(program, p, words, 1, p + 1, Effect(words, r).value)
  {
    hide Wrap, BitAnd, BitOr, Compares, ArithWords;
    assert AdvanceBy(program, Here(p, words), 1) == AdvanceBy(program, Advance(program, Here(p, words)), 0);
  }

  lemma JumpRuns(program: seq<Residual>, p: nat, l: Label, words: map<nat, int>, q: nat)
    requires Sits(program, p, [Run(Jump(l))]) && FindMark(program, l) == Some(q)
    ensures Reaches(program, p, words, 1, q, words)
  {
    SitsOne(program, p, Run(Jump(l)));
    assert AdvanceBy(program, Here(p, words), 1) == AdvanceBy(program, Advance(program, Here(p, words)), 0);
  }

  lemma MarkRuns(program: seq<Residual>, p: nat, l: Label, words: map<nat, int>)
    requires Sits(program, p, [Run(LabelAt(l))])
    ensures Reaches(program, p, words, 1, p + 1, words)
  {
    SitsOne(program, p, Run(LabelAt(l)));
    assert AdvanceBy(program, Here(p, words), 1) == AdvanceBy(program, Advance(program, Here(p, words)), 0);
  }

  /** The test of a select is decided at compile time or at run time, the same way. */
  lemma BranchRuns(program: seq<Residual>, p: nat, t: Table, store: Store, words: map<nat, int>, cond: nat, l: Label,
                   q: nat) returns (n: nat)
    requires Sits(program, p, Branch(t, cond, l)) && FindMark(program, l) == Some(q)
    requires Agrees(t, store, words, cond) && store[cond].Bool?
    ensures Reaches(program, p, words, n, if store[cond].b then p + |Branch(t, cond, l)| else q, words)
  {
    BranchCode(t, cond, l);
    if Get(t, cond).known && store[cond].b {
      n := 0;
    } else if Get(t, cond).known {
      JumpRuns(program, p, l, words, q);
      n := 1;
    } else {
      SitsOne(program, p, Run(JumpIf(false, false, cond, l)));
      assert AdvanceBy(program, Here(p, words), 1) == AdvanceBy(program, Advance(program, Here(p, words)), 0);
      n := 1;
    }
  }

  lemma BranchCode(t: Table, cond: nat, l: Label)
    ensures Branch(t, cond, l) ==
      if !Get(t, cond).known then [Run(JumpIf(false, false, cond, l))]
      else if Get(t, cond).value == 0 then [Run(Jump(l))]
      else []
  {
    var i := JumpIf(false, false, cond, l);
    assert cond in VarsOf(i);
    assert forall code: seq<Residual> :: [] + code == code;
  }

  // ----- A select -----

  /** What is listed is where it lives at run time, whatever the table says. */
  ghost predicate Kept(listed: seq<nat>, store: Store, words: map<nat, int>) {
    forall v :: v in listed ==> v in store && IsWord(store[v]) && v in words && words[v] == Encode(store[v])
  }

  lemma StartsKept(n: nat, t: Table, listed: seq<nat>, scope: set<nat>, store: Store, words: map<nat, int>)
    requires AgreeOn(scope, t, store, words) && forall v :: v in listed ==> v in scope
    ensures var saved := Saved(t, listed);
      && Straight(words, Moves(t, saved)).Some? && NoJumps(Moves(t, saved))
      && Kept(listed, store, Straight(words, Moves(t, saved)).value)
      && AgreeOn(scope, t, store, Straight(words, Moves(t, saved)).value)
      && WordsElsewhere(SetOf(listed), words, Straight(words, Moves(t, saved)).value)
  {
    hide Straight, Moves, Saved, IsWord, Encode, NoJumps;
    var saved := Saved(t, listed);
    SavedFacts(t, listed);
    MovesFacts(t, saved, words);
    forall v | v in scope ensures Agrees(t, store, words, v) {
    }
  }

  /** At the end of a branch the moves put every listed variable where it lives at run time. */
  lemma EndsKept(t0: Table, t: Table, listed: seq<nat>, scope: set<nat>, store: Store, words: map<nat, int>)
    requires AgreeOn(scope, t, store, words) && (forall v :: v in listed ==> v in scope)
        && NothingNew(t, listed, Saved(t0, listed))
    ensures var saved := Saved(t0, listed);
      && Straight(words, Moves(t, saved)).Some? && NoJumps(Moves(t, saved))
      && Kept(listed, store, Straight(words, Moves(t, saved)).value)
      && AgreeOn(scope, t, store, Straight(words, Moves(t, saved)).value)
      && WordsElsewhere(SetOf(listed), words, Straight(words, Moves(t, saved)).value)
  {
    hide Straight, Moves, Saved, IsWord, Encode, NoJumps;
    var saved := Saved(t0, listed);
    SavedFacts(t0, listed);
    MovesFacts(t, saved, words);
    forall v | v in scope ensures Agrees(t, store, words, v) {
    }
  }

  /** Agreement carries over to another table that knows nothing of what is kept and the same of the rest. */
  lemma AgreesAtEnd(listed: seq<nat>, scope: set<nat>, t: Table, t': Table, store: Store, words: map<nat, int>)
    requires AgreeOn(scope, t, store, words) && Kept(listed, store, words)
    requires forall v :: v in listed ==> !Get(t', v).known
    requires forall v :: v in scope && v !in listed ==> Get(t', v) == Get(t, v)
    ensures AgreeOn(scope, t', store, words)
  {
    hide IsWord, Encode, Get;
    forall v | v in scope ensures Agrees(t', store, words, v) {
      assert Agrees(t, store, words, v);
    }
  }

  /** Where the else branch begins, the table is what it was before the select as far as it was saved. */
  lemma AgreesAtElse(n: nat, t: Table, t1: Table, t2: Table, listed: seq<nat>, scope: set<nat>, store: Store,
                     words: map<nat, int>)
    requires |t2| == n && (forall v :: v in listed ==> v < n && v in scope)
    requires AgreeOn(scope, t1, store, words) && Kept(listed, store, words) && NothingNew(t2, listed, Saved(t, listed))
    requires forall v :: v in scope ==> Get(t1, v) == Get(t, v)
    requires forall v :: v in scope && v !in listed ==> Get(t2, v) == Get(t1, v)
    ensures AgreeOn(scope, Restored(t2, Saved(t, listed)), store, words)
  {
    hide IsWord, Encode, Get, Saved, Restored;
    var saved := Saved(t, listed);
    SavedInRange(t, listed, n);
    RestoredFacts(t2, saved, t);
    forall v | v in scope ensures Agrees(Restored(t2, saved), store, words, v) {
      assert Agrees(t1, store, words, v);
    }
  }

  /** Where a select's test leaves things. */
  lemma KeptThrough(listed: seq<nat>, touched: set<nat>, scope: set<nat>, store: Store, store': Store, words: map<nat,
                    int>, words': map<nat, int>)
    requires Kept(listed, store, words) && (forall v :: v in listed ==> v in scope) && touched !! scope
    requires SameElsewhere(touched, store, store') && WordsElsewhere(touched, words, words')
    ensures Kept(listed, store', words')
  {
    hide IsWord, Encode;
  }

  /** Runs of a block's code. */
  ghost predicate Sound(program: seq<Residual>, p: nat, code: seq<Residual>, words: map<nat, int>, touched: set<nat>,
                        scope: set<nat>,
                        t: Table, store: Store, n: nat, words': map<nat, int>) {
    && Reaches(program, p, words, n, p + |code|, words')
    && AgreeOn(scope, t, store, words') && WordsElsewhere(touched, words, words')
  }

  lemma {:induction false} BlockSound(w: World, call: (string, seq<Value>, seq<Event>) -> Value,
                                      program: seq<Residual>, p: nat, size: nat,
                                      lists: seq<seq<nat>>, scope: set<nat>, t: Table, items: seq<Item>, store: Store,
                                      words: map<nat, int>)
    returns (n: nat, words': map<nat, int>)
    requires w == Words(call) && UniqueMarks(program) && Sits(program, p, CodeOf(t, lists, items))
    requires |t| == size && (forall v :: v in scope ==> v < size) && Scoped(size, lists, scope, items)
        && Guarded(t, lists, items)
    requires AllSupported(items) && Exec(w, items, store).Some? && AgreeOn(scope, t, store, words)
    ensures Sound(program, p, CodeOf(t, lists, items), words, Touched(lists, items), ScopeAfter(scope, items),
        After(t, lists, items),
                  Exec(w, items, store).value, n, words')
    decreases items, 0
  {
    hide UniqueMarks, Sits, CodeOfItem, AfterItem, TouchedItem, ExecItem, GuardedItem, SupportedItem, ScopedItem,
        ScopeAfterItem, Reaches, AgreeOn,
      WordsElsewhere;
    if items == [] {
      NothingRuns(program, p, words);
      n, words' := 0, words;
    } else {
      var item, rest := items[0], items[1..];
      var code, t1, store1, scope1 := CodeOfItem(t, lists, item), AfterItem(t, lists, item),
          ExecItem(w, item, store).value, ScopeAfterItem(scope, item);
      SitsParts(program, p, code, CodeOf(t1, lists, rest));
      var n1, words1 := ItemSound(w, call, program, p, size, lists, scope, t, item, store, words);
      ItemKeepsSize(size, t, lists, scope, item);
      var n2;
      n2, words' := BlockSound(w, call, program, p + |code|, size, lists, scope1, t1, rest, store1, words1);
      n := n1 + n2;
      ReachesOn(program, p, words, n1, p + |code|, words1, n2, p + |code| + |CodeOf(t1, lists, rest)|, words');
      WordsElsewhereBoth(TouchedItem(lists, item), Touched(lists, rest), words, words1, words');
    }
  }

  lemma NothingRuns(program: seq<Residual>, p: nat, words: map<nat, int>)
    ensures Reaches(program, p, words, 0, p, words) && WordsElsewhere({}, words, words)
  {
  }

  lemma ItemKeepsSize(size: nat, t: Table, lists: seq<seq<nat>>, scope: set<nat>, item: Item)
    requires ScopedItem(size, lists, scope, item) && forall v :: v in scope ==> v < size
    ensures |AfterItem(t, lists, item)| == |t| && forall v :: v in ScopeAfterItem(scope, item) ==> v < size
  {
    if item.Do? {
      SimpleElsewhere(t, item.i);
    } else {
      TableElsewhereSelect(size, t, lists, scope, item);
    }
  }

  lemma WordsElsewhereBoth(a: set<nat>, b: set<nat>, words: map<nat, int>, words1: map<nat, int>, words2: map<nat, int>)
    requires WordsElsewhere(a, words, words1) && WordsElsewhere(b, words1, words2)
    ensures WordsElsewhere(a + b, words, words2)
  {
  }

  lemma {:induction false} ItemSound(w: World, call: (string, seq<Value>, seq<Event>) -> Value, program: seq<Residual>,
                                     p: nat, size: nat,
                                     lists: seq<seq<nat>>, scope: set<nat>, t: Table, item: Item, store: Store,
                                     words: map<nat, int>)
    returns (n: nat, words': map<nat, int>)
    requires w == Words(call) && UniqueMarks(program) && Sits(program, p, CodeOfItem(t, lists, item))
    requires |t| == size && (forall v :: v in scope ==> v < size) && ScopedItem(size, lists, scope, item)
        && GuardedItem(t, lists, item)
    requires SupportedItem(item) && ExecItem(w, item, store).Some? && AgreeOn(scope, t, store, words)
    ensures Sound(program, p, CodeOfItem(t, lists, item), words, TouchedItem(lists, item), ScopeAfterItem(scope, item),
        AfterItem(t, lists, item),
                  ExecItem(w, item, store).value, n, words')
    decreases item, 2
  {
    hide UniqueMarks, Sits, Reaches, Straight, GenSimple, AgreeOn, WordsElsewhere;
    if item.Do? {
      DoSound(w, call, scope, t, store, words, item.i);
      var code := GenSimple(t, item.i).code;
      StraightRuns(program, p, code, words);
      n, words' := |code|, Straight(words, code).value;
    } else {
      n, words' := SelectSound(w, call, program, p, size, lists, scope, t, item, store, words);
    }
  }

  /** The pieces of a select's code. */
  lemma SelectShape(program: seq<Residual>, p: nat, t: Table, lists: seq<seq<nat>>, item: Item)
    requires item.Select? && UniqueMarks(program) && Sits(program, p, CodeOfItem(t, lists, item))
    ensures var saved := Saved(t, Listed(lists, item.list));
      var t1 := After(t, lists, item.test); var t2 := After(t1, lists, item.thn); var t3 := Restored(t2, saved);
      var p1 := p + |Moves(t, saved)|; var p2 := p1 + |CodeOf(t, lists, item.test)|;
          var p3 := p2 + |Branch(t1, item.cond, item.otherwise)|;
      var p4 := p3 + |CodeOf(t1, lists, item.thn)|; var p5 := p4 + |Moves(t2, saved)|;
      && Sits(program, p, Moves(t, saved)) && Sits(program, p1, CodeOf(t, lists, item.test))
      && Sits(program, p2, Branch(t1, item.cond, item.otherwise)) && Sits(program, p3, CodeOf(t1, lists, item.thn))
      && Sits(program, p4, Moves(t2, saved))
      && (!item.hasElse ==>
            && Sits(program, p5, [Run(LabelAt(item.otherwise))]) && FindMark(program, item.otherwise) == Some(p5)
            && p + |CodeOfItem(t, lists, item)| == p5 + 1)
      && (item.hasElse ==>
            var p6 := p5 + 2; var p7 := p6 + |CodeOf(t3, lists, item.els)|;
                var p8 := p7 + |Moves(After(t3, lists, item.els), saved)|;
            && Sits(program, p5, [Run(Jump(item.end))]) && Sits(program, p5 + 1, [Run(LabelAt(item.otherwise))])
            && FindMark(program, item.otherwise) == Some(p5 + 1)
            && Sits(program, p6, CodeOf(t3, lists, item.els))
                && Sits(program, p7, Moves(After(t3, lists, item.els), saved))
            && Sits(program, p8, [Run(LabelAt(item.end))]) && FindMark(program, item.end) == Some(p8)
            && p + |CodeOfItem(t, lists, item)| == p8 + 1)
  {
    hide UniqueMarks, Sits, FindMark, Saved, Moves, Restored, Forgotten, CodeOf, After, Branch;
    var saved := Saved(t, Listed(lists, item.list));
    var t1 := After(t, lists, item.test);
    var t2 := After(t1, lists, item.thn);
    var t3 := Restored(t2, saved);
    var a, b, c, d, e := Moves(t, saved), CodeOf(t, lists, item.test), Branch(t1, item.cond, item.otherwise),
        CodeOf(t1, lists, item.thn),
                         Moves(t2, saved);
    var head, mark := a + b + c + d + e, [Run(LabelAt(item.otherwise))];
    if item.hasElse {
      var f, g := CodeOf(t3, lists, item.els), Moves(After(t3, lists, item.els), saved);
      var tail := [Run(Jump(item.end))] + mark + f + g + [Run(LabelAt(item.end))];
      assert CodeOfItem(t, lists, item) == head + tail;
      SitsParts(program, p, head, tail);
      TailShape(program, p + |head|, item.otherwise, f, g, item.end);
    } else {
      assert CodeOfItem(t, lists, item) == head + mark;
      SitsParts(program, p, head, mark);
      FindsMark(program, p + |head|, item.otherwise);
    }
    SitsParts(program, p, a + b + c + d, e);
    SitsParts(program, p, a + b + c, d);
    SitsParts(program, p, a + b, c);
    SitsParts(program, p, a, b);
  }

  lemma TailShape(program: seq<Residual>, p: nat, otherwise: Label, f: seq<Residual>, g: seq<Residual>, end: Label)
    requires UniqueMarks(program) && Sits(program, p, [Run(Jump(end))] + [Run(LabelAt(otherwise))] + f + g
        + [Run(LabelAt(end))])
    ensures Sits(program, p, [Run(Jump(end))]) && Sits(program, p + 1, [Run(LabelAt(otherwise))])
    ensures FindMark(program, otherwise) == Some(p + 1)
    ensures Sits(program, p + 2, f) && Sits(program, p + 2 + |f|, g)
    ensures Sits(program, p + 2 + |f| + |g|, [Run(LabelAt(end))]) && FindMark(program, end) == Some(p + 2 + |f| + |g|)
  {
    hide UniqueMarks, Sits, FindMark;
    var jump, mark := [Run(Jump(end))], [Run(LabelAt(otherwise))];
    SitsParts(program, p, jump + mark + f + g, [Run(LabelAt(end))]);
    SitsParts(program, p, jump + mark + f, g);
    SitsParts(program, p, jump + mark, f);
    SitsParts(program, p, jump, mark);
    FindsMark(program, p + 1, otherwise);
    FindsMark(program, p + 2 + |f| + |g|, end);
  }

  /** A branch together with the moves at its end. */
  lemma {:induction false} BranchSound(w: World, call: (string, seq<Value>, seq<Event>) -> Value,
                                       program: seq<Residual>, p: nat, size: nat,
                                       lists: seq<seq<nat>>, scope: set<nat>, t0: Table, t: Table, items: seq<Item>,
                                       listed: seq<nat>,
                                       store: Store, words: map<nat, int>)
    returns (n: nat, words': map<nat, int>)
    requires w == Words(call) && UniqueMarks(program) && Sits(program, p, CodeOf(t, lists, items))
    requires Sits(program, p + |CodeOf(t, lists, items)|, Moves(After(t, lists, items), Saved(t0, listed)))
    requires |t| == size && (forall v :: v in scope ==> v < size) && Scoped(size, lists, scope, items)
        && Guarded(t, lists, items)
    requires (forall v :: v in listed ==> v in scope) && NothingNew(After(t, lists, items), listed, Saved(t0, listed))
    requires AllSupported(items) && Exec(w, items, store).Some? && AgreeOn(scope, t, store, words)
    ensures Reaches(program, p, words, n, p + |CodeOf(t, lists, items)|
        + |Moves(After(t, lists, items), Saved(t0, listed))|, words')
    ensures Kept(listed, Exec(w, items, store).value, words')
        && AgreeOn(scope, After(t, lists, items), Exec(w, items, store).value, words')
    ensures WordsElsewhere(Touched(lists, items) + SetOf(listed), words, words')
    decreases items, 1
  {
    hide UniqueMarks, Sits, Reaches, Saved, Moves, Straight, CodeOf, After, Exec, Touched, Guarded, Scoped, NothingNew,
        AgreeOn, Kept, WordsElsewhere;
    var t', store' := After(t, lists, items), Exec(w, items, store).value;
    var saved := Saved(t0, listed);
    var n1, words1 := BlockSound(w, call, program, p, size, lists, scope, t, items, store, words);
    ScopeGrows(size, lists, scope, items);
    AgreeOnLess(ScopeAfter(scope, items), scope, t', store', words1);
    EndsKept(t0, t', listed, scope, store', words1);
    var code := Moves(t', saved);
    var q := p + |CodeOf(t, lists, items)|;
    StraightRuns(program, q, code, words1);
    words' := Straight(words1, code).value;
    n := n1 + |code|;
    ReachesOn(program, p, words, n1, q, words1, |code|, q + |code|, words');
    WordsElsewhereBoth(Touched(lists, items), SetOf(listed), words, words1, words');
  }

  lemma AgreeOnLess(scope: set<nat>, less: set<nat>, t: Table, store: Store, words: map<nat, int>)
    requires less <= scope && AgreeOn(scope, t, store, words)
    ensures AgreeOn(less, t, store, words)
  {
  }

  /** From the start of a select to where its test sends control. */
  lemma {:induction false} TestSound(w: World, call: (string, seq<Value>, seq<Event>) -> Value, program: seq<Residual>,
                                     p: nat, size: nat,
                                     lists: seq<seq<nat>>, scope: set<nat>, t: Table, item: Item, q: nat, store: Store,
                                     words: map<nat, int>)
    returns (n: nat, words': map<nat, int>)
    requires item.Select? && w == Words(call) && UniqueMarks(program)
    requires var saved := Saved(t, Listed(lists, item.list)); var p1 := p + |Moves(t, saved)|;
      && Sits(program, p, Moves(t, saved)) && Sits(program, p1, CodeOf(t, lists, item.test))
      && Sits(program, p1 + |CodeOf(t, lists, item.test)|,
          Branch(After(t, lists, item.test), item.cond, item.otherwise))
    requires FindMark(program, item.otherwise) == Some(q)
    requires |t| == size && (forall v :: v in scope ==> v < size) && ScopedItem(size, lists, scope, item)
        && Guarded(t, lists, item.test)
    requires AllSupported(item.test) && Exec(w, item.test, store).Some? && AgreeOn(scope, t, store, words)
    requires var s := Exec(w, item.test, store).value; item.cond in s && s[item.cond].Bool?
    ensures var s := Exec(w, item.test, store).value; var t1 := After(t, lists, item.test);
      var p2 := p + |Moves(t, Saved(t, Listed(lists, item.list)))| + |CodeOf(t, lists, item.test)|;
      && Reaches(program, p, words, n, if s[item.cond].b then p2 + |Branch(t1, item.cond, item.otherwise)|
          else q, words')
      && AgreeOn(scope, t1, s, words') && Kept(Listed(lists, item.list), s, words')
      && WordsElsewhere(SetOf(Listed(lists, item.list)) + Touched(lists, item.test), words, words')
    decreases item, 0
  {
    hide UniqueMarks, Sits, Reaches, Saved, Moves, Straight, CodeOf, After, Exec, Touched, Guarded, Scoped, AgreeOn,
        Kept, WordsElsewhere, FindMark,
      Branch, Listed;
    var listed, t1, s := Listed(lists, item.list), After(t, lists, item.test), Exec(w, item.test, store).value;
    var saved := Saved(t, listed);
    var m := Moves(t, saved);
    var p1 := p + |m|;
    var p2 := p1 + |CodeOf(t, lists, item.test)|;
    ListedInScope(listed, scope);
    StartsKept(size, t, listed, scope, store, words);
    StraightRuns(program, p, m, words);
    var words1 := Straight(words, m).value;
    var n1, words2 := BlockSound(w, call, program, p1, size, lists, scope, t, item.test, store, words1);
    ReachesOn(program, p, words, |m|, p1, words1, n1, p2, words2);
    ScopeGrows(size, lists, scope, item.test);
    AgreeOnLess(ScopeAfter(scope, item.test), scope, t1, s, words2);
    StoreElsewhere(w, lists, item.test, store);
    KeptThrough(listed, Touched(lists, item.test), scope, store, s, words1, words2);
    AgreesOne(ScopeAfter(scope, item.test), t1, s, words2, item.cond);
    var n2 := BranchRuns(program, p2, t1, s, words2, item.cond, item.otherwise, q);
    n, words' := |m| + n1 + n2, words2;
    ReachesOn(program, p, words, |m| + n1, p2, words2, n2,
              if s[item.cond].b then p2 + |Branch(t1, item.cond, item.otherwise)| else q, words2);
    WordsElsewhereBoth(SetOf(listed), Touched(lists, item.test), words, words1, words2);
  }

  lemma AgreesOne(scope: set<nat>, t: Table, store: Store, words: map<nat, int>, v: nat)
    requires AgreeOn(scope, t, store, words) && v in scope
    ensures Agrees(t, store, words, v)
  {
  }

  lemma ListedInScope(listed: seq<nat>, scope: set<nat>)
    requires SetOf(listed) <= scope
    ensures forall v :: v in listed ==> v in scope
  {
    forall v | v in listed ensures v in scope {
      assert v in SetOf(listed);
    }
  }

  lemma {:induction false} SelectSound(w: World, call: (string, seq<Value>, seq<Event>) -> Value,
                                       program: seq<Residual>, p: nat, size: nat,
                                       lists: seq<seq<nat>>, scope: set<nat>, t: Table, item: Item, store: Store,
                                       words: map<nat, int>)
    returns (n: nat, words': map<nat, int>)
    requires item.Select? && w == Words(call) && UniqueMarks(program) && Sits(program, p, CodeOfItem(t, lists, item))
    requires |t| == size && (forall v :: v in scope ==> v < size) && ScopedItem(size, lists, scope, item)
        && GuardedItem(t, lists, item)
    requires SupportedItem(item) && ExecItem(w, item, store).Some? && AgreeOn(scope, t, store, words)
    ensures Sound(program, p, CodeOfItem(t, lists, item), words, TouchedItem(lists, item), scope,
        AfterItem(t, lists, item),
                  ExecItem(w, item, store).value, n, words')
    decreases item, 1
  {
    hide UniqueMarks, Sits, Reaches, Saved, Moves, Straight, CodeOf, After, Exec, Touched, Guarded, Scoped, AgreeOn,
        Kept, WordsElsewhere, FindMark,
      Branch, Listed, AfterItem, CodeOfItem, Restored, NothingNew, AllSupported;
    var listed, t1, s := Listed(lists, item.list), After(t, lists, item.test), Exec(w, item.test, store).value;
    var saved, t2 := Saved(t, listed), After(t1, lists, item.thn);
    SelectShape(program, p, t, lists, item);
    ListedInScope(listed, scope);
    SelectTables(size, t, lists, scope, item);
    var p3 := p + |Moves(t, saved)| + |CodeOf(t, lists, item.test)| + |Branch(t1, item.cond, item.otherwise)|;
    var p5 := p3 + |CodeOf(t1, lists, item.thn)| + |Moves(t2, saved)|;
    var n1, words1 := TestSound(w, call, program, p, size, lists, scope, t, item, if item.hasElse then p5 + 1
        else p5, store, words);
    if s[item.cond].b {
      n, words' := ThenSound(w, call, program, p, size, lists, scope, t, item, s, n1, words, words1);
    } else if item.hasElse {
      n, words' := ElseSound(w, call, program, p, size, lists, scope, t, item, s, n1, words, words1);
    } else {
      MarkRuns(program, p5, item.otherwise, words1);
      ReachesOn(program, p, words, n1, p5, words1, 1, p5 + 1, words1);
      n, words' := n1 + 1, words1;
      AgreesAtEnd(listed, scope, t1, AfterItem(t, lists, item), s, words1);
    }
    WordsElsewhereMore(SetOf(listed) + Touched(lists, item.test), TouchedItem(lists, item), words, words1);
  }

  lemma WordsElsewhereMore(touched: set<nat>, more: set<nat>, words: map<nat, int>, words': map<nat, int>)
    requires touched <= more && WordsElsewhere(touched, words, words')
    ensures WordsElsewhere(more, words, words')
  {
  }

  /** What the tables of a select say of the surrounding scope. */
  lemma SelectTables(n: nat, t: Table, lists: seq<seq<nat>>, scope: set<nat>, item: Item)
    requires item.Select? && ScopedItem(n, lists, scope, item) && GuardedItem(t, lists, item) && |t| == n
    requires forall v :: v in scope ==> v < n
    ensures var listed := Listed(lists, item.list); var t1 := After(t, lists, item.test);
        var t2 := After(t1, lists, item.thn);
      var t3 := Restored(t2, Saved(t, listed)); var t' := AfterItem(t, lists, item);
      && |t1| == n && |t2| == n && |t3| == n
      && (forall v :: v in scope ==> Get(t1, v) == Get(t, v))
      && (forall v :: v in scope && v !in listed ==> Get(t2, v) == Get(t, v) && Get(t', v) == Get(t, v))
      && (forall v :: v in listed ==> !Get(t', v).known)
      && (item.hasElse ==> forall v :: v in scope && v !in listed ==> Get(After(t3, lists, item.els), v) == Get(t, v))
  {
    hide Saved, Restored, After, Touched, Guarded, Scoped, AfterItem, Listed, NothingNew;
    var listed := Listed(lists, item.list);
    var saved := Saved(t, listed);
    var t1 := After(t, lists, item.test);
    var t2 := After(t1, lists, item.thn);
    var t3 := Restored(t2, saved);
    SelectEnds(n, t, lists, scope, item);
    TableElsewhere(n, t, lists, scope, item.test);
    TableElsewhere(n, t1, lists, scope, item.thn);
    SavedFacts(t, listed);
    RestoredElsewhere(t2, saved);
    forall v | v in scope && v !in listed ensures v !in Touched(lists, item.thn) {
      assert v !in SetOf(listed);
    }
    if item.hasElse {
      TableElsewhere(n, t3, lists, scope, item.els);
      forall v | v in scope && v !in listed ensures v !in Touched(lists, item.els) {
        assert v !in SetOf(listed);
      }
    }
  }

  /** From where the test of a select sends control if it holds, to the end of the select. */
  lemma {:induction false} ThenSound(w: World, call: (string, seq<Value>, seq<Event>) -> Value, program: seq<Residual>,
                                     p: nat, size: nat,
                                     lists: seq<seq<nat>>, scope: set<nat>, t: Table, item: Item, s: Store, n1: nat,
                                     words: map<nat, int>, words1: map<nat, int>)
    returns (n: nat, words': map<nat, int>)
    requires item.Select? && w == Words(call) && UniqueMarks(program) && Sits(program, p, CodeOfItem(t, lists, item))
    requires |t| == size && (forall v :: v in scope ==> v < size) && ScopedItem(size, lists, scope, item)
        && GuardedItem(t, lists, item)
    requires AllSupported(item.thn) && Exec(w, item.thn, s).Some?
    requires var t1 := After(t, lists, item.test);
      && AgreeOn(scope, t1, s, words1) && WordsElsewhere(SetOf(Listed(lists, item.list)) + Touched(lists, item.test),
          words, words1)
      && Reaches(program, p, words, n1, p + |Moves(t, Saved(t, Listed(lists, item.list)))|
          + |CodeOf(t, lists, item.test)|
                                         + |Branch(t1, item.cond, item.otherwise)|, words1)
    ensures Sound(program, p, CodeOfItem(t, lists, item), words, TouchedItem(lists, item), scope,
        AfterItem(t, lists, item),
                  Exec(w, item.thn, s).value, n, words')
    decreases item, 0
  {
    hide UniqueMarks, Sits, Reaches, Saved, Moves, Straight, CodeOf, After, Exec, Touched, Guarded, Scoped, AgreeOn,
        Kept, WordsElsewhere, FindMark,
      Branch, Listed, AfterItem, CodeOfItem, Restored, NothingNew, AllSupported;
    var listed, t1, store' := Listed(lists, item.list), After(t, lists, item.test), Exec(w, item.thn, s).value;
    var saved, t2, t' := Saved(t, listed), After(t1, lists, item.thn), AfterItem(t, lists, item);
    SelectShape(program, p, t, lists, item);
    ListedInScope(listed, scope);
    SelectTables(size, t, lists, scope, item);
    var p3 := p + |Moves(t, saved)| + |CodeOf(t, lists, item.test)| + |Branch(t1, item.cond, item.otherwise)|;
    var p5 := p3 + |CodeOf(t1, lists, item.thn)| + |Moves(t2, saved)|;
    var n2, words2 := BranchSound(w, call, program, p3, size, lists, scope, t, t1, item.thn, listed, s, words1);
    ReachesOn(program, p, words, n1, p3, words1, n2, p5, words2);
    AgreesAtEnd(listed, scope, t2, t', store', words2);
    WordsElsewhereBoth(SetOf(listed) + Touched(lists, item.test), Touched(lists, item.thn) + SetOf(listed), words,
        words1, words2);
    WordsElsewhereMore(SetOf(listed) + Touched(lists, item.test) + (Touched(lists, item.thn) + SetOf(listed)),
        TouchedItem(lists, item), words, words2);
    words' := words2;
    if item.hasElse {
      var p8 := p + |CodeOfItem(t, lists, item)| - 1;
      JumpRuns(program, p5, item.end, words2, p8);
      MarkRuns(program, p8, item.end, words2);
      ReachesOn(program, p5, words2, 1, p8, words2, 1, p8 + 1, words2);
      ReachesOn(program, p, words, n1 + n2, p5, words2, 2, p8 + 1, words2);
      n := n1 + n2 + 2;
    } else {
      MarkRuns(program, p5, item.otherwise, words2);
      ReachesOn(program, p, words, n1 + n2, p5, words2, 1, p5 + 1, words2);
      n := n1 + n2 + 1;
    }
  }

  /** From where the test of a select sends control if it does not hold, to the end of the select. */
  lemma {:induction false} ElseSound(w: World, call: (string, seq<Value>, seq<Event>) -> Value, program: seq<Residual>,
                                     p: nat, size: nat,
                                     lists: seq<seq<nat>>, scope: set<nat>, t: Table, item: Item, s: Store, n1: nat,
                                     words: map<nat, int>, words1: map<nat, int>)
    returns (n: nat, words': map<nat, int>)
    requires item.Select? && item.hasElse && w == Words(call) && UniqueMarks(program)
        && Sits(program, p, CodeOfItem(t, lists, item))
    requires |t| == size && (forall v :: v in scope ==> v < size) && ScopedItem(size, lists, scope, item)
        && GuardedItem(t, lists, item)
    requires AllSupported(item.els) && Exec(w, item.els, s).Some?
    requires var t1 := After(t, lists, item.test); var t2 := After(t1, lists, item.thn);
      && AgreeOn(scope, t1, s, words1) && Kept(Listed(lists, item.list), s, words1)
      && WordsElsewhere(SetOf(Listed(lists, item.list)) + Touched(lists, item.test), words, words1)
      && Reaches(program, p, words, n1, p + |Moves(t, Saved(t, Listed(lists, item.list)))|
          + |CodeOf(t, lists, item.test)|
                                         + |Branch(t1, item.cond, item.otherwise)| + |CodeOf(t1, lists, item.thn)|
                                         + |Moves(t2, Saved(t, Listed(lists, item.list)))| + 1, words1)
    ensures Sound(program, p, CodeOfItem(t, lists, item), words, TouchedItem(lists, item), scope,
        AfterItem(t, lists, item),
                  Exec(w, item.els, s).value, n, words')
    decreases item, 0
  {
    hide UniqueMarks, Sits, Reaches, Saved, Moves, Straight, CodeOf, After, Exec, Touched, Guarded, Scoped, AgreeOn,
        Kept, WordsElsewhere, FindMark,
      Branch, Listed, AfterItem, CodeOfItem, Restored, NothingNew, AllSupported;
    var listed, t1, store' := Listed(lists, item.list), After(t, lists, item.test), Exec(w, item.els, s).value;
    var saved, t2, t' := Saved(t, listed), After(t1, lists, item.thn), AfterItem(t, lists, item);
    var t3 := Restored(t2, saved);
    SelectShape(program, p, t, lists, item);
    ListedInScope(listed, scope);
    SelectTables(size, t, lists, scope, item);
    var p5 := p + |Moves(t, saved)| + |CodeOf(t, lists, item.test)| + |Branch(t1, item.cond, item.otherwise)|
        + |CodeOf(t1, lists, item.thn)|
              + |Moves(t2, saved)|;
    var p6, p8 := p5 + 2, p + |CodeOfItem(t, lists, item)| - 1;
    MarkRuns(program, p5 + 1, item.otherwise, words1);
    ReachesOn(program, p, words, n1, p5 + 1, words1, 1, p6, words1);
    AgreesAtElse(size, t, t1, t2, listed, scope, s, words1);
    var n2, words2 := BranchSound(w, call, program, p6, size, lists, scope, t, t3, item.els, listed, s, words1);
    ReachesOn(program, p, words, n1 + 1, p6, words1, n2, p8, words2);
    MarkRuns(program, p8, item.end, words2);
    ReachesOn(program, p, words, n1 + 1 + n2, p8, words2, 1, p8 + 1, words2);
    AgreesAtEnd(listed, scope, After(t3, lists, item.els), t', store', words2);
    WordsElsewhereBoth(SetOf(listed) + Touched(lists, item.test), Touched(lists, item.els) + SetOf(listed), words,
        words1, words2);
    WordsElsewhereMore(SetOf(listed) + Touched(lists, item.test) + (Touched(lists, item.els) + SetOf(listed)),
        TouchedItem(lists, item), words, words2);
    n, words' := n1 + 1 + n2 + 1, words2;
  }
}
