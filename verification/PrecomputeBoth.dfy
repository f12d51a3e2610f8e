/** An if with else: what is left known decides nothing. */
module PrecomputeBoth {
  import opened Ir
  import opened Options
  import opened Precompute
  import opened PrecomputeSimple
  import opened PrecomputeBlocks
  import opened PrecomputeSound
  import opened PrecomputeExact

  const T0: Table := [NOTHING, NOTHING, NOTHING]
  const LISTS: seq<seq<nat>> := [[0], [0], [0]]
  const SCOPE: set<nat> := {0, 1, 2}

  /** if c { x = x - y; x = 0 } else { x = 0 } for x, c variables 0 and 1, and y variable 0 as well or variable 2. */
  function ZeroBothWays(y: nat): Item {
    Select(0, [], 1, [Do(Arith(Sub, 0, y)), Do(AssignImm(0, Int(0)))], 1, Label(Else, 0), true,
        [Do(AssignImm(0, Int(0)))], 2, Label(IfElseEnd, 0))
  }

  /** What is known of x is the same at every point whichever variable is subtracted. */
  lemma SameTables(y: nat)
    requires y == 0 || y == 2
    ensures var item, x := ZeroBothWays(y), T0[0 := Info(true, 0, true)];
      && Saved(T0, Listed(LISTS, item.list)) == []
      && After(T0, LISTS, item.test) == T0 && After(T0, LISTS, item.thn) == x
      && Restored(x, []) == x && After(x, LISTS, item.els) == T0[0 := Info(false, 0, true)]
      && After(T0, LISTS, [item]) == T0[0 := Info(false, 0, true)]
  {
    var item, i, j := ZeroBothWays(y), Arith(Sub, 0, y), AssignImm(0, Int(0));
    var x, z := T0[0 := Info(true, 0, true)], T0[0 := Info(false, 0, true)];
    Subtracts(y);
    Assigns();
    assert item.thn[1..] == [Do(j)] && [Do(j)][1..] == [] && [item][1..] == [];
    assert After(T0, LISTS, item.thn) == After(T0, LISTS, [Do(j)]) == After(x, LISTS, []) == x;
    assert After(x, LISTS, item.els) == After(z, LISTS, []) == z;
    assert Saved(T0, [0]) == [] by {
      assert [0][..0] == [];
      assert Saved(T0, []) == [];
    }
    assert Restored(x, []) == x && Restored(z, []) == z && Forgotten(z, []) == z;
    assert AfterItem(T0, LISTS, item) == z;
    assert After(z, LISTS, []) == z;
  }

  lemma Subtracts(y: nat)
    requires y == 0 || y == 2
    ensures GenSimple(T0, Arith(Sub, 0, y)) == Made(T0, [Run(Arith(Sub, 0, y))])
  {
  }

  lemma Assigns()
    ensures var j := AssignImm(0, Int(0));
      && GenSimple(T0, j) == Made(T0[0 := Info(true, 0, true)], [])
      && GenSimple(T0[0 := Info(true, 0, true)], j) == Made(T0[0 := Info(false, 0, true)], [Mov(0, 0)])
  {
  }

  /** The code for it. */
  function ZeroCode(y: nat): seq<Residual> {
    [Run(JumpIf(false, false, 1, Label(Else, 0))), Run(Arith(Sub, 0, y)), Run(Jump(Label(IfElseEnd, 0))),
        Run(LabelAt(Label(Else, 0))), Mov(0, 0),
     Run(LabelAt(Label(IfElseEnd, 0)))]
  }

  lemma CodeIs(y: nat)
    requires y == 0 || y == 2
    ensures GenAll(Gen(T0, []), LISTS, Flatten([ZeroBothWays(y)])) ==
        Generated(Gen(T0[0 := Info(false, 0, true)], []), ZeroCode(y))
  {
    hide GenAll, CodeOfItem, Flatten, AfterItem;
    var item := ZeroBothWays(y);
    SameTables(y);
    BothSupported(y);
    GenFlatten(T0, [], LISTS, [item]);
    ItemCode(y);
    assert [item][1..] == [];
    assert CodeOf(T0, LISTS, [item]) == ZeroCode(y) + [] == ZeroCode(y);
  }

  lemma ItemCode(y: nat)
    requires y == 0 || y == 2
    ensures CodeOfItem(T0, LISTS, ZeroBothWays(y)) == ZeroCode(y)
  {
    hide GenSimple, Restored, Saved, After;
    var item := ZeroBothWays(y);
    var x, z, j := T0[0 := Info(true, 0, true)], T0[0 := Info(false, 0, true)], AssignImm(0, Int(0));
    SameTables(y);
    Subtracts(y);
    Assigns();
    BranchIs();
    assert item.thn[1..] == [Do(j)] && [Do(j)][1..] == [];
    assert CodeOf(T0, LISTS, [Do(j)]) == [] + CodeOf(x, LISTS, []) == [];
    assert CodeOf(T0, LISTS, item.thn) == [Run(Arith(Sub, 0, y))] + CodeOf(T0, LISTS, [Do(j)]) ==
        [Run(Arith(Sub, 0, y))];
    assert CodeOf(x, LISTS, item.els) == [Mov(0, 0)] + CodeOf(z, LISTS, []) == [Mov(0, 0)];
    assert Moves(T0, []) == [] && Moves(x, []) == [] && Moves(z, []) == [];
  }

  lemma BranchIs()
    ensures Branch(T0, 1, Label(Else, 0)) == [Run(JumpIf(false, false, 1, Label(Else, 0)))]
  {
  }

  /** Running it: four steps either way. */
  lemma CodeRuns(y: nat, words: map<nat, int>)
    requires (y == 0 || y == 2) && {0, 1, 2} <= words.Keys
    ensures AdvanceBy(ZeroCode(y), Here(0, words), 4) ==
            Here(6, words[0 := if words[1] != 0 then ArithWords(Sub, words[0], words[y]) else 0])
    ensures forall m, words' :: 0 <= m < 4 ==> AdvanceBy(ZeroCode(y), Here(0, words), m) != Here(6, words')
  {
    hide AdvanceBy, ArithWords, ZeroCode, Advance;
    var code := ZeroCode(y);
    if words[1] != 0 {
      ThenRuns(y, words);
      var words1 := words[0 := ArithWords(Sub, words[0], words[y])];
      FourSteps(code, Here(0, words), Here(1, words), Here(2, words1), Here(5, words1), Here(6, words1));
    } else {
      ElseRuns(y, words);
      var words1 := words[0 := 0];
      FourSteps(code, Here(0, words), Here(3, words), Here(4, words), Here(5, words1), Here(6, words1));
    }
  }

  lemma ThenRuns(y: nat, words: map<nat, int>)
    requires (y == 0 || y == 2) && {0, 1, 2} <= words.Keys && words[1] != 0
    ensures var code, words1 := ZeroCode(y), words[0 := ArithWords(Sub, words[0], words[y])];
      && Advance(code, Here(0, words)) == Here(1, words) && Advance(code, Here(1, words)) == Here(2, words1)
      && Advance(code, Here(2, words1)) == Here(5, words1) && Advance(code, Here(5, words1)) == Here(6, words1)
  {
    hide ArithWords, FindMark;
    Marks(y);
  }

  lemma ElseRuns(y: nat, words: map<nat, int>)
    requires (y == 0 || y == 2) && {0, 1, 2} <= words.Keys && words[1] == 0
    ensures var code, words1 := ZeroCode(y), words[0 := 0];
      && Advance(code, Here(0, words)) == Here(3, words) && Advance(code, Here(3, words)) == Here(4, words)
      && Advance(code, Here(4, words)) == Here(5, words1) && Advance(code, Here(5, words1)) == Here(6, words1)
  {
    hide ArithWords, FindMark;
    Marks(y);
  }

  lemma FourSteps(code: seq<Residual>, m0: Machine, m1: Machine, m2: Machine, m3: Machine, m4: Machine)
    requires Advance(code, m0) == m1 && Advance(code, m1) == m2 && Advance(code, m2) == m3 && Advance(code, m3) == m4
    ensures AdvanceBy(code, m0, 4) == m4
    ensures forall m :: 0 <= m < 4 ==>
        AdvanceBy(code, m0, m) == if m == 0 then m0 else if m == 1 then m1 else if m == 2 then m2 else m3
  {
    hide Advance;
    assert AdvanceBy(code, m4, 0) == m4;
    assert AdvanceBy(code, m3, 1) == m4 && AdvanceBy(code, m2, 2) == m4 && AdvanceBy(code, m1, 3) == m4;
    assert AdvanceBy(code, m0, 1) == AdvanceBy(code, m1, 0) == m1;
    assert AdvanceBy(code, m0, 2) == AdvanceBy(code, m1, 1) == AdvanceBy(code, m2, 0) == m2;
    assert AdvanceBy(code, m0, 3) == AdvanceBy(code, m1, 2) == AdvanceBy(code, m2, 1) == AdvanceBy(code, m3, 0) == m3;
  }

  lemma Marks(y: nat)
    ensures FindMark(ZeroCode(y), Label(Else, 0)) == Some(3) && FindMark(ZeroCode(y), Label(IfElseEnd, 0)) == Some(5)
  {
    var e, f := FindMark(ZeroCode(y), Label(Else, 0)), FindMark(ZeroCode(y), Label(IfElseEnd, 0));
    assert ZeroCode(y)[3] == Run(LabelAt(Label(Else, 0))) && ZeroCode(y)[5] == Run(LabelAt(Label(IfElseEnd, 0)));
  }

  lemma {:induction false} LostStays(program: seq<Residual>, n: nat)
    ensures AdvanceBy(program, Lost, n) == Lost
  {
    if n > 0 {
      LostStays(program, n - 1);
    }
  }

  lemma OneMore(program: seq<Residual>, m: Machine, n: nat)
    requires n > 0
    ensures AdvanceBy(program, m, n) == AdvanceBy(program, Advance(program, m), n - 1)
  {
  }

  /** The only time the code is at its end. */
  lemma EndsOnce(y: nat, words: map<nat, int>, m: nat, words': map<nat, int>)
    requires (y == 0 || y == 2) && {0, 1, 2} <= words.Keys
    requires AdvanceBy(ZeroCode(y), Here(0, words), m) == Here(6, words')
    ensures m == 4
  {
    hide ArithWords, AdvanceBy;
    CodeRuns(y, words);
    if m > 4 {
      var code := ZeroCode(y);
      var last := AdvanceBy(code, Here(0, words), 4);
      AdvanceAdds(code, Here(0, words), 4, m - 4);
      assert AdvanceBy(code, last, m - 4) == AdvanceBy(code, Advance(code, last),
          m - 5) by { OneMore(code, last, m - 4); }
      LostStays(code, m - 5);
    }
  }

  /** Plainly, x is zero at the end. */
  lemma PlainlyZero(call: (string, seq<Value>, seq<Event>) -> Value, y: nat, store: Store)
    requires (y == 0 || y == 2) && AllSupported([ZeroBothWays(y)]) && Exec(Words(call), [ZeroBothWays(y)], store).Some?
    ensures Exec(Words(call), [ZeroBothWays(y)], store).value == store[0 := Int(0)]
    ensures 1 in store && store[1].Bool?
  {
    var item, w, j := ZeroBothWays(y), Words(call), AssignImm(0, Int(0));
    assert item.thn[1..] == [Do(j)] && [Do(j)][1..] == [] && [item][1..] == [];
    assert Exec(w, item.test, store) == Some(store);
    forall s: Store ensures Exec(w, [Do(j)], s) == Some(s[0 := Int(0)]) {
      assert ExecItem(w, Do(j), s) == Some(s[0 := Int(0)]);
      assert Exec(w, [], s[0 := Int(0)]) == Some(s[0 := Int(0)]);
    }
    assert ExecItem(w, item, store).Some?;
    if store[1].b {
      var s := ExecItem(w, item.thn[0], store);
      assert Exec(w, item.thn, store) == Exec(w, [Do(j)], s.value);
      assert s.value[0 := Int(0)] == store[0 := Int(0)];
    }
  }

  lemma BothSupported(y: nat)
    ensures AllSupported([ZeroBothWays(y)]) && ScopeAfter(SCOPE, [ZeroBothWays(y)]) == SCOPE
  {
    var item, j := ZeroBothWays(y), AssignImm(0, Int(0));
    assert item.thn[1..] == [Do(j)] && [Do(j)][1..] == [] && [item][1..] == [];
    assert AllSupported(item.els) && AllSupported(item.thn);
  }

  /** Two selects whose branches leave the same things known, at every point: one goes right on all inputs, the
      other does not. So no comparison of what is known decides it. */
  lemma TablesDoNotDecide(call: (string, seq<Value>, seq<Event>) -> Value)
    ensures var a, b, x := ZeroBothWays(0), ZeroBothWays(2), T0[0 := Info(true, 0, true)];
      && a.list == b.list && After(T0, LISTS, a.thn) == After(T0, LISTS, b.thn) == x
      && After(x, LISTS, a.els) == After(x, LISTS, b.els) && After(T0, LISTS, [a]) == After(T0, LISTS, [b])
      && AllSupported([a]) && AllSupported([b])
      && AlwaysRight(Words(call), LISTS, SCOPE, T0, [a]) && !AlwaysRight(Words(call), LISTS, SCOPE, T0, [b])
  {
    hide Words, Right, AlwaysRight, AllSupported, After, ScopeAfter;
    SameTables(0);
    SameTables(2);
    BothSupported(0);
    BothSupported(2);
    SameVariableIsRight(call);
    OtherVariableIsWrong(call);
  }

  lemma SameVariableIsRight(call: (string, seq<Value>, seq<Event>) -> Value)
    requires AllSupported([ZeroBothWays(0)])
    ensures AlwaysRight(Words(call), LISTS, SCOPE, T0, [ZeroBothWays(0)])
  {
    hide Words, Exec, GenAll, AdvanceBy, Flatten, AllSupported, ScopeAfter;
    var items, w := [ZeroBothWays(0)], Words(call);
    CodeIs(0);
    BothSupported(0);
    forall store, words | AgreeOn(SCOPE, T0, store, words) && Exec(w, items, store).Some?
      ensures Right(w, LISTS, SCOPE, T0, items, store, words)
    {
      AllRuntime(store, words);
      PlainlyZero(call, 0, store);
      CodeRuns(0, words);
      assert ArithWords(Sub, words[0], words[0]) == 0;
      var words' := words[0 := 0];
      assert AdvanceBy(ZeroCode(0), Here(0, words), 4) == Here(|ZeroCode(0)|, words');
      assert AgreeOn(SCOPE, T0[0 := Info(false, 0, true)], store[0 := Int(0)], words');
    }
  }

  lemma AllRuntime(store: Store, words: map<nat, int>)
    requires AgreeOn(SCOPE, T0, store, words)
    ensures {0, 1, 2} <= words.Keys && forall v :: v in SCOPE ==> v in store && words[v] == Encode(store[v])
  {
    assert forall v :: v in SCOPE ==> Agrees(T0, store, words, v);
  }

  /** x = 1 and y = 0: what is left at run time is x - y. */
  lemma OtherVariableIsWrong(call: (string, seq<Value>, seq<Event>) -> Value)
    requires AllSupported([ZeroBothWays(2)])
    ensures !AlwaysRight(Words(call), LISTS, SCOPE, T0, [ZeroBothWays(2)])
  {
    hide Words, Exec, GenAll, AdvanceBy, Flatten, AllSupported, ScopeAfter;
    var items, w := [ZeroBothWays(2)], Words(call);
    var store: Store, words: map<nat, int> := map[0 := Int(1), 1 := Bool(true), 2 := Int(0)],
        map[0 := 1, 1 := 1, 2 := 0];
    CodeIs(2);
    BothSupported(2);
    Executes(call, store);
    PlainlyZero(call, 2, store);
    CodeRuns(2, words);
    assert ArithWords(Sub, 1, 0) == 1;
    assert AgreeOn(SCOPE, T0, store, words);
    forall m: nat, words' | AdvanceBy(ZeroCode(2), Here(0, words), m) == Here(6, words')
      ensures !AgreeOn(SCOPE, T0[0 := Info(false, 0, true)], store[0 := Int(0)], words')
    {
      EndsOnce(2, words, m, words');
      assert !Agrees(T0[0 := Info(false, 0, true)], store[0 := Int(0)], words', 0);
    }
    assert !Right(w, LISTS, SCOPE, T0, items, store, words);
  }

  lemma Executes(call: (string, seq<Value>, seq<Event>) -> Value, store: Store)
    requires store == map[0 := Int(1), 1 := Bool(true), 2 := Int(0)] && AllSupported([ZeroBothWays(2)])
    ensures Exec(Words(call), [ZeroBothWays(2)], store).Some?
  {
    var item, w, j := ZeroBothWays(2), Words(call), AssignImm(0, Int(0));
    assert item.thn[1..] == [Do(j)] && [Do(j)][1..] == [] && [item][1..] == [];
    assert Exec(w, item.test, store) == Some(store);
    var s := store[0 := Int(1)];
    assert ExecItem(w, item.thn[0], store) == Some(s);
    assert ExecItem(w, Do(j), s) == Some(s[0 := Int(0)]);
    assert Exec(w, [Do(j)], s).Some?;
    assert Exec(w, item.thn, store).Some?;
    assert ExecItem(w, item, store).Some?;
  }
}
