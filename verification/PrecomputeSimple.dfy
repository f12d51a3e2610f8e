/** One instruction at a time: what the table knows is right, and the code that remains computes the rest. An
    instruction updates a variable from itself and another, makes it from another, or compares two. */
module PrecomputeSimple {
  import opened Ir
  import opened Options
  import opened Precompute

  /** Instructions that neither jump nor call. */
  function ExecInst(w: World, store: Store, i: Inst): Option<Store>
    requires Supported(i)
  {
    match StepInst(w, [], Running(0, store, []), i)
    case Running(_, store', _) => Some(store')
    case _ => None
  }

  /** What an instruction reads. */
  function ReadsOf(i: Inst): set<nat> {
    match i
    case Assign(_, read) => {read}
    case Arith(_, out, read) => {out, read}
    case Increment(out) => {out}
    case Decrement(out) => {out}
    case Compare(_, read, right, _) => {read, right}
    case Not(_, read) => {read}
    case And(out, read) => {out, read}
    case Or(out, read) => {out, read}
    case _ => {}
  }

  function OutOf(i: Inst): nat
    requires Supported(i)
  {
    MutationVar(i).GetOr(0)
  }

  /** The table has the value, or the variable's place at run time does. */
  ghost predicate Agrees(t: Table, store: Store, words: map<nat, int>, v: nat) {
    v in store && IsWord(store[v]) &&
    if Get(t, v).known then Get(t, v).value == Encode(store[v]) else v in words && words[v] == Encode(store[v])
  }

  ghost predicate AgreeOn(scope: set<nat>, t: Table, store: Store, words: map<nat, int>) {
    forall v :: v in scope ==> Agrees(t, store, words, v)
  }

  /** Code without jumps, run from one end to the other. */
  function Straight(words: map<nat, int>, code: seq<Residual>): Option<map<nat, int>> {
    if code == [] then Some(words)
    else
      match Straight(words, code[..|code| - 1])
      case None => None
      case Some(w) => Effect(w, code[|code| - 1])
  }

  function Effect(words: map<nat, int>, r: Residual): Option<map<nat, int>> {
    match Advance([r], Here(0, words))
    case Lost => None
    case Here(_, w) => Some(w)
  }

  lemma OneStraight(words: map<nat, int>, r: Residual)
    ensures Straight(words, [r]) == Effect(words, r)
  {
    assert [r][..0] == [];
    assert Straight(words, []) == Some(words);
  }

  lemma TwoStraight(words: map<nat, int>, out: nat, imm: int, r: Residual)
    ensures Straight(words, [Mov(out, imm), r]) == Effect(words[out := imm], r)
  {
    assert [Mov(out, imm), r][..1] == [Mov(out, imm)];
    OneStraight(words, Mov(out, imm));
  }

  // ----- Words and values -----

  lemma BitsOfBools(a: bool, b: bool)
    ensures BitAnd(OfBool(a), OfBool(b)) == OfBool(a && b)
    ensures BitOr(OfBool(a), OfBool(b)) == OfBool(a || b)
  {
    assert BitAnd(1, 1) == 2 * BitAnd(0, 0) + 1;
    assert BitAnd(-2, -2) == 2 * BitAnd(-1, -1) + 0;
    assert BitAnd(-1, -1) == -1 && BitAnd(-1, -2) == -2 && BitAnd(-2, -1) == -2;
  }

  // ----- One instruction -----

  /** The instruction carried out on words: a is what it updates or compares, b what it reads besides. */
  function OnWords(i: Inst, a: int, b: int): int
    requires Supported(i)
  {
    match i
    case AssignImm(_, imm) => Encode(imm)
    case Assign(_, _) => b
    case Arith(op, _, _) => ArithWords(op, a, b)
    case Increment(_) => Wrap(a + 1)
    case Decrement(_) => Wrap(a - 1)
    case Compare(how, _, _, _) => OfBool(Compares(how, a, b))
    case Not(_, _) => OfBool(b == 0)
    case And(_, _) => BitAnd(a, b)
    case Or(_, _) => BitOr(a, b)
  }

  function LeftOf(i: Inst): nat
    requires Supported(i)
  {
    if i.Compare? then i.read else OutOf(i)
  }

  function RightOf(i: Inst): nat
    requires Supported(i)
  {
    match i
    case Assign(_, read) => read
    case Arith(_, _, read) => read
    case Compare(_, _, right, _) => right
    case Not(_, read) => read
    case And(_, read) => read
    case Or(_, read) => read
    case _ => OutOf(i)
  }

  function WordOf(store: Store, v: nat): int {
    if v in store then Encode(store[v]) else 0
  }

  /** What an instruction does to values is what it does to words. */
  ghost predicate ActsOnWords(w: World, store: Store, i: Inst)
    requires Supported(i)
  {
    match ExecInst(w, store, i)
    case None => true
    case Some(store') =>
      && ReadsOf(i) <= store.Keys && OutOf(i) in store' && store' == store[OutOf(i) := store'[OutOf(i)]]
      && IsWord(store'[OutOf(i)])
      && Encode(store'[OutOf(i)]) == OnWords(i, WordOf(store, LeftOf(i)), WordOf(store, RightOf(i)))
      && (i.And? || i.Or? ==> store[i.out].Bool? && store[i.read].Bool?)
  }

  lemma CopiesActOnWords(w: World, call: (string, seq<Value>, seq<Event>) -> Value, store: Store, i: Inst)
    requires w == Words(call) && Supported(i) && (i.Assign? || i.AssignImm? || i.Not?)
    requires forall v :: v in ReadsOf(i) && v in store ==> IsWord(store[v])
    ensures ActsOnWords(w, store, i)
  {
    hide Wrap, BitAnd, BitOr, Compares;
  }

  lemma ArithActsOnWords(w: World, call: (string, seq<Value>, seq<Event>) -> Value, store: Store, i: Inst)
    requires w == Words(call) && Supported(i) && (i.Arith? || i.Increment? || i.Decrement?)
    ensures ActsOnWords(w, store, i)
  {
    hide BitAnd, BitOr, Compares, Wrap;
  }

  lemma CompareActsOnWords(w: World, call: (string, seq<Value>, seq<Event>) -> Value, store: Store, i: Inst)
    requires w == Words(call) && Supported(i) && i.Compare?
    ensures ActsOnWords(w, store, i)
  {
    hide Wrap, BitAnd, BitOr, Compares;
  }

  lemma LogicActsOnWords(w: World, store: Store, i: Inst)
    requires Supported(i) && (i.And? || i.Or?)
    ensures ActsOnWords(w, store, i)
  {
    hide Wrap, BitAnd, BitOr, Compares;
    if i.out in store && i.read in store && store[i.out].Bool? && store[i.read].Bool? {
      BitsOfBools(store[i.out].b, store[i.read].b);
    }
  }

  lemma InstActsOnWords(w: World, call: (string, seq<Value>, seq<Event>) -> Value, store: Store, i: Inst)
    requires w == Words(call) && Supported(i)
    requires forall v :: v in ReadsOf(i) && v in store ==> IsWord(store[v])
    ensures ActsOnWords(w, store, i)
  {
    hide ActsOnWords, Words;
    if i.Arith? || i.Increment? || i.Decrement? {
      ArithActsOnWords(w, call, store, i);
    } else if i.Compare? {
      CompareActsOnWords(w, call, store, i);
    } else if i.And? || i.Or? {
      LogicActsOnWords(w, store, i);
    } else {
      CopiesActOnWords(w, call, store, i);
    }
  }

  /** Where x is to be found as the word of v. */
  ghost predicate Holds(t: Table, words: map<nat, int>, v: nat, x: int) {
    if Get(t, v).known then Get(t, v).value == x else v in words && words[v] == x
  }

  /** The instruction has left its result where the table says, and everything else as it was. */
  ghost predicate Leaves(t: Table, words: map<nat, int>, made: Made, out: nat, x: int) {
    match Straight(words, made.code)
    case None => false
    case Some(words') =>
      && |made.table| == |t| && Holds(made.table, words', out, x)
      && (forall v :: v != out ==>
          Get(made.table, v) == Get(t, v) && (v in words' <==> v in words) && (v in words ==> words'[v] == words[v]))
  }

  ghost predicate Ready(t: Table, words: map<nat, int>, i: Inst, a: int, b: int) {
    && Supported(i) && !Panics(t, i) && !FoldsStale(t, i) && OutOf(i) < |t|
    && (LeftOf(i) in ReadsOf(i) ==> Holds(t, words, LeftOf(i), a))
    && (RightOf(i) in ReadsOf(i) ==> Holds(t, words, RightOf(i), b))
    && (LeftOf(i) == RightOf(i) ==> a == b)
    && (i.And? || i.Or? ==> (a == 0 || a == 1) && (b == 0 || b == 1))
  }

  lemma ConstantIs(t: Table, out: nat, imm: Value)
    requires out < |t|
    ensures GenSimple(t, AssignImm(out, imm)) == GenAssignImm(t, out, imm)
  {
    hide GenAssignImm, CanPrecompute, Precomputed, PartialKnown, AnyKnown;
    assert AllInputsKnown(t, AssignImm(out, imm));
    var a := GenAssignImm(t, out, imm);
    assert [] + a.code == a.code;
  }

  lemma AssignImmLeaves(t: Table, words: map<nat, int>, i: Inst, a: int, b: int)
    requires Ready(t, words, i, a, b) && i.AssignImm?
    ensures Leaves(t, words, GenSimple(t, i), OutOf(i), OnWords(i, a, b))
  {
    hide Wrap, BitAnd, BitOr, Compares, ArithWords, GenSimple;
    ConstantIs(t, i.out, i.imm);
    OneStraight(words, Mov(i.out, Encode(i.imm)));
  }

  /** An instruction that updates `out` from itself and `read`. */
  lemma UpdateCases(t: Table, i: Inst)
    requires (i.Arith? || i.And? || i.Or?) && i.out < |t|
    ensures var kl, kr := Get(t, i.out).known, Get(t, i.read).known;
      GenSimple(t, i) ==
        if kl && kr then Made(Precomputed(t, i), [])
        else if kr then Made(t, [] + PartialKnown(t, i))
        else Made(Materialize(t, i.out).table, Materialize(t, i.out).code + [Run(i)])
  {
    hide BitAnd, BitOr, Wrap, PartialKnown, Precomputed;
    assert i.out in VarsOf(i) && i.read in VarsOf(i);
  }

  /** Giving up what is known of `out`, if anything is, and then one instruction that sets it. */
  lemma RunsAfter(t: Table, words: map<nat, int>, out: nat, r: Residual, x: int)
    requires out < |t|
    requires var words' := if Get(t, out).known then words[out := Get(t, out).value] else words;
             Effect(words', r) == Some(words'[out := x])
    ensures Leaves(t, words, Made(Materialize(t, out).table, Materialize(t, out).code + [r]), out, x)
  {
    hide Effect, Straight, SetInfo;
    var m := Materialize(t, out);
    if Get(t, out).known {
      assert m.code + [r] == [Mov(out, Get(t, out).value), r];
      TwoStraight(words, out, Get(t, out).value, r);
    } else {
      assert m.code + [r] == [r];
      OneStraight(words, r);
    }
  }

  lemma UpdateEffect(words: map<nat, int>, i: Inst, a: int, b: int)
    requires Supported(i) && (i.Arith? || i.And? || i.Or?)
    requires i.out in words && words[i.out] == a && i.read in words && words[i.read] == b
    ensures Effect(words, Run(i)) == Some(words[i.out := OnWords(i, a, b)])
  {
    hide BitAnd, BitOr, Wrap, ArithWords;
  }

  lemma UpdateLeaves(t: Table, words: map<nat, int>, i: Inst, a: int, b: int)
    requires Ready(t, words, i, a, b) && (i.Arith? || i.And? || i.Or?)
    ensures Leaves(t, words, GenSimple(t, i), OutOf(i), OnWords(i, a, b))
  {
    hide BitAnd, BitOr, Wrap, GenSimple, ArithWords, Effect, PartialKnown;
    UpdateCases(t, i);
    if Get(t, i.read).known {
      if Get(t, i.out).known {
        NothingRuns(t, words, i.out, OnWords(i, a, b));
      } else {
        PartialUpdate(t, words, i, a, b);
        assert [] + PartialKnown(t, i) == [] + [PartialKnown(t, i)[0]];
        RunsAfter(t, words, i.out, PartialKnown(t, i)[0], OnWords(i, a, b));
      }
    } else {
      var words' := if Get(t, i.out).known then words[i.out := Get(t, i.out).value] else words;
      UpdateEffect(words', i, a, b);
      RunsAfter(t, words, i.out, Run(i), OnWords(i, a, b));
    }
  }

  lemma NothingRuns(t: Table, words: map<nat, int>, out: nat, x: int)
    requires out < |t|
    ensures Leaves(t, words, Made(WithValue(t, out, x), []), out, x)
  {
  }

  lemma PartialUpdate(t: Table, words: map<nat, int>, i: Inst, a: int, b: int)
    requires Ready(t, words, i, a, b) && (i.Arith? || i.And? || i.Or?) && Get(t, i.read).known && !Get(t, i.out).known
    ensures |PartialKnown(t, i)| == 1 && Effect(words, PartialKnown(t, i)[0]) == Some(words[i.out := OnWords(i, a, b)])
  {
    hide Wrap, ArithWords, BitAnd, BitOr;
    if !i.Arith? {
      BitsOfBools(a == 1, b == 1);
      assert OfBool(a == 1) == a && OfBool(b == 1) == b;
    }
  }

  lemma StepCases(t: Table, i: Inst)
    requires (i.Increment? || i.Decrement?) && i.out < |t|
    ensures GenSimple(t, i) == if Get(t, i.out).known then Made(Precomputed(t, i), []) else Made(t, [] + [Run(i)])
  {
    hide Wrap, Precomputed;
    assert i.out in VarsOf(i);
  }

  lemma StepLeaves(t: Table, words: map<nat, int>, i: Inst, a: int, b: int)
    requires Ready(t, words, i, a, b) && (i.Increment? || i.Decrement?)
    ensures Leaves(t, words, GenSimple(t, i), OutOf(i), OnWords(i, a, b))
  {
    hide Wrap, GenSimple, Leaves;
    StepCases(t, i);
    if Get(t, i.out).known {
      NothingRuns(t, words, i.out, OnWords(i, a, b));
    } else {
      RunsAfter(t, words, i.out, Run(i), OnWords(i, a, b));
    }
  }

  /** An instruction that makes `out` from `read`. */
  lemma CopyCases(t: Table, i: Inst)
    requires (i.Assign? || i.Not?) && i.out < |t| && !Panics(t, i) && !FoldsStale(t, i)
    ensures var ko, kr := Get(t, i.out).known, Get(t, i.read).known;
      GenSimple(t, i) ==
        if kr && (Get(t, i.out).once ==> ko) then Made(Precomputed(t, i), [])
        else if kr then Made(t, [] + PartialKnown(t, i))
        else Made(Materialize(t, i.out).table, Materialize(t, i.out).code + [Run(i)])
  {
    hide PartialKnown, Precomputed;
    assert i.out in VarsOf(i) && i.read in VarsOf(i);
  }

  lemma CopyLeaves(t: Table, words: map<nat, int>, i: Inst, a: int, b: int)
    requires Ready(t, words, i, a, b) && (i.Assign? || i.Not?)
    ensures Leaves(t, words, GenSimple(t, i), OutOf(i), OnWords(i, a, b))
  {
    hide GenSimple, Effect, PartialKnown;
    CopyCases(t, i);
    if Get(t, i.read).known {
      if Get(t, i.out).once && !Get(t, i.out).known {
        PartialCopy(t, words, i, b);
        assert [] + PartialKnown(t, i) == [] + [PartialKnown(t, i)[0]];
        RunsAfter(t, words, i.out, PartialKnown(t, i)[0], OnWords(i, a, b));
      } else {
        assert Straight(words, []) == Some(words);
      }
    } else {
      var words' := if Get(t, i.out).known then words[i.out := Get(t, i.out).value] else words;
      CopyEffect(words', i, a, b);
      RunsAfter(t, words, i.out, Run(i), OnWords(i, a, b));
    }
  }

  lemma PartialCopy(t: Table, words: map<nat, int>, i: Inst, b: int)
    requires i.Assign? && Get(t, i.read).known && Get(t, i.read).value == b
    ensures |PartialKnown(t, i)| == 1 && Effect(words, PartialKnown(t, i)[0]) == Some(words[i.out := b])
  {
  }

  lemma CopyEffect(words: map<nat, int>, i: Inst, a: int, b: int)
    requires Supported(i) && (i.Assign? || i.Not?) && i.read in words && words[i.read] == b
    ensures Effect(words, Run(i)) == Some(words[i.out := OnWords(i, a, b)])
  {
    hide Wrap, BitAnd, BitOr, Compares, ArithWords;
  }

  lemma CompareCases(t: Table, i: Inst)
    requires i.Compare? && i.result < |t|
    ensures var kl, kr := Get(t, i.read).known, Get(t, i.right).known;
      if kl && kr then GenSimple(t, i) == Made(Precomputed(t, i), [])
      else
        var m := Materialize(t, i.result);
        GenSimple(t, i) == Made(m.table, m.code +
          if Get(m.table, i.read).known || Get(m.table, i.right).known then PartialKnown(m.table, i) else [Run(i)])
  {
    hide PartialKnown, Precomputed;
    assert i.read in VarsOf(i) && i.right in VarsOf(i) && i.result in VarsOf(i);
  }

  lemma CompareLeaves(t: Table, words: map<nat, int>, i: Inst, a: int, b: int)
    requires Ready(t, words, i, a, b) && i.Compare?
    ensures Leaves(t, words, GenSimple(t, i), OutOf(i), OnWords(i, a, b))
  {
    hide GenSimple, Compares, Effect;
    CompareCases(t, i);
    if !(Get(t, i.read).known && Get(t, i.right).known) {
      var m := Materialize(t, i.result);
      var words' := if Get(t, i.result).known then words[i.result := Get(t, i.result).value] else words;
      CompareEffect(m.table, words', i, a, b);
      var r := if Get(m.table, i.read).known || Get(m.table, i.right).known then PartialKnown(m.table, i)[0]
          else Run(i);
      assert GenSimple(t, i).code == m.code + [r];
      RunsAfter(t, words, i.result, r, OnWords(i, a, b));
    }
  }

  lemma CompareEffect(t: Table, words: map<nat, int>, i: Inst, a: int, b: int)
    requires i.Compare? && Holds(t, words, i.read, a) && Holds(t, words, i.right, b)
    requires !(Get(t, i.read).known && Get(t, i.right).known)
    ensures var r := if Get(t, i.read).known || Get(t, i.right).known then PartialKnown(t, i)[0] else Run(i);
            PartialKnown(t, i) == [PartialKnown(t, i)[0]] && Effect(words, r) ==
                Some(words[i.result := OfBool(Compares(i.how, a, b))])
  {
    hide Compares;
  }

  /** The generator's code for an instruction, together with the table, does what the instruction does. */
  lemma SimpleLeaves(t: Table, words: map<nat, int>, i: Inst, a: int, b: int)
    requires Supported(i) && Ready(t, words, i, a, b)
    ensures Leaves(t, words, GenSimple(t, i), OutOf(i), OnWords(i, a, b))
  {
    hide Ready, Leaves, GenSimple, OnWords;
    if i.Arith? || i.And? || i.Or? {
      UpdateLeaves(t, words, i, a, b);
    } else if i.Increment? || i.Decrement? {
      StepLeaves(t, words, i, a, b);
    } else if i.Assign? || i.Not? {
      CopyLeaves(t, words, i, a, b);
    } else if i.Compare? {
      CompareLeaves(t, words, i, a, b);
    } else {
      AssignImmLeaves(t, words, i, a, b);
    }
  }

  /** Negating a stale value goes right exactly when it happens to be as true as the value the variable has. */
  lemma StaleExactly(t: Table, words: map<nat, int>, i: Inst, b: int)
    requires FoldsStale(t, i) && i.out < |t| && i.out in words && words[i.out] == b
    ensures Leaves(t, words, GenSimple(t, i), i.out, OnWords(i, b, b)) <==> (Get(t, i.out).value == 0 <==> b == 0)
  {
    hide Wrap, BitAnd, BitOr, Compares, ArithWords, PartialKnown;
    assert i.out in VarsOf(i);
    assert GenSimple(t, i) == Made(Precomputed(t, i), []);
    assert Straight(words, []) == Some(words);
  }

  /** x = !x for x true, and the generator takes x for true afterwards. */
  lemma StaleIsWrong(call: (string, seq<Value>, seq<Event>) -> Value)
    ensures var t, i, x := [NOTHING], Not(0, 0), Bool(true);
      && FoldsStale(t, i) && AgreeOn({0}, t, map[0 := x], map[0 := 1])
      && ExecInst(Words(call), map[0 := x], i) == Some(map[0 := Bool(false)])
      && GenSimple(t, i) == Made([Info(true, 1, false)], [])
  {
    hide Wrap, BitAnd, BitOr, Compares, ArithWords, PartialKnown;
    var i := Not(0, 0);
    assert VarsOf(i) == [0, 0] && MutationVar(i) == Some(0);
    assert Precomputed([NOTHING], i) == [Info(true, 1, false)];
    var store: Store := map[0 := Bool(true)];
    assert store[0 := Bool(false)] == map[0 := Bool(false)];
  }
}
