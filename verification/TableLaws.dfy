/** Carrying out, giving up and stopping, by the table. */
module TableLaws {
  import opened Ir
  import opened Options
  import opened Precompute
  import opened PrecomputeSimple

  predicate Known(t: Table, v: nat) { Get(t, v).known }

  /** Known once and no longer: such a variable is to stay at run time. */
  predicate IsSpent(t: Table, v: nat) { Get(t, v).once && !Get(t, v).known }

  /** An instruction with known inputs is carried out when all it reads is known, unless its result would make something
      known again that has been given up; comparisons do not look at that. */
  lemma CarriedOutExactly(t: Table, i: Inst)
    requires Supported(i) && !i.AssignImm? && AllInputsKnown(t, i) && !Panics(t, i) && !FoldsStale(t, i)
    ensures CanPrecompute(t, i) <==>
      (forall v :: v in ReadsOf(i) ==> Known(t, v)) && (i.Assign? || i.Not? ==> !IsSpent(t, i.out))
  {
    if i.Compare? {
      assert i.read in ReadsOf(i) && i.right in ReadsOf(i);
    } else if i.Increment? || i.Decrement? {
      assert i.out in ReadsOf(i);
    } else {
      assert i.read in VarsOf(i) && i.read in ReadsOf(i);
      assert i.Arith? || i.And? || i.Or? ==> i.out in ReadsOf(i);
    }
  }

  /** An update with an operand at run time moves what was known of its result there, for good. */
  lemma GivenUp(t: Table, i: Inst)
    requires Supported(i) && OutOf(i) < |t| && Known(t, OutOf(i)) && !AllInputsKnown(t, i)
    ensures var m := GenSimple(t, i);
      IsSpent(m.table, OutOf(i)) && m.code != [] && m.code[0] == Mov(OutOf(i), Get(t, OutOf(i)).value)
  {
    hide CanPrecompute, Precomputed, PartialKnown, AnyKnown;
    var out := OutOf(i);
    var v :| v in VarsOf(i) && Some(v) != MutationVar(i) && !Known(t, v);
    var t' := Materialize(t, out).table;
    assert t' == SetInfo(t, out, Info(false, Get(t, out).value, true));
    assert MutationVar(i) == Some(out) && v != out && Get(t', v) == Get(t, v);
    assert !AllInputsKnown(t', i);
  }

  /** Only the first constant is kept in the table: the second one is stored. */
  lemma SecondConstantIsStored(t: Table, out: nat, a: Value, b: Value)
    requires out < |t| && IsWord(a) && IsWord(b)
    ensures var first := GenSimple(t, AssignImm(out, a)); var second := GenSimple(first.table, AssignImm(out, b));
      && (Known(first.table, out) <==> !Get(t, out).once)
      && (Known(first.table, out) ==> first.code == [] && Get(first.table, out).value == Encode(a))
      && IsSpent(second.table, out) && second.code == [Mov(out, Encode(b))]
  {
    ConstantIs(t, out, a);
    ConstantIs(GenSimple(t, AssignImm(out, a)).table, out, b);
  }

  /** The generator has no way to leave part of a negation, an increment or a decrement to run time. */
  predicate HasNoPartialForm(i: Inst) { i.Not? || i.Increment? || i.Decrement? }

  /** It stops when it is to copy something that it does not know, or to leave part of such an instruction. */
  lemma StopsExactly(t: Table, i: Inst)
    requires Supported(i) && OutOf(i) < |t|
    ensures var t' := if Known(t, OutOf(i)) && !AllInputsKnown(t, i) then Materialize(t, OutOf(i)).table else t;
      Panics(t, i) <==>
        || (i.Assign? && AllInputsKnown(t', i) && !IsSpent(t', i.out) && !Known(t', i.read))
        || (HasNoPartialForm(i) && !(AllInputsKnown(t', i) && CanPrecompute(t', i)) && AnyKnown(t', i))
  {
    assert i.Assign? || i.Not? ==> i.read in VarsOf(i) && i.out in VarsOf(i);
    assert i.Increment? || i.Decrement? ==> i.out in VarsOf(i);
  }
}
