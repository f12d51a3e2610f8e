/** The generator as it works: a table updated in place, a stack of saved tables, and code appended. */
module PrecomputeGens {
  import opened Ir
  import opened Options
  import opened Precompute
  import opened PrecomputeSound
  import W = WordLaws

  lemma SavedNone(t: Table)
    ensures Saved(t, []) == [] && Moves(t, []) == []
  {
  }

  lemma SavedOneMore(t: Table, list: seq<nat>, k: nat)
    requires k < |list|
    ensures var before, info := Saved(t, list[..k]), VarInfo(list[k], Get(t, list[k]));
      Saved(t, list[..k + 1]) == (if Get(t, list[k]).known then before + [info] else before)
    ensures var before, info := Saved(t, list[..k]), VarInfo(list[k], Get(t, list[k]));
      Get(t, list[k]).known ==> Moves(t, before + [info]) == Moves(t, before) + [Mov(list[k], Get(t, list[k]).value)]
  {
    assert list[..k + 1][..k] == list[..k];
    var before, info := Saved(t, list[..k]), VarInfo(list[k], Get(t, list[k]));
    assert (before + [info])[..|before|] == before;
  }

  class PrecomputeGen {
    const precompute: array<Info>
    const lists: seq<seq<nat>>
    var optionSelectPrecompute: seq<seq<VarInfo>>
    var out: seq<Residual>

    ghost function State(): Gen
      reads this, precompute
    {
      Gen(precompute[..], optionSelectPrecompute)
    }

    /** Saved variables are in range. */
    predicate Fits(saved: seq<VarInfo>)
      reads this
    {
      forall k :: 0 <= k < |saved| ==> saved[k].vn < precompute.Length
    }

    ghost predicate Valid()
      reads this, precompute
    {
      forall i :: 0 <= i < |optionSelectPrecompute| ==> Fits(optionSelectPrecompute[i])
    }

    constructor (numberOfVars: nat, lists: seq<seq<nat>>)
      ensures fresh(precompute) && this.lists == lists && out == []
      ensures State() == Gen(seq(numberOfVars, _ => NOTHING), [])
    {
      precompute := new Info[numberOfVars](_ => NOTHING);
      this.lists := lists;
      optionSelectPrecompute, out := [], [];
    }

    predicate InRange(vars: seq<nat>)
      reads this
    {
      forall v :: v in vars ==> v < precompute.Length
    }

    /** Look at every variable of an instruction. */
    method VarStat(opt: Inst) returns (allInputsKnown: bool, anyVarKnown: bool)
      requires InRange(VarsOf(opt))
      ensures allInputsKnown == AllInputsKnown(precompute[..], opt) && anyVarKnown == AnyKnown(precompute[..], opt)
    {
      var vars, mut := VarsOf(opt), MutationVar(opt);
      anyVarKnown, allInputsKnown := false, true;
      for k := 0 to |vars|
        invariant allInputsKnown == forall v :: v in vars[..k] && Some(v) != mut ==> Get(precompute[..], v).known
        invariant anyVarKnown == exists v :: v in vars[..k] && Get(precompute[..], v).known
      {
        var vn := vars[k];
        assert vn in vars && Get(precompute[..], vn) == precompute[vn];
        assert vars[..k + 1] == vars[..k] + [vn] && vn in vars;
        if !precompute[vn].known {
          if Some(vn) != mut {
            allInputsKnown := false;
          }
        } else {
          anyVarKnown := true;
          assert vn in vars[..k + 1] && Get(precompute[..], vn).known;
        }
      }
      assert vars[..|vars|] == vars;
    }

    method EndPrecomputingAndMaterialize(vn: nat)
      requires vn < precompute.Length
      modifies this`out, precompute
      ensures var m := Materialize(old(precompute[..]), vn); precompute[..] == m.table && out == old(out) + m.code
    {
      if !precompute[vn].known {
        return;
      }
      out := out + [Mov(vn, precompute[vn].value)];
      precompute[vn] := precompute[vn].(known := false, once := true);
    }

    method GenAssignImm(vn: nat, imm: Value)
      requires vn < precompute.Length
      modifies this`out, precompute
      ensures var m := Precompute.GenAssignImm(old(precompute[..]), vn, imm);
          precompute[..] == m.table && out == old(out) + m.code
    {
      if !precompute[vn].once {
        precompute[vn] := Info(true, Encode(imm), true);
        return;
      }
      precompute[vn] := precompute[vn].(known := false);
      out := out + [Mov(vn, Encode(imm))];
    }

    /** Carry an instruction whose inputs are known out on the table, if that is possible. */
    method DoPrecomputation(opt: Inst) returns (did: bool)
      requires InRange(VarsOf(opt)) && AllInputsKnown(precompute[..], opt)
      modifies precompute
      ensures did == CanPrecompute(old(precompute[..]), opt)
      ensures precompute[..] == if did then Precomputed(old(precompute[..]), opt) else old(precompute[..])
      // what has been carried out is what the instruction means on its operands' values
      ensures did ==> W.AsMeant(old(precompute[..]), precompute[..], opt)
    {
      hide AllInputsKnown, Wrap, BitAnd, BitOr, Compares, W.AsMeant;
      ghost var t := precompute[..];
      if CanPrecompute(t, opt) {
        W.PrecomputedAsMeant(t, opt);
      }
      match opt {
      case Arith(op, left, right) =>
        assert left in VarsOf(opt) && right in VarsOf(opt);
        if !precompute[left].known { return false; }
        precompute[left] := precompute[left].(value := ArithWords(op, precompute[left].value, precompute[right].value));
        UpdateKnown(t, left, ArithWords(op, t[left].value, t[right].value));
      case And(left, right) =>
        assert left in VarsOf(opt) && right in VarsOf(opt);
        if !precompute[left].known { return false; }
        precompute[left] := precompute[left].(value := BitAnd(precompute[left].value, precompute[right].value));
      case Or(left, right) =>
        assert left in VarsOf(opt) && right in VarsOf(opt);
        if !precompute[left].known { return false; }
        precompute[left] := precompute[left].(value := BitOr(precompute[left].value, precompute[right].value));
      case Increment(vn) =>
        assert vn in VarsOf(opt);
        if !precompute[vn].known { return false; }
        precompute[vn] := precompute[vn].(value := Wrap(precompute[vn].value + 1));
      case Decrement(vn) =>
        assert vn in VarsOf(opt);
        if !precompute[vn].known { return false; }
        precompute[vn] := precompute[vn].(value := Wrap(precompute[vn].value - 1));
      case Assign(left, right) =>
        assert left in VarsOf(opt) && right in VarsOf(opt);
        // the compiler stops when the right side is the left side and not known
        if (precompute[left].once && !precompute[left].known) || !precompute[right].known { return false; }
        precompute[left] := precompute[right];
      case Not(vn, read) =>
        assert vn in VarsOf(opt) && read in VarsOf(opt);
        if precompute[vn].once && !precompute[vn].known { return false; }
        precompute[vn] := precompute[vn].(known := true, value := OfBool(precompute[read].value == 0));
      case Compare(how, read, right, result) =>
        assert read in VarsOf(opt) && right in VarsOf(opt) && result in VarsOf(opt);
        if !(precompute[read].known && precompute[right].known) { return false; }
        precompute[result] := precompute[result].(known := true,
            value := OfBool(Compares(how, precompute[read].value, precompute[right].value)));
      case _ => return false;
      }
      did := true;
    }

    lemma UpdateKnown(t: Table, v: nat, value: int)
      requires v < |t| && t[v].known
      ensures t[v := t[v].(value := value)] == WithValue(t, v, value)
    {
    }

    method StartOptionSelect(list: nat)
      requires list < |lists| && InRange(lists[list])
      modifies this`optionSelectPrecompute, this`out
      ensures var g := GenInst(old(State()), lists, OptionSelectStart(list));
          State() == g.gen && out == old(out) + g.code
    {
      hide Saved, Moves;
      SavedNone(precompute[..]);
      var outOfScopeMutations := lists[list];
      var precompStates: seq<VarInfo> := [];
      for k := 0 to |outOfScopeMutations|
        invariant precompStates == Saved(precompute[..], outOfScopeMutations[..k])
        invariant out == old(out) + Moves(precompute[..], precompStates)
            && optionSelectPrecompute == old(optionSelectPrecompute)
      {
        var mut := outOfScopeMutations[k];
        assert mut in lists[list];
        SavedOneMore(precompute[..], outOfScopeMutations, k);
        if precompute[mut].known {
          precompStates := precompStates + [VarInfo(mut, precompute[mut])];
          out := out + [Mov(mut, precompute[mut].value)];
        }
      }
      assert outOfScopeMutations[..|outOfScopeMutations|] == outOfScopeMutations;
      optionSelectPrecompute := optionSelectPrecompute + [precompStates];
    }

    method GenOptionEnd(list: nat)
      requires optionSelectPrecompute != [] && Fits(optionSelectPrecompute[|optionSelectPrecompute| - 1])
      modifies this`out, precompute
      ensures var g := GenInst(old(State()), lists, OptionEnd(list)); State() == g.gen && out == old(out) + g.code
    {
      var currentPrecomp := optionSelectPrecompute[|optionSelectPrecompute| - 1];
      ghost var t := precompute[..];
      for k := 0 to |currentPrecomp|
        invariant precompute[..] == t && out == old(out) + Moves(t, currentPrecomp[..k])
      {
        assert currentPrecomp[..k + 1][..k] == currentPrecomp[..k];
        var vn := currentPrecomp[k].vn;
        if precompute[vn].known {
          out := out + [Mov(vn, precompute[vn].value)];
        }
      }
      assert currentPrecomp[..|currentPrecomp|] == currentPrecomp;
      for k := 0 to |currentPrecomp|
        invariant precompute[..] == Restored(t, currentPrecomp[..k]) && out == old(out) + Moves(t, currentPrecomp)
      {
        assert currentPrecomp[..k + 1][..k] == currentPrecomp[..k];
        precompute[currentPrecomp[k].vn] := currentPrecomp[k].info;
      }
      assert currentPrecomp[..|currentPrecomp|] == currentPrecomp;
    }

    method EndOptionSelect()
      requires optionSelectPrecompute != [] && Fits(optionSelectPrecompute[|optionSelectPrecompute| - 1])
      modifies this`optionSelectPrecompute, precompute
      ensures var g := GenInst(old(State()), lists, OptionSelectEnd); State() == g.gen && out == old(out) + g.code
    {
      var length := |optionSelectPrecompute|;
      var current := optionSelectPrecompute[length - 1];
      ghost var t := precompute[..];
      for k := 0 to |current|
        invariant optionSelectPrecompute == old(optionSelectPrecompute)
        invariant precompute[..] == Forgotten(t, current[..k])
      {
        assert current[..k + 1][..k] == current[..k];
        var vn := current[k].vn;
        precompute[vn] := precompute[vn].(known := false);
      }
      assert current[..|current|] == current;
      optionSelectPrecompute := optionSelectPrecompute[..length - 1];
    }

    method GenerateSingleInst(opt: Inst)
      requires Valid() && InRange(VarsOf(opt))
      requires opt.OptionSelectStart? ==> opt.list < |lists| && InRange(lists[opt.list])
      requires opt.OptionEnd? || opt.OptionSelectEnd? ==> optionSelectPrecompute != []
      modifies this`optionSelectPrecompute, this`out, precompute
      ensures Valid()
      ensures var g := GenInst(old(State()), lists, opt); State() == g.gen && out == old(out) + g.code
    {
      match opt
      case OptionSelectStart(list) =>
        StartOptionSelect(list);
        SavedFacts(precompute[..], lists[list]);
        forall k | 0 <= k < |Saved(precompute[..], lists[list])|
            ensures Saved(precompute[..], lists[list])[k].vn < precompute.Length {
          assert IsSaved(Saved(precompute[..], lists[list]), Saved(precompute[..], lists[list])[k].vn);
        }
      case OptionEnd(list) => GenOptionEnd(list);
      case OptionSelectEnd => EndOptionSelect();
      case _ => GenSimpleInst(opt);
    }

    method GenSimpleInst(opt: Inst)
      requires InRange(VarsOf(opt)) && !opt.OptionSelectStart? && !opt.OptionEnd? && !opt.OptionSelectEnd?
      modifies this`out, precompute
      ensures var m := GenSimple(old(precompute[..]), opt); precompute[..] == m.table && out == old(out) + m.code
    {
      hide AllInputsKnown, AnyKnown, CanPrecompute, Precomputed, PartialKnown;
      var mut := MutationVar(opt);
      assert mut.Some? ==> mut.value in VarsOf(opt);
      var allInputsKnown, anyVarKnown := VarStat(opt);
      if mut.Some? && precompute[mut.value].known && !allInputsKnown {
        EndPrecomputingAndMaterialize(mut.value);
        allInputsKnown, anyVarKnown := VarStat(opt);
      }
      if opt.AssignImm? {
        GenAssignImm(opt.out, opt.imm);
        return;
      }
      if allInputsKnown {
        var did := DoPrecomputation(opt);
        if did {
          return;
        }
      }
      if anyVarKnown {
        out := out + PartialKnown(precompute[..], opt);
      } else {
        out := out + [Run(opt)];
      }
    }

    /** Generating code for a list of instructions, one after the other. */
    method Generate(opts: seq<Inst>)
      requires Valid()
      requires forall i :: 0 <= i < |opts| ==> InRange(VarsOf(opts[i]))
      requires forall i :: 0 <= i < |opts| && opts[i].OptionSelectStart? ==>
          opts[i].list < |lists| && InRange(lists[opts[i].list])
      requires forall i :: 0 <= i < |opts| && (opts[i].OptionEnd? || opts[i].OptionSelectEnd?) ==>
                 GenAll(State(), lists, opts[..i]).gen.selects != []
      modifies this`optionSelectPrecompute, this`out, precompute
      ensures var g := GenAll(old(State()), lists, opts); State() == g.gen && out == old(out) + g.code
    {
      hide GenInst;
      for i := 0 to |opts|
        invariant Valid()
        invariant var g := GenAll(old(State()), lists, opts[..i]); State() == g.gen && out == old(out) + g.code
      {
        assert opts[..i + 1][..i] == opts[..i];
        GenerateSingleInst(opts[i]);
      }
      assert opts[..|opts|] == opts;
    }
  }
}
