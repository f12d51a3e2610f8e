/** The typer: one pass that gives each variable a type. */
module Typers {
  import opened Ir
  import opened Options
  import opened Typing
  import P = Procs

  // ----- The pass -----

  /** The types found so far. */
  type Types = map<nat, Type>

  /** The first type a variable is given stays; later values have to be of that type. */
  function Give(t: Types, v: nat, ty: Type): Option<Types> {
    if v !in t then Some(t[v := ty]) else if t[v] == ty then Some(t) else None
  }

  function TypesAt(t: Types, vars: seq<nat>): Option<seq<Type>> {
    if vars == [] then Some([])
    else if vars[0] !in t then None
    else match TypesAt(t, vars[1..]) { case None => None case Some(ts) => Some([t[vars[0]]] + ts) }
  }

  predicate IsAt(t: Types, v: nat, ty: Type) { v in t && t[v] == ty }

  /** What a jump tests and what is returned is not looked at. */
  function CheckInst(sigs: Signatures, t: Types, i: Inst): Option<Types> {
    match i
    case AssignImm(out, imm) => (match TypeOfValue(imm) { case None => None case Some(ty) => Give(t, out, ty) })
    case Call(out, callee, args) =>
      if callee in sigs && TypesAt(t, args) == Some(sigs[callee].params) then Give(t, out, sigs[callee].result)
          else None
    case Compare(how, read, right, result) =>
      if read in t && right in t && MayCompare(how, t[read], t[right]) then Some(t[result := BoolType]) else None
    case Assign(out, read) => if read in t then Give(t, out, t[read]) else None
    case Arith(_, out, read) => if IsAt(t, out, IntType) && IsAt(t, read, IntType) then Some(t) else None
    case And(out, read) => if IsAt(t, out, BoolType) && IsAt(t, read, BoolType) then Some(t) else None
    case Or(out, read) => if IsAt(t, out, BoolType) && IsAt(t, read, BoolType) then Some(t) else None
    case Not(out, read) => if IsAt(t, read, BoolType) then Give(t, out, BoolType) else None
    case Pointer(_, _, _) => None
    case _ => Some(t)
  }

  /** A comparison makes its result a truth value even if that was a number, where any other instruction is refused. */
  lemma ComparisonRetypes(sigs: Signatures, t: Types, a: nat, b: nat, result: nat, how: ComparisonMethod, v: bool)
    requires IsAt(t, a, IntType) && IsAt(t, b, IntType) && IsAt(t, result, IntType)
    ensures CheckInst(sigs, t, Compare(how, a, b, result)) == Some(t[result := BoolType])
    ensures CheckInst(sigs, t, AssignImm(result, Bool(v))) == None
    ensures forall c :: IsAt(t, c, BoolType) ==>
      CheckInst(sigs, t, Not(result, c)) == None && CheckInst(sigs, t, Assign(result, c)) == None
  {
  }

  function Check(sigs: Signatures, t: Types, code: seq<Inst>): Option<Types> {
    if code == [] then Some(t)
    else
      match Check(sigs, t, code[..|code| - 1])
      case None => None
      case Some(t') => CheckInst(sigs, t', code[|code| - 1])
  }

  /** The typer's own table and loop. */
  class Typer {
    const sigs: Signatures
    const typeTable: array<Option<Type>>

    constructor (sigs: Signatures, numberOfVars: nat)
      ensures this.sigs == sigs && typeTable.Length == numberOfVars && fresh(typeTable)
      ensures forall v :: 0 <= v < numberOfVars ==> typeTable[v] == None
    {
      this.sigs := sigs;
      typeTable := new Option<Type>[numberOfVars](_ => None);
    }

    ghost function Found(): (t: Types)
      reads typeTable
    {
      map v: nat | v < typeTable.Length && typeTable[v].Some? :: typeTable[v].value
    }

    method GiveTypeOrVerify(target: nat, ty: Type) returns (ok: bool)
      requires target < typeTable.Length
      modifies typeTable
      ensures ok <==> Give(old(Found()), target, ty).Some?
      ensures ok ==> Found() == Give(old(Found()), target, ty).value
    {
      if typeTable[target].None? {
        typeTable[target] := Some(ty);
        assert Found() == old(Found())[target := ty];
        return true;
      }
      ok := typeTable[target].value == ty;
    }

    method ArgumentsFit(args: seq<nat>, params: seq<Type>) returns (ok: bool)
      requires forall v :: v in args ==> v < typeTable.Length
      ensures ok <==> TypesAt(Found(), args) == Some(params)
    {
      TypesAtLength(Found(), args);
      if |args| != |params| {
        return false;
      }
      for k := 0 to |args|
        invariant TypesAt(Found(), args) == Some(params) <==> TypesAt(Found(), args[k..]) == Some(params[k..])
      {
        assert args[k] in args && args[k..][0] == args[k] && args[k..][1..] == args[k + 1..];
        assert params[k..][0] == params[k] && params[k..][1..] == params[k + 1..];
        HeadFits(Found(), args[k..], params[k..]);
        if typeTable[args[k]] != Some(params[k]) {
          return false;
        }
      }
      ok := true;
    }

    /** One instruction. */
    method CheckAndInferOpt(opt: Inst) returns (ok: bool)
      requires forall v :: v in VarsOf(opt) ==> v < typeTable.Length
      modifies typeTable
      ensures ok <==> CheckInst(sigs, old(Found()), opt).Some?
      ensures ok ==> Found() == CheckInst(sigs, old(Found()), opt).value
    {
      ghost var t := Found();
      match opt
      case AssignImm(out, imm) =>
        assert out in VarsOf(opt);
        var ty := TypeOfValue(imm);
        if ty.None? {
          return false;
        }
        ok := GiveTypeOrVerify(out, ty.value);
      case Call(out, callee, args) =>
        assert out in VarsOf(opt) && forall v :: v in args ==> v in VarsOf(opt);
        if callee !in sigs {
          return false;
        }
        ok := ArgumentsFit(args, sigs[callee].params);
        if ok {
          ok := GiveTypeOrVerify(out, sigs[callee].result);
        }
      case Compare(how, read, right, result) =>
        assert read in VarsOf(opt) && right in VarsOf(opt) && result in VarsOf(opt);
        var l, r := typeTable[read], typeTable[right];
        if l.None? || r.None? || !MayCompare(how, l.value, r.value) {
          return false;
        }
        typeTable[result] := Some(BoolType);
        assert Found() == t[result := BoolType];
        ok := true;
      case Assign(out, read) =>
        assert out in VarsOf(opt) && read in VarsOf(opt);
        if typeTable[read].None? {
          return false;
        }
        ok := GiveTypeOrVerify(out, typeTable[read].value);
      case Arith(_, out, read) =>
        assert out in VarsOf(opt) && read in VarsOf(opt);
        ok := typeTable[out] == Some(IntType) && typeTable[read] == Some(IntType);
      case And(out, read) =>
        assert out in VarsOf(opt) && read in VarsOf(opt);
        ok := typeTable[out] == Some(BoolType) && typeTable[read] == Some(BoolType);
      case Or(out, read) =>
        assert out in VarsOf(opt) && read in VarsOf(opt);
        ok := typeTable[out] == Some(BoolType) && typeTable[read] == Some(BoolType);
      case Not(out, read) =>
        assert out in VarsOf(opt) && read in VarsOf(opt);
        if typeTable[read] != Some(BoolType) {
          return false;
        }
        ok := GiveTypeOrVerify(out, BoolType);
      case Pointer(_, _, _) => ok := false;
      case _ => ok := true;
    }

    /** Parameters have their types from the start. */
    method InferAndCheck(args: seq<Type>, opts: seq<Inst>) returns (ok: bool)
      requires |args| <= typeTable.Length && forall v :: 0 <= v < typeTable.Length ==> typeTable[v] == None
      requires forall i, v :: 0 <= i < |opts| && v in VarsOf(opts[i]) ==> v < typeTable.Length
      modifies typeTable
      ensures ok <==> Check(sigs, ArgTypes(args), opts).Some?
      ensures ok ==> Found() == Check(sigs, ArgTypes(args), opts).value
    {
      for i := 0 to |args|
        invariant forall v :: 0 <= v < typeTable.Length ==> typeTable[v] == if v < i then Some(args[v]) else None
      {
        typeTable[i] := Some(args[i]);
      }
      assert Found() == ArgTypes(args);
      for i := 0 to |opts|
        invariant Check(sigs, ArgTypes(args), opts[..i]) == Some(Found())
      {
        assert opts[..i + 1][..i] == opts[..i];
        ok := CheckAndInferOpt(opts[i]);
        if !ok {
          Refused(sigs, ArgTypes(args), opts, i + 1);
          return;
        }
      }
      assert opts[..|opts|] == opts;
      ok := true;
    }
  }

  function ArgTypes(args: seq<Type>): Types {
    map v: nat | v < |args| :: args[v]
  }

  /** The types of the names in scope at the start. */
  function ParamTypes(params: seq<string>, types: seq<Type>): map<string, Type>
    requires |types| == |params|
  {
    map x | x in P.ParamNames(params) :: types[P.ParamNames(params)[x]]
  }

  lemma {:induction false} TypesAtLength(t: Types, vars: seq<nat>)
    ensures TypesAt(t, vars).Some? ==> |TypesAt(t, vars).value| == |vars|
  {
    if vars != [] {
      TypesAtLength(t, vars[1..]);
    }
  }

  lemma HeadFits(t: Types, vars: seq<nat>, types: seq<Type>)
    requires vars != [] && types != []
    ensures TypesAt(t, vars) == Some(types) <==> IsAt(t, vars[0], types[0]) && TypesAt(t, vars[1..]) == Some(types[1..])
  {
    assert types == [types[0]] + types[1..];
    if vars[0] in t && TypesAt(t, vars[1..]).Some? {
      var ts := TypesAt(t, vars[1..]).value;
      assert ([t[vars[0]]] + ts)[1..] == ts;
    }
  }

  // ----- Checking code piece by piece -----

  lemma {:induction false} CheckConcat(sigs: Signatures, t: Types, a: seq<Inst>, b: seq<Inst>)
    ensures Check(sigs, t, a + b) ==
      match Check(sigs, t, a) { case None => None case Some(t') => Check(sigs, t', b) }
    decreases |b|
  {
    hide CheckInst;
    if b == [] {
      assert a + b == a;
    } else {
      assert (a + b)[..|a + b| - 1] == a + b[..|b| - 1];
      CheckConcat(sigs, t, a, b[..|b| - 1]);
    }
  }

  lemma CheckOne(sigs: Signatures, t: Types, i: Inst)
    ensures Check(sigs, t, [i]) == CheckInst(sigs, t, i)
  {
    hide CheckInst;
    assert [i][..0] == [];
    assert Check(sigs, t, []) == Some(t);
  }

  lemma CheckNothing(sigs: Signatures, t: Types)
    ensures Check(sigs, t, []) == Some(t)
  {
  }

  /** Once refused, always refused. */
  lemma Refused(sigs: Signatures, t: Types, code: seq<Inst>, k: nat)
    requires k <= |code| && Check(sigs, t, code[..k]).None?
    ensures Check(sigs, t, code).None?
  {
    CheckConcat(sigs, t, code[..k], code[k..]);
    assert code[..k] + code[k..] == code;
  }
}
