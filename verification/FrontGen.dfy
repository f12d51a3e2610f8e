/** The front end's generator as it works: scopes on a stack, instructions appended one by one, lists of mutations
    grown on the way. Every method emits what the lowering functions say, and fails exactly where they do not apply. */
module FrontGens {
  import opened Ir
  import opened Options
  import opened Language
  import opened Lowering
  import opened ExprLowering
  import opened StmtLowering
  import opened Mutations
  import opened Simulation
  import opened FrontNodes
  import opened FrontStates
  import opened MutationBounds
  import P = Procs
  import A = Acceptance

  /** Label numbers, shared by all procedures. */
  class LabelIdGen {
    var availableId: nat

    constructor ()
      ensures availableId == 0
    {
      availableId := 0;
    }

    method GenLabel(kind: LabelKind) returns (l: Label)
      modifies this
      ensures l == Label(kind, old(availableId)) && availableId == old(availableId) + 1
    {
      l := Label(kind, availableId);
      availableId := availableId + 1;
    }
  }

  class FrontGen {
    const labelGen: LabelIdGen
    var opts: seq<Inst>
    var nextVarNum: nat
    var lists: seq<seq<nat>>
    var scopes: seq<Scope>

    function S(): State
      reads this, labelGen
    {
      State(opts, nextVarNum, labelGen.availableId, lists, scopes)
    }

    constructor (labelGen: LabelIdGen)
      ensures this.labelGen == labelGen && S() == State([], 0, labelGen.availableId, [], [Scope(map[], None, 0, None)])
    {
      this.labelGen := labelGen;
      opts, nextVarNum, lists := [], 0, [];
      scopes := [Scope(map[], None, 0, None)];
    }

    /** Look a name up, innermost scope first. */
    method Resolve(name: string) returns (vn: nat, found: bool)
      ensures found == Resolves(Tables(scopes), name) && vn == VarNamed(Tables(scopes), name)
    {
      var cur := |scopes|;
      assert Tables(scopes)[..cur] == Tables(scopes);
      while cur > 0
        invariant 0 <= cur <= |scopes|
        invariant Resolves(Tables(scopes), name) == Resolves(Tables(scopes)[..cur], name)
        invariant Resolves(Tables(scopes), name) ==>
            Language.Resolve(Tables(scopes), name) == Language.Resolve(Tables(scopes)[..cur], name)
      {
        if name in scopes[cur - 1].varTable {
          return scopes[cur - 1].varTable[name], true;
        }
        assert Tables(scopes)[..cur][..cur - 1] == Tables(scopes)[..cur - 1];
        cur := cur - 1;
      }
      return 0, false;
    }

    method NewVariable() returns (vn: nat)
      requires Valid(S())
      modifies this`nextVarNum
      ensures vn == old(nextVarNum) && Valid(S())
      ensures Emits(old(S()), S(), [], NewVar(CountersOf(old(S()))), Tables(scopes))
    {
      vn := nextVarNum;
      nextVarNum := nextVarNum + 1;
    }

    method NewNamedVar(name: string) returns (vn: nat)
      requires Valid(S())
      modifies this`nextVarNum, this`scopes
      ensures vn == old(nextVarNum) && Valid(S())
      ensures Emits(old(S()), S(), [], NewVar(CountersOf(old(S()))), Bind(Tables(old(scopes)), name, vn))
    {
      vn := NewVariable();
      var top := |scopes| - 1;
      ghost var was := scopes;
      scopes := scopes[top := scopes[top].(varTable := scopes[top].varTable[name := vn])];
      assert Tables(scopes) == Bind(Tables(was), name, vn);
    }

    /** Exactly how an instruction is recorded. */
    ghost predicate Appended(before: seq<seq<nat>>, after: seq<seq<nat>>, scope: Scope, opt: Inst) {
      match (scope.mutations, MutationVar(opt))
      case (Some(l), Some(v)) => v < scope.firstVar && l < |before| ==> after == before[l := before[l] + [v]]
      case _ => after == before
    }

    /** Append an instruction; if it mutates a variable older than the scope, the scope's list gets the variable. */
    method AddOpt(opt: Inst)
      requires Valid(S())
      modifies this`opts, this`lists
      ensures Valid(S()) && Emits(old(S()), S(), [opt], CountersOf(old(S())), Tables(scopes))
      ensures MutationVar(opt).None? ==> lists == old(lists)
      ensures Appended(old(lists), lists, scopes[|scopes| - 1], opt)
    {
      var scope := scopes[|scopes| - 1];
      MutatedOne(opt, scope.firstVar);
      if scope.mutations.Some? {
        var mut := MutationVar(opt);
        if mut.Some? && mut.value < scope.firstVar {
          var l := scope.mutations.value;
          AppendElement(lists[l], mut.value);
          lists := lists[l := lists[l] + [mut.value]];
        }
      }
      opts := opts + [opt];
    }

    lemma AppendElement(list: seq<nat>, v: nat)
      ensures Elements(list + [v]) == Elements(list) + {v}
    {
    }

    // ----- Expressions -----

    /** Emit code that computes an expression into a variable of the caller's choice. It fails on names not in scope. */
    method GenExpressionValueToVar(dest: nat, node: Expr) returns (ok: bool)
      requires Valid(S())
      modifies this`opts, this`nextVarNum, this`lists, labelGen
      ensures ok == Scoped(node, Tables(scopes))
      ensures ok ==> Valid(S())
      ensures ok ==> var a := ToVar(node, Tables(scopes), dest, CountersOf(old(S())));
                     Emits(old(S()), S(), a.code, a.next, Tables(scopes))
      decreases node, 2
    {
      hide Emits, Valid;
      ghost var s0, names, c := S(), Tables(scopes), CountersOf(S());
      match node
      case Name(name) =>
        var vn, found := Resolve(name);
        if !found {
          return false;
        }
        AddOpt(Assign(dest, vn));
        return true;
      case Literal(value) =>
        AddOpt(AssignImm(dest, value));
        return true;
      case ProcCall(callee, args) =>
        ok := GenCall(dest, node);
      case LogicalNot(right) =>
        var rightDest;
        rightDest, ok := GenExpressionValue(right);
        if ok {
          ghost var s1, a := S(), ToValue(right, names, c);
          EmitsCounters(s0, s1, a.code, a.next, names);
          AddOpt(Not(dest, rightDest));
          EmitsBoth(s0, s1, S(), a.code, [Not(dest, rightDest)], a.next, names, a.next, names);
        }
      case LogicalAnd(_, _) => ok := GenChain(dest, node, false);
      case LogicalOr(_, _) => ok := GenChain(dest, node, true);
      case Binary(op, left, right) => ok := GenBinary(dest, node);
    }

    method GenCall(dest: nat, node: Expr) returns (ok: bool)
      requires Valid(S()) && node.ProcCall?
      modifies this`opts, this`nextVarNum, this`lists, labelGen
      ensures ok == Scoped(node, Tables(scopes))
      ensures ok ==> Valid(S())
      ensures ok ==> var a := ToVar(node, Tables(scopes), dest, CountersOf(old(S())));
                     Emits(old(S()), S(), a.code, a.next, Tables(scopes))
      decreases node, 1
    {
      hide Emits, Valid;
      ghost var s0, names, c := S(), Tables(scopes), CountersOf(S());
      var argVars;
      argVars, ok := GenValues(node.args);
      if ok {
        ghost var s1, a := S(), ToValues(node.args, names, c);
        EmitsCounters(s0, s1, a.code, a.next, names);
        AddOpt(Call(dest, node.callee, argVars));
        EmitsBoth(s0, s1, S(), a.code, [Call(dest, node.callee, argVars)], a.next, names, a.next, names);
      }
    }

    /** Values of several expressions, from left to right. */
    method GenValues(nodes: seq<Expr>) returns (vns: seq<nat>, ok: bool)
      requires Valid(S())
      modifies this`opts, this`nextVarNum, this`lists, labelGen
      ensures ok == ScopedAll(nodes, Tables(scopes))
      ensures ok ==> Valid(S())
      ensures ok ==> var a := ToValues(nodes, Tables(scopes), CountersOf(old(S())));
                     vns == a.vns && Emits(old(S()), S(), a.code, a.next, Tables(scopes))
      decreases nodes, 0
    {
      hide Emits, Valid;
      ghost var s0, names, c := S(), Tables(scopes), CountersOf(S());
      vns := [];
      EmitsNone();
      for k := 0 to |nodes|
        invariant Valid(S()) && ScopedAll(nodes[..k], names)
        invariant var a := ToValues(nodes[..k], names, c); vns == a.vns && Emits(s0, S(), a.code, a.next, names)
      {
        ghost var s1, before := S(), ToValues(nodes[..k], names, c);
        ValuesSnoc(nodes, k, names, c);
        EmitsCounters(s0, s1, before.code, before.next, names);
        var vn;
        vn, ok := GenExpressionValue(nodes[k]);
        if !ok {
          ScopedPrefix(nodes, k, names);
          return;
        }
        ghost var here := ToValue(nodes[k], names, CountersOf(s1));
        EmitsBoth(s0, s1, S(), before.code, here.code, before.next, names, here.next, names);
        vns := vns + [vn];
      }
      assert nodes[..|nodes|] == nodes;
      ok := true;
    }

    lemma EmitsNone()
      requires Valid(S())
      ensures Emits(S(), S(), [], CountersOf(S()), Tables(scopes))
    {
      EmitsNothing(S());
    }

    /** Emit code for an expression and say which variable has its value; a bare name needs none. */
    method GenExpressionValue(node: Expr) returns (vn: nat, ok: bool)
      requires Valid(S())
      modifies this`opts, this`nextVarNum, this`lists, labelGen
      ensures ok == Scoped(node, Tables(scopes))
      ensures ok ==> Valid(S())
      ensures ok ==> var a := ToValue(node, Tables(scopes), CountersOf(old(S())));
                     vn == a.vn && Emits(old(S()), S(), a.code, a.next, Tables(scopes))
      decreases node, 4
    {
      hide Emits, Valid;
      ghost var s0, names, c := S(), Tables(scopes), CountersOf(S());
      if node.Name? {
        EmitsNone();
        vn, ok := Resolve(node.name);
      } else {
        vn := NewVariable();
        ghost var s1 := S();
        EmitsCounters(s0, s1, [], NewVar(c), names);
        ok := GenExpressionValueToVar(vn, node);
        if ok {
          ghost var a := ToVar(node, names, c.vars, NewVar(c));
          EmitsBoth(s0, s1, S(), [], a.code, NewVar(c), names, a.next, names);
          assert [] + a.code == a.code;
        }
      }
    }

    method GenBinary(dest: nat, node: Expr) returns (ok: bool)
      requires Valid(S()) && node.Binary?
      modifies this`opts, this`nextVarNum, this`lists, labelGen
      ensures ok == Scoped(node, Tables(scopes))
      ensures ok ==> Valid(S())
      ensures ok ==> var a := ToVar(node, Tables(scopes), dest, CountersOf(old(S())));
                     Emits(old(S()), S(), a.code, a.next, Tables(scopes))
      decreases node, 1
    {
      hide Emits, Valid, Appended;
      ghost var s0, names, c := S(), Tables(scopes), CountersOf(S());
      var leftDest := NewVariable();
      ghost var s1 := S();
      EmitsCounters(s0, s1, [], NewVar(c), names);
      ok := GenExpressionValueToVar(leftDest, node.left);
      if !ok { return; }
      ghost var s2, a := S(), ToVar(node.left, names, c.vars, NewVar(c));
      EmitsBoth(s0, s1, s2, [], a.code, NewVar(c), names, a.next, names);
      EmitsCounters(s1, s2, a.code, a.next, names);
      var rightDest;
      rightDest, ok := GenExpressionValue(node.right);
      if !ok { return; }
      ghost var s3, b := S(), ToValue(node.right, names, a.next);
      EmitsBoth(s0, s2, s3, [] + a.code, b.code, a.next, names, b.next, names);
      EmitsCounters(s2, s3, b.code, b.next, names);
      AddOperate(node.op, dest, leftDest, rightDest);
      ghost var o := Operate(node.op, dest, c.vars, b.vn);
      EmitsBoth(s0, s3, S(), [] + a.code + b.code, o, b.next, names, b.next, names);
      assert [] + a.code + b.code + o == a.code + b.code + o;
    }

    /** The instructions of an operator: arithmetic works on the left operand and then copies it. */
    method AddOperate(op: BinaryOp, dest: nat, leftDest: nat, rightDest: nat)
      requires Valid(S())
      modifies this`opts, this`lists
      ensures Valid(S()) && Emits(old(S()), S(), Operate(op, dest, leftDest, rightDest), CountersOf(old(S())),
          Tables(scopes))
    {
      hide Emits, Valid, Appended;
      ghost var s0, names, c := S(), Tables(scopes), CountersOf(S());
      match op
      case Arithmetic(arith) =>
        AddOpt(Arith(arith, leftDest, rightDest));
        ghost var s1 := S();
        EmitsCounters(s0, s1, [Arith(arith, leftDest, rightDest)], c, names);
        AddOpt(Assign(dest, leftDest));
        EmitsBoth(s0, s1, S(), [Arith(arith, leftDest, rightDest)], [Assign(dest, leftDest)], c, names, c, names);
        assert [Arith(arith, leftDest, rightDest)] + [Assign(dest, leftDest)] == Operate(op, dest, leftDest, rightDest);
      case Comparison(how) => AddOpt(Compare(how, leftDest, rightDest, dest));
    }

    /** A chain of one short-circuit operator: every jump in it goes to one label, which comes at its end. */
    method GenChain(dest: nat, node: Expr, isOr: bool) returns (ok: bool)
      requires Valid(S()) && IsChain(node, isOr)
      modifies this`opts, this`nextVarNum, this`lists, labelGen
      ensures ok == Scoped(node, Tables(scopes))
      ensures ok ==> Valid(S())
      ensures ok ==> var a := ToVar(node, Tables(scopes), dest, CountersOf(old(S())));
                     Emits(old(S()), S(), a.code, a.next, Tables(scopes))
      decreases node, 1
    {
      hide Emits, Valid;
      ghost var s0, names, c := S(), Tables(scopes), CountersOf(S());
      LabelTaken(S());
      var end := labelGen.GenLabel(if isOr then OrEnd else AndEnd);
      ghost var s1 := S();
      ok := GenAndOr(node, isOr, end, dest);
      if ok {
        ghost var s2, a := S(), Chain(node, isOr, names, dest, end, NewLabel(c));
        EmitsBoth(s0, s1, s2, [], a.code, NewLabel(c), names, a.next, names);
        EmitsCounters(s1, s2, a.code, a.next, names);
        AddOpt(LabelAt(end));
        EmitsBoth(s0, s2, S(), [] + a.code, [LabelAt(end)], a.next, names, a.next, names);
        assert [] + a.code + [LabelAt(end)] == a.code + [LabelAt(end)];
      }
    }

    method GenAndOr(node: Expr, isOr: bool, endLabel: Label, destVn: nat) returns (ok: bool)
      requires Valid(S())
      modifies this`opts, this`nextVarNum, this`lists, labelGen
      ensures ok == Scoped(node, Tables(scopes))
      ensures ok ==> Valid(S())
      ensures ok ==> var a := Chain(node, isOr, Tables(scopes), destVn, endLabel, CountersOf(old(S())));
                     Emits(old(S()), S(), a.code, a.next, Tables(scopes))
      decreases node, if IsChain(node, isOr) then 0 else 3
    {
      hide Emits, Valid;
      ghost var s0, names, c := S(), Tables(scopes), CountersOf(S());
      if !IsChain(node, isOr) {
        ok := GenExpressionValueToVar(destVn, node);
        return;
      }
      ok := GenAndOr(node.left, isOr, endLabel, destVn);
      if !ok { return; }
      ghost var s1, a := S(), Chain(node.left, isOr, names, destVn, endLabel, c);
      EmitsCounters(s0, s1, a.code, a.next, names);
      var jump, combine := JumpIf(isOr, true, destVn, endLabel), Or(destVn, 0);
      AddOpt(jump);
      ghost var s2 := S();
      EmitsBoth(s0, s1, s2, a.code, [jump], a.next, names, a.next, names);
      EmitsCounters(s1, s2, [jump], a.next, names);
      var rightVn;
      rightVn, ok := GenExpressionValue(node.right);
      if !ok { return; }
      ghost var s3, b := S(), ToValue(node.right, names, a.next);
      EmitsBoth(s0, s2, s3, a.code + [jump], b.code, a.next, names, b.next, names);
      EmitsCounters(s2, s3, b.code, b.next, names);
      combine := if isOr then Or(destVn, rightVn) else And(destVn, rightVn);
      AddOpt(combine);
      EmitsBoth(s0, s3, S(), a.code + [jump] + b.code, [combine], b.next, names, b.next, names);
    }

    // ----- Statements without a block -----

    /** One statement; it fails on names not in scope, on names declared twice, and on break and continue outside
        loops. */
    method GenSimple(s: Stmt) returns (ok: bool)
      requires Valid(S()) && HasNoBlock(s)
      modifies this`opts, this`nextVarNum, this`lists, this`scopes, labelGen
      ensures ok == Accepted(s, Tables(old(scopes)), Top(old(S())).loopLabel, CountersOf(old(S())))
      ensures ok ==> Valid(S())
      ensures ok ==> var a := LowerStmt(s, Tables(old(scopes)), Top(old(S())).loopLabel, CountersOf(old(S())));
                     Emits(old(S()), S(), a.code, a.next, a.names)
    {
      hide Emits, Valid, ToValue, ToVar, ToValues, Scoped;
      ghost var s0, names, c := S(), Tables(scopes), CountersOf(S());
      ValidScopes(S());
      var loop := scopes[|scopes| - 1].loopLabel;
      match s {
        case Declaration(name, zero) =>
          var newVar := NewNamedVar(name);
          ghost var s1, names' := S(), Bind(names, name, newVar);
          EmitsCounters(s0, s1, [], NewVar(c), names');
          AddOpt(AssignImm(newVar, zero));
          EmitsBoth(s0, s1, S(), [], [AssignImm(newVar, zero)], NewVar(c), names', NewVar(c), names');
          assert [] + [AssignImm(newVar, zero)] == [AssignImm(newVar, zero)];
          ok := true;
        case Declare(name, e) => ok := GenDeclare(name, e);
        case SetTo(name, e) => ok := GenUpdate(name, e, s);
        case PlusEqual(name, e) => ok := GenUpdate(name, e, s);
        case MinusEqual(name, e) => ok := GenUpdate(name, e, s);
        case Plain(e) =>
          if e.Name? || e.Literal? || e.ProcCall? {
            var vn;
            vn, ok := GenExpressionValue(e);
          } else {
            EmitsNone();
            ok := true;
          }
        case Break =>
          if loop.None? { return false; }
          AddOpt(Jump(Label(LoopExit, loop.value)));
          ok := true;
        case Continue =>
          if loop.None? { return false; }
          AddOpt(Jump(Label(LoopContinue, loop.value)));
          ok := true;
        case ReturnStmt(values) =>
          var returnValues;
          returnValues, ok := GenValues(values);
          if ok {
            ghost var s1, a := S(), ToValues(values, names, c);
            EmitsCounters(s0, s1, a.code, a.next, names);
            AddOpt(Return(returnValues));
            EmitsBoth(s0, s1, S(), a.code, [Return(returnValues)], a.next, names, a.next, names);
          }
      }
    }

    lemma ValidScopes(s: State)
      requires Valid(s)
      ensures s.scopes != [] && |Tables(s.scopes)| == |s.scopes| && Below(Tables(s.scopes), s.nextVarNum)
    {
    }

    method GenDeclare(varName: string, right: Expr) returns (ok: bool)
      requires Valid(S())
      modifies this`opts, this`nextVarNum, this`lists, this`scopes, labelGen
      ensures ok == Accepted(Declare(varName, right), Tables(old(scopes)), Top(old(S())).loopLabel,
          CountersOf(old(S())))
      // the scope has no such name yet, and the value mentions only names in sight and the new one
      ensures ok <==>
        varName !in old(scopes[|scopes| - 1]).varTable
        && A.NamesIn(right) <= A.InSight(Tables(old(scopes))) + {varName}
      ensures ok ==> Valid(S())
      ensures ok ==> var a := LowerDeclare(varName, right, Tables(old(scopes)), CountersOf(old(S())));
                     Emits(old(S()), S(), a.code, a.next, a.names)
    {
      hide Emits, Valid, ToValue, ToVar, Scoped, A.InSight, A.NamesIn;
      ghost var s0, names, c := S(), Tables(scopes), CountersOf(S());
      ValidScopes(S());
      A.DeclareExactly(varName, right, names, Top(s0).loopLabel, c);
      var vn, alreadyExist := Resolve(varName);
      if alreadyExist {
        if varName in scopes[|scopes| - 1].varTable {
          return false;
        }
        var rhsResult;
        rhsResult, ok := GenExpressionValue(right);
        if !ok { return; }
        ghost var s1, a := S(), ToValue(right, names, c);
        EmitsCounters(s0, s1, a.code, a.next, names);
        var vnForNewVar := NewNamedVar(varName);
        ghost var s2, names' := S(), Bind(names, varName, vnForNewVar);
        EmitsCounters(s1, s2, [], NewVar(a.next), names');
        EmitsBoth(s0, s1, s2, a.code, [], a.next, names, NewVar(a.next), names');
        AddOpt(Assign(vnForNewVar, rhsResult));
        EmitsBoth(s0, s2, S(), a.code + [], [Assign(vnForNewVar, rhsResult)], NewVar(a.next), names', NewVar(a.next),
            names');
        assert a.code + [] == a.code;
      } else {
        var varNum := NewNamedVar(varName);
        ghost var s1, names' := S(), Bind(names, varName, varNum);
        EmitsCounters(s0, s1, [], NewVar(c), names');
        ok := GenExpressionValueToVar(varNum, right);
        if ok {
          ghost var a := ToVar(right, names', varNum, NewVar(c));
          EmitsBoth(s0, s1, S(), [], a.code, NewVar(c), names', a.next, names');
          assert [] + a.code == a.code;
        }
      }
    }

    /** Assignment to a variable, plain or with an operator. */
    method GenUpdate(name: string, right: Expr, s: Stmt) returns (ok: bool)
      requires Valid(S()) && (s == SetTo(name, right) || s == PlusEqual(name, right) || s == MinusEqual(name, right))
      modifies this`opts, this`nextVarNum, this`lists, labelGen
      ensures ok == Accepted(s, Tables(scopes), Top(old(S())).loopLabel, CountersOf(old(S())))
      ensures ok ==> Valid(S())
      ensures ok ==> var a := LowerStmt(s, Tables(scopes), Top(old(S())).loopLabel, CountersOf(old(S())));
                     Emits(old(S()), S(), a.code, a.next, a.names)
    {
      hide Emits, Valid, ToValue, Scoped;
      ghost var s0, names, c := S(), Tables(scopes), CountersOf(S());
      ValidScopes(S());
      var leftVarNum, varFound := Resolve(name);
      if !varFound {
        return false;
      }
      var rightResult;
      rightResult, ok := GenExpressionValue(right);
      if !ok { return; }
      ghost var s1, a := S(), ToValue(right, names, c);
      EmitsCounters(s0, s1, a.code, a.next, names);
      var opt := match s
        case PlusEqual(_, _) => Arith(Add, leftVarNum, rightResult)
        case MinusEqual(_, _) => Arith(Sub, leftVarNum, rightResult)
        case _ => Assign(leftVarNum, rightResult);
      AddOpt(opt);
      EmitsBoth(s0, s1, S(), a.code, [opt], a.next, names, a.next, names);
    }

    // ----- Blocks -----

    /** The end of a block: put the scope's list in order and hand on what is older than the scope around it. */
    method EndBlock()
      requires Valid(S())
      modifies this`lists
      ensures Valid(S()) && Closes(old(S()), S(), [], CountersOf(old(S())), Tables(scopes))
    {
      hide Valid, Closes, Elements, Ascending;
      ghost var s0 := S();
      ValidScopes(s0);
      var scope := scopes[|scopes| - 1];
      if scope.mutations.Some? {
        ListsInRange(s0);
        var l := scope.mutations.value;
        var sorted := SortAndDedup(lists[l]);
        lists := lists[l := sorted];
        if |scopes| >= 2 && scopes[|scopes| - 2].mutations.Some? {
          var parent := scopes[|scopes| - 2];
          HandOn(sorted, parent.mutations.value, parent.firstVar);
        }
      }
      BlockCloses(s0, S());
    }

    lemma ListsInRange(s: State)
      requires Valid(s)
      ensures Top(s).mutations.Some? ==> Top(s).mutations.value < |s.lists|
      ensures Outer(s).Some? && Outer(s).value.mutations.Some? ==>
                Outer(s).value.mutations.value < |s.lists| && Outer(s).value.mutations != Top(s).mutations
    {
    }

    lemma BlockCloses(s: State, s': State)
      requires Valid(s) && s' == s.(lists := s'.lists) && |s'.lists| == |s.lists|
      requires Top(s).mutations.None? ==> s'.lists == s.lists
      requires Top(s).mutations.Some? ==>
        var l := Top(s).mutations.value;
        && Ascending(s'.lists[l]) && Elements(s'.lists[l]) == Elements(s.lists[l])
        && (forall k :: 0 <= k < |s.lists| && k != l && !HasList(Outer(s), k) ==> s'.lists[k] == s.lists[k])
        && (forall k :: 0 <= k < |s.lists| && k != l && HasList(Outer(s), k) ==>
              Elements(s'.lists[k]) == Elements(s.lists[k]) + Under(Elements(s'.lists[l]), Outer(s).value.firstVar))
      ensures Valid(s') && Closes(s, s', [], CountersOf(s), Tables(s.scopes))
    {
      hide Elements, Ascending;
      NothingMutated();
      assert s.opts + [] == s.opts;
    }

    /** Append the entries below `first` to a list. */
    method HandOn(entries: seq<nat>, p: nat, first: nat)
      requires p < |lists|
      modifies this`lists
      ensures |lists| == |old(lists)| && lists == old(lists)[p := lists[p]]
      ensures Elements(lists[p]) == Elements(old(lists)[p]) + Under(Elements(entries), first)
    {
      hide Elements, Under;
      UnderNothing(first);
      for k := 0 to |entries|
        invariant |lists| == |old(lists)| && lists == old(lists)[p := lists[p]]
        invariant Elements(lists[p]) == Elements(old(lists)[p]) + Under(Elements(entries[..k]), first)
      {
        assert entries[..k + 1] == entries[..k] + [entries[k]];
        AppendElement(entries[..k], entries[k]);
        UnderMore(Elements(entries[..k]), entries[k], first);
        if entries[k] < first {
          AppendElement(lists[p], entries[k]);
          lists := lists[p := lists[p] + [entries[k]]];
        }
      }
      assert entries[..|entries|] == entries;
    }

    lemma UnderNothing(n: nat)
      ensures Under(Elements([]), n) == {}
    {
    }

    lemma UnderMore(vars: set<nat>, v: nat, n: nat)
      ensures Under(vars + {v}, n) == Under(vars, n) + (if v < n then {v} else {})
    {
    }

    lemma NothingMutated()
      ensures forall n: nat :: Mutated([], n) == {}
    {
    }

    method NewMutationList() returns (l: nat)
      requires Valid(S())
      modifies this`lists
      ensures l == |old(lists)| && lists == old(lists) + [[]] && Valid(S())
    {
      l := |lists|;
      lists := lists + [[]];
    }

    ghost predicate HoldsNodes(order: seq<Node>, i: nat, nodes: seq<Node>) {
      i + |nodes| <= |order| && order[i..i + |nodes|] == nodes
    }

    lemma NodesSplit(order: seq<Node>, i: nat, a: seq<Node>, b: seq<Node>)
      requires HoldsNodes(order, i, a + b)
      ensures HoldsNodes(order, i, a) && HoldsNodes(order, i + |a|, b)
    {
      assert a == (a + b)[..|a|];
      assert b == (a + b)[|a|..];
    }

    /** An if node through the end of its block: everything up to where an else might follow. */
    method GenThenPart(order: seq<Node>, start: nat, ghost s: Stmt) returns (i: nat, selectList: nat, pastBlock: Label,
                       ok: bool)
      requires Valid(S()) && (s.If? || s.IfElse?)
      requires HoldsNodes(order, start, [IfNode(s.cond)] + Flatten(s.thn) + [BlockEnd])
      modifies this`opts, this`nextVarNum, this`lists, this`scopes, labelGen
      ensures ok == AcceptedThen(s, Tables(old(scopes)), Top(old(S())).loopLabel, CountersOf(old(S())))
      ensures ok ==> Valid(S()) && i == start + |[IfNode(s.cond)] + Flatten(s.thn) + [BlockEnd]|
      ensures ok ==> var names, loop, c := Tables(old(scopes)), Top(old(S())).loopLabel, CountersOf(old(S()));
                     var t := LowerThen(s, names, loop, c);
                     && pastBlock == Label(Else, c.labels) && selectList == c.lists < |lists|
                     && Emits(old(S()), S(), t.code, t.next, names)
                     && ThenRight(s, names, loop, c, lists) && Elements(lists[selectList]) == Mutated(t.code, c.vars)
      decreases s, 1
    {
      hide Emits, Valid, Closes, Enters, ToValue, Scoped, LowerBlock, LowerThen, Flatten, Elements, Mutated,
          ListsRight, ThenRight, Top, Pop;
      ghost var s0, names, c := S(), Tables(scopes), CountersOf(S());
      ValidScopes(s0);
      ghost var loop := Top(s0).loopLabel;
      NodesSplit(order, start, [IfNode(s.cond)] + Flatten(s.thn), [BlockEnd]);
      NodesSplit(order, start, [IfNode(s.cond)], Flatten(s.thn));
      IfNodeHere(order, start, s);
      var cond := order[start].cond;
      var mutations;
      selectList, mutations, pastBlock := EnterThen();
      ghost var s1, inner, c1 := S(), names + [map[]], NewLabel(NewList(NewList(c)));
      EntersTop(s0, s1, mutations, map[], loop, c1);
      ok := GenTest(cond, selectList, pastBlock);
      if !ok { i := start; return; }
      ghost var s2, a := S(), ToValue(s.cond, inner, c1);
      ghost var pre := [OptionSelectStart(selectList)] + a.code + [JumpIf(false, false, a.vn, pastBlock)];
      EmitsCounters(s1, s2, pre, a.next, inner);
      EmitsTop(s1, s2, pre, a.next, inner);
      i, ok := GenForProcSubSection(order, start + 1, s.thn);
      if !ok { return; }
      ghost var s3, b := S(), LowerBlock(s.thn, inner, loop, a.next);
      ClosesTop(s2, s3, b.code, b.next, b.names);
      AddOpt(OptionEnd(mutations));
      ghost var s4 := S();
      scopes := scopes[..|scopes| - 1];
      ThenDone(s0, s1, s2, s3, s4, s, pre, mutations, selectList);
      PopIsPop(s4, S());
      lists := lists[selectList := lists[selectList] + lists[mutations]];
    }

    lemma IfNodeHere(order: seq<Node>, start: nat, s: Stmt)
      requires (s.If? || s.IfElse?) && HoldsNodes(order, start, [IfNode(s.cond)] + Flatten(s.thn) + [BlockEnd])
      ensures start < |order| && order[start] == IfNode(s.cond)
          && HoldsNodes(order, start + 1, Flatten(s.thn) + [BlockEnd])
    {
      hide Flatten;
      assert [IfNode(s.cond)] + Flatten(s.thn) + [BlockEnd] == [IfNode(s.cond)] + (Flatten(s.thn) + [BlockEnd]);
      NodesSplit(order, start, [IfNode(s.cond)], Flatten(s.thn) + [BlockEnd]);
      assert order[start] == order[start..start + 1][0];
    }

    lemma PopIsPop(s: State, s': State)
      requires s.scopes != [] && s' == s.(scopes := s.scopes[..|s.scopes| - 1])
      ensures s' == Pop(s)
    {
    }

    /** The lists, the label and the scope of an if. */
    method EnterThen() returns (selectList: nat, mutations: nat, pastBlock: Label)
      requires Valid(S())
      modifies this`lists, this`scopes, labelGen
      ensures Valid(S()) && selectList == |old(lists)| && mutations == selectList + 1
          && pastBlock == Label(Else, old(labelGen.availableId))
      ensures Enters(old(S()), S(), mutations, map[], Top(old(S())).loopLabel,
          NewLabel(NewList(NewList(CountersOf(old(S()))))))
      ensures S().lists[selectList] == []
    {
      ghost var s0 := S();
      selectList := NewMutationList();
      mutations := NewMutationList();
      pastBlock := labelGen.GenLabel(Else);
      Inherit(scopes[|scopes| - 1].loopLabel, mutations);
      EnteredIsValid(s0, S(), mutations, map[], Top(s0).loopLabel, CountersOf(S()));
    }

    /** A new scope inside the innermost one. */
    method Inherit(loopLabel: LoopId, mutations: nat)
      modifies this`scopes
      ensures scopes == old(scopes) + [Scope(map[], loopLabel, nextVarNum, Some(mutations))]
    {
      scopes := scopes + [Scope(map[], loopLabel, nextVarNum, Some(mutations))];
    }

    /** The state after the block of an if has been left, and after its list has been added to the select's. */
    lemma ThenDone(s0: State, s1: State, s2: State, s3: State, s4: State, s: Stmt, pre: seq<Inst>, mutations: nat,
                   selectList: nat)
      requires Valid(s0) && (s.If? || s.IfElse?) && selectList == |s0.lists| && mutations == selectList + 1
      requires Valid(s4) && s4.lists == s3.lists
      requires var names, loop, c := Tables(s0.scopes), Top(s0).loopLabel, CountersOf(s0);
        var inner, c1 := names + [map[]], NewLabel(NewList(NewList(c)));
        var a := ToValue(s.cond, inner, c1);
        var b := LowerBlock(s.thn, inner, loop, a.next);
        && pre == [OptionSelectStart(selectList)] + a.code + [JumpIf(false, false, a.vn, Label(Else, c.labels))]
        && Enters(s0, s1, mutations, map[], loop, c1) && s1.lists[selectList] == []
        && Emits(s1, s2, pre, a.next, inner) && Closes(s2, s3, b.code, b.next, b.names)
            && Emits(s3, s4, [OptionEnd(mutations)], b.next, b.names)
        && ListsRight(s.thn, inner, loop, a.next, s3.lists)
      ensures mutations < |s4.lists|
      ensures var names, loop, c := Tables(s0.scopes), Top(s0).loopLabel, CountersOf(s0);
        var t := LowerThen(s, names, loop, c);
        var s5 := Pop(s4).(lists := s4.lists[selectList := s4.lists[selectList] + s4.lists[mutations]]);
        && Valid(Pop(s4)) && Valid(s5) && Emits(s0, s5, t.code, t.next, names)
        && ThenRight(s, names, loop, c, s5.lists) && Elements(s5.lists[selectList]) == Mutated(t.code, c.vars)
    {
      hide Emits, Valid, Closes, Enters, ToValue, LowerBlock, Elements, Mutated, ListsRight, Recorded, Ascending;
      ValidScopes(s0);
      var names, loop, c := Tables(s0.scopes), Top(s0).loopLabel, CountersOf(s0);
      var inner, c1 := names + [map[]], NewLabel(NewList(NewList(c)));
      var a := ToValue(s.cond, inner, c1);
      var b := LowerBlock(s.thn, inner, loop, a.next);
      var post := [OptionEnd(mutations)];
      EntersTop(s0, s1, mutations, map[], loop, c1);
      ToValueGrows(s.cond, inner, c1);
      LowerBlockExtends(s.thn, inner, loop, a.next);
      MutatesNothing(post, Top(s0).firstVar);
      MutatesNothing(post, c.vars);
      ScopeDone(s0, s1, s2, s3, s4, mutations, map[], loop, c1, pre, a.next, inner, b.code, b.next, b.names, post,
          b.next, b.names);
      OthersUntouched(s0, s1, s2, s3, s4, mutations, map[], loop, c1, pre, a.next, inner, b.code, b.next, b.names,
          post, b.next, b.names, selectList);
      EmitsTop(s1, s2, pre, a.next, inner);
      ClosesTop(s2, s3, b.code, b.next, b.names);
      EmitsTop(s3, s4, post, b.next, b.names);
      IfCode(s, names, loop, c);
      var code := pre + b.code + post;
      EmitsCounters(s0, Pop(s4), code, b.next, names);
      PoppedIsValid(s0, s4, code, b.next, names);
      MutatedConcat(pre + b.code, post, c.vars);
      EmptyList();
      var list := s4.lists[selectList] + s4.lists[mutations];
      assert list == s4.lists[mutations];
      ListAside(s0, Pop(s4), selectList, list, code, b.next, names);
      ListsRightElsewhere(s.thn, inner, loop, a.next, s3.lists, s4.lists[selectList := list]);
    }

    method GenTest(cond: Expr, selectList: nat, pastBlock: Label) returns (ok: bool)
      requires Valid(S())
      modifies this`opts, this`nextVarNum, this`lists, labelGen
      ensures ok == Scoped(cond, Tables(scopes))
      ensures ok ==> Valid(S())
      ensures ok ==> var a := ToValue(cond, Tables(scopes), CountersOf(old(S())));
                     Emits(old(S()), S(), [OptionSelectStart(selectList)] + a.code
                         + [JumpIf(false, false, a.vn, pastBlock)], a.next, Tables(scopes))
    {
      hide Emits, Valid, ToValue, Scoped;
      ghost var s0, names, c := S(), Tables(scopes), CountersOf(S());
      AddOpt(OptionSelectStart(selectList));
      ghost var s1 := S();
      EmitsCounters(s0, s1, [OptionSelectStart(selectList)], c, names);
      var condVar;
      condVar, ok := GenExpressionValue(cond);
      if !ok { return; }
      ghost var s2, a := S(), ToValue(cond, names, c);
      EmitsBoth(s0, s1, s2, [OptionSelectStart(selectList)], a.code, c, names, a.next, names);
      EmitsCounters(s1, s2, a.code, a.next, names);
      var jump := JumpIf(false, false, condVar, pastBlock);
      AddOpt(jump);
      EmitsBoth(s0, s2, S(), [OptionSelectStart(selectList)] + a.code, [jump], a.next, names, a.next, names);
    }

    /** The last marks of an option select, once its list has everything. */
    method FinishOptionSelect(selectList: nat, ghost s0: State, ghost code: seq<Inst>, ghost c: Counters,
                              ghost names: Names)
      requires Valid(s0) && Valid(S()) && Emits(s0, S(), code, c, names) && |s0.lists| <= selectList < |lists|
      modifies this`opts, this`lists
      ensures Valid(S()) && Emits(s0, S(), code + [OptionSelectEnd], c, names)
      ensures |lists| == |old(lists)| && lists == old(lists)[selectList := lists[selectList]]
      ensures Ascending(lists[selectList]) && Elements(lists[selectList]) == Elements(old(lists)[selectList])
    {
      hide Emits, Valid, Elements;
      ghost var s := S();
      var sorted := SortAndDedup(lists[selectList]);
      ListAside(s0, s, selectList, sorted, code, c, names);
      lists := lists[selectList := sorted];
      ghost var s1 := S();
      EmitsCounters(s0, s1, code, c, names);
      AddOpt(OptionSelectEnd);
      EmitsBoth(s0, s1, S(), code, [OptionSelectEnd], c, names, c, names);
    }

    /** An if node through the end of its block, and through the whole select if no else follows. */
    method GenIfNode(order: seq<Node>, start: nat, ghost s: Stmt) returns (i: nat, selectList: nat, ok: bool)
      requires Valid(S()) && (s.If? || s.IfElse?)
      requires var nodes := [IfNode(s.cond)] + Flatten(s.thn) + [BlockEnd];
        HoldsNodes(order, start, nodes) && start + |nodes| < |order|
            && (order[start + |nodes|] == ElseNode <==> s.IfElse?)
      modifies this`opts, this`nextVarNum, this`lists, this`scopes, labelGen
      ensures ok == AcceptedThen(s, Tables(old(scopes)), Top(old(S())).loopLabel, CountersOf(old(S())))
      ensures ok ==> Valid(S()) && i == start + |[IfNode(s.cond)] + Flatten(s.thn) + [BlockEnd]|
      ensures ok && s.If? ==> var names, loop, c := Tables(old(scopes)), Top(old(S())).loopLabel, CountersOf(old(S()));
                     var a := LowerIf(s, names, loop, c);
                     Emits(old(S()), S(), a.code, a.next, names) && ListsRightIn(s, names, loop, c, lists)
      ensures ok && s.IfElse? ==>
          var names, loop, c := Tables(old(scopes)), Top(old(S())).loopLabel, CountersOf(old(S()));
                     ElsePending(old(S()), S(), s, names, loop, c, selectList)
      decreases s, 2
    {
      hide Emits, Valid, LowerThen, Flatten, Elements, Mutated, ThenRight, Top, AcceptedThen, Named, Below;
      ghost var s0, names, c := S(), Tables(scopes), CountersOf(S());
      ValidScopes(s0);
      ghost var loop, t := Top(s0).loopLabel, LowerThen(s, names, Top(s0).loopLabel, c);
      var pastBlock;
      i, selectList, pastBlock, ok := GenThenPart(order, start, s);
      if !ok { return; }
      ghost var s1 := S();
      ghost var code := t.code;
      EmitsCounters(s0, s1, t.code, t.next, names);
      if order[i] != ElseNode {
        FinishOptionSelect(selectList, s0, t.code, t.next, names);
        code := t.code + [OptionSelectEnd];
        SameListsThen(s, names, loop, c, s1.lists, lists);
      }
      ghost var s2 := S();
      EmitsCounters(s0, s2, code, t.next, names);
      AddOpt(LabelAt(pastBlock));
      EmitsBoth(s0, s2, S(), code, [LabelAt(pastBlock)], t.next, names, t.next, names);
      if s.If? {
        assert code + [LabelAt(pastBlock)] == LowerIf(s, names, loop, c).code by { IfCode(s, names, loop, c); }
        OnlyThenMutates(s, names, loop, c);
      }
    }

    /** After the block of an if with an else: the label for the else stands last. */
    ghost predicate ElsePending(s0: State, s: State, stmt: Stmt, names: Names, loop: LoopId, c: Counters,
                                selectList: nat)
      requires stmt.IfElse?
    {
      var t := LowerThen(stmt, names, loop, c);
      && Emits(s0, s, t.code + [LabelAt(Label(Else, c.labels))], t.next, names) && selectList == c.lists < |s.lists|
      && ThenRight(stmt, names, loop, c, s.lists) && Elements(s.lists[selectList]) == Mutated(t.code, c.vars)
    }

    lemma SameListsThen(s: Stmt, names: Names, loop: LoopId, c: Counters, a: seq<seq<nat>>, b: seq<seq<nat>>)
      requires (s.If? || s.IfElse?) && ThenRight(s, names, loop, c, a)
          && |a| == |b| == LowerThen(s, names, loop, c).next.lists
      requires forall k :: 0 <= k < |a| && k != c.lists ==> a[k] == b[k]
      ensures ThenRight(s, names, loop, c, b)
    {
      ThenRightElsewhere(s, names, loop, c, a, b);
    }

    lemma OnlyThenMutates(s: Stmt, names: Names, loop: LoopId, c: Counters)
      requires s.If?
      ensures Mutated(LowerIf(s, names, loop, c).code, c.vars) == Mutated(LowerThen(s, names, loop, c).code, c.vars)
    {
      hide Mutated, LowerThen;
      var t := LowerThen(s, names, loop, c);
      var tail := [OptionSelectEnd, LabelAt(Label(Else, c.labels))];
      MutatesNothing(tail, c.vars);
      MutatedConcat(t.code, tail, c.vars);
    }

    /** The last marks of an option select and the label after it. */
    method FinishElse(selectList: nat, endOfTree: Label, ghost s0: State, ghost code: seq<Inst>, ghost c: Counters,
                      ghost names: Names)
      requires Valid(s0) && Valid(S()) && Emits(s0, S(), code, c, names) && |s0.lists| <= selectList < |lists|
      modifies this`opts, this`lists
      ensures Valid(S()) && Emits(s0, S(), code + [OptionSelectEnd] + [LabelAt(endOfTree)], c, names)
      ensures |lists| == |old(lists)| && lists == old(lists)[selectList := lists[selectList]]
      ensures Ascending(lists[selectList]) && Elements(lists[selectList]) == Elements(old(lists)[selectList])
    {
      hide Emits, Valid, Elements, Ascending;
      FinishOptionSelect(selectList, s0, code, c, names);
      ghost var s := S();
      EmitsCounters(s0, s, code + [OptionSelectEnd], c, names);
      AddOpt(LabelAt(endOfTree));
      EmitsBoth(s0, s, S(), code + [OptionSelectEnd], [LabelAt(endOfTree)], c, names, c, names);
    }

    /** An else node through the end of its block: the label that stands last gives way to a jump past the else. */
    method GenElseNode(order: seq<Node>, start: nat, selectList: nat, ghost s: Stmt, ghost s0: State) returns (i: nat,
                       ok: bool)
      requires Valid(s0) && Valid(S()) && s.IfElse? && HoldsNodes(order, start,
          [ElseNode] + Flatten(s.els) + [BlockEnd])
      requires ElsePending(s0, S(), s, Tables(s0.scopes), Top(s0).loopLabel, CountersOf(s0), selectList)
      requires AcceptedThen(s, Tables(s0.scopes), Top(s0).loopLabel, CountersOf(s0))
      modifies this`opts, this`nextVarNum, this`lists, this`scopes, labelGen
      ensures ok == Accepted(s, Tables(s0.scopes), Top(s0).loopLabel, CountersOf(s0))
      ensures ok ==> Valid(S()) && i == start + |[ElseNode] + Flatten(s.els) + [BlockEnd]|
      ensures ok ==> var names, loop, c := Tables(s0.scopes), Top(s0).loopLabel, CountersOf(s0);
                     var a := LowerIf(s, names, loop, c);
                     Emits(s0, S(), a.code, a.next, names) && ListsRightIn(s, names, loop, c, lists)
      decreases s, 2
    {
      hide Emits, Valid, Closes, Enters, LowerThen, LowerBlock, AcceptedBlock, Flatten, Elements, Mutated, ListsRight,
          ThenRight, Top, Pop, AcceptedThen,
        LowerIf, ListsRightIn;
      ValidScopes(s0);
      ghost var names, loop, c := Tables(s0.scopes), Top(s0).loopLabel, CountersOf(s0);
      ghost var t, inner, l := LowerThen(s, names, loop, c), names + [map[]], Label(Else, c.labels);
      ElseNodeHere(order, start, s);
      var endOfTree, mutations, elseLabel := EnterElse(s0, t.code, l, t.next, names);
      ghost var sc, s1, c1 := S().(scopes := scopes[..|scopes| - 1], lists := lists[..|lists| - 1]), S(),
          NewLabel(NewList(t.next));
      EmitsTop(s0, sc, t.code + [Jump(endOfTree)], NewLabel(t.next), names);
      EntersTop(sc, s1, mutations, map[], loop, c1);
      AddOpt(elseLabel);
      ghost var s2 := S();
      EmitsCounters(s1, s2, [LabelAt(l)], c1, inner);
      EmitsTop(s1, s2, [LabelAt(l)], c1, inner);
      i, ok := GenForProcSubSection(order, start + 1, s.els);
      if !ok { return; }
      ghost var s3, e := S(), LowerBlock(s.els, inner, loop, c1);
      ClosesTop(s2, s3, e.code, e.next, e.names);
      AddOpt(OptionEnd(mutations));
      ghost var s4 := S();
      scopes := scopes[..|scopes| - 1];
      PopIsPop(s4, S());
      ElseDone(s0, sc, s1, s2, s3, s4, s, mutations, selectList);
      lists := lists[selectList := lists[selectList] + lists[mutations]];
      ghost var code := t.code + [Jump(endOfTree)] + ([LabelAt(l)] + e.code + [OptionEnd(mutations)]);
      ghost var s6 := S();
      FinishElse(selectList, endOfTree, s0, code, e.next, names);
      ElseComplete(s, names, loop, c, s6.lists, lists);
    }

    lemma ElseNodeHere(order: seq<Node>, start: nat, s: Stmt)
      requires s.IfElse? && HoldsNodes(order, start, [ElseNode] + Flatten(s.els) + [BlockEnd])
      ensures start < |order| && order[start] == ElseNode && HoldsNodes(order, start + 1, Flatten(s.els) + [BlockEnd])
    {
      hide Flatten;
      assert [ElseNode] + Flatten(s.els) + [BlockEnd] == [ElseNode] + (Flatten(s.els) + [BlockEnd]);
      NodesSplit(order, start, [ElseNode], Flatten(s.els) + [BlockEnd]);
      assert order[start] == order[start..start + 1][0];
    }

    /** The label, the list and the scope of an else; the last instruction, a label, becomes a jump to the end. */
    method EnterElse(ghost s0: State, ghost code: seq<Inst>, ghost l: Label, ghost c: Counters, ghost names: Names)
      returns (endOfTree: Label, mutations: nat, elseLabel: Inst)
      requires Valid(s0) && Valid(S()) && Emits(s0, S(), code + [LabelAt(l)], c, names) && names == Tables(s0.scopes)
      modifies this`opts, this`lists, this`scopes, labelGen
      ensures Valid(S()) && scopes != [] && lists != []
      ensures elseLabel == LabelAt(l) && endOfTree == Label(IfElseEnd, c.labels) && mutations == c.lists == |lists| - 1
      ensures lists[..|lists| - 1] == old(lists)
      ensures var sc := S().(scopes := scopes[..|scopes| - 1], lists := lists[..|lists| - 1]);
        && Valid(sc) && Emits(s0, sc, code + [Jump(endOfTree)], NewLabel(c), names)
        && Enters(sc, S(), mutations, map[], Top(s0).loopLabel, NewLabel(NewList(c))) && Tables(sc.scopes) == names
    {
      hide Emits, Valid, Enters, Tables, Top;
      ValidScopes(s0);
      endOfTree, elseLabel := ReplaceLabel(s0, code, l, c, names);
      ghost var sc := S();
      EmitsCounters(s0, sc, code + [Jump(endOfTree)], NewLabel(c), names);
      EmitsTop(s0, sc, code + [Jump(endOfTree)], NewLabel(c), names);
      mutations := EnterNew(scopes[|scopes| - 1].loopLabel);
      assert scopes[..|scopes| - 1] == sc.scopes && lists[..|lists| - 1] == sc.lists;
      TopIsLast(sc);
    }

    lemma TopIsLast(s: State)
      requires s.scopes != []
      ensures Top(s) == s.scopes[|s.scopes| - 1]
    {
    }

    /** A new scope with a list of its own. */
    method EnterNew(loopLabel: LoopId) returns (mutations: nat)
      requires Valid(S())
      modifies this`lists, this`scopes
      ensures Valid(S()) && mutations == |old(lists)| && lists == old(lists) + [[]]
      ensures scopes == old(scopes) + [Scope(map[], loopLabel, nextVarNum, Some(mutations))]
      ensures Enters(old(S()), S(), mutations, map[], loopLabel, NewList(CountersOf(old(S()))))
    {
      ghost var s0 := S();
      mutations := NewMutationList();
      Inherit(loopLabel, mutations);
      EnteredIsValid(s0, S(), mutations, map[], loopLabel, NewList(CountersOf(s0)));
    }

    method ReplaceLabel(ghost s0: State, ghost code: seq<Inst>, ghost l: Label, ghost c: Counters, ghost names: Names)
      returns (endOfTree: Label, elseLabel: Inst)
      requires Valid(s0) && Valid(S()) && Emits(s0, S(), code + [LabelAt(l)], c, names)
      modifies this`opts, labelGen
      ensures Valid(S()) && elseLabel == LabelAt(l) && endOfTree == Label(IfElseEnd, c.labels)
      ensures Emits(s0, S(), code + [Jump(endOfTree)], NewLabel(c), names)
    {
      hide Valid, Recorded, SameScopes, Tables;
      ghost var sa := S();
      EmitsCounters(s0, sa, code + [LabelAt(l)], c, names);
      LabelTaken(sa);
      endOfTree := labelGen.GenLabel(IfElseEnd);
      ghost var sb := S();
      EmitsBoth(s0, sa, sb, code + [LabelAt(l)], [], c, names, NewLabel(c), names);
      assert code + [LabelAt(l)] + [] == code + [LabelAt(l)];
      LastReplaced(s0, sb, code, LabelAt(l), Jump(endOfTree), NewLabel(c), names);
      elseLabel := opts[|opts| - 1];
      opts := opts[|opts| - 1 := Jump(endOfTree)];
    }

    /** The state after the block of an else has been left, and after its list has been added to the select's. */
    lemma ElseDone(s0: State, sc: State, s1: State, s2: State, s3: State, s4: State, s: Stmt, mutations: nat,
                   selectList: nat)
      requires Valid(s0) && Valid(sc) && Valid(s4) && s.IfElse? && s4.lists == s3.lists
      requires var names, loop, c := Tables(s0.scopes), Top(s0).loopLabel, CountersOf(s0);
        var t, inner, l := LowerThen(s, names, loop, c), names + [map[]], Label(Else, c.labels);
        var c1 := NewLabel(NewList(t.next));
        var e := LowerBlock(s.els, inner, loop, c1);
        && Emits(s0, sc, t.code + [Jump(Label(IfElseEnd, t.next.labels))], NewLabel(t.next), names)
            && mutations == t.next.lists
        && Enters(sc, s1, mutations, map[], loop, c1)
        && Emits(s1, s2, [LabelAt(l)], c1, inner) && Closes(s2, s3, e.code, e.next, e.names)
            && Emits(s3, s4, [OptionEnd(mutations)], e.next, e.names)
        && selectList == c.lists < |sc.lists| && ThenRight(s, names, loop, c, sc.lists)
            && Elements(sc.lists[selectList]) == Mutated(t.code, c.vars)
        && ListsRight(s.els, inner, loop, c1, s3.lists)
      ensures mutations < |s4.lists| && selectList < |s4.lists| && |s0.lists| <= selectList
      ensures var names, loop, c := Tables(s0.scopes), Top(s0).loopLabel, CountersOf(s0);
        var t, inner, l := LowerThen(s, names, loop, c), names + [map[]], Label(Else, c.labels);
        var c1 := NewLabel(NewList(t.next));
        var e := LowerBlock(s.els, inner, loop, c1);
        var s5 := Pop(s4).(lists := s4.lists[selectList := s4.lists[selectList] + s4.lists[mutations]]);
        && Valid(Pop(s4)) && Valid(s5)
        && Emits(s0, s5, t.code + [Jump(Label(IfElseEnd, t.next.labels))]
            + ([LabelAt(l)] + e.code + [OptionEnd(mutations)]), e.next, names)
        && ThenRight(s, names, loop, c, s5.lists) && Elements(s5.lists[selectList]) == Mutated(t.code, c.vars)
            + Mutated(e.code, t.next.vars)
        && ListIs(s5.lists, mutations, e.code, t.next.vars) && ListsRight(s.els, inner, loop, c1, s5.lists)
    {
      hide Emits, Valid, Closes, Enters, LowerThen, LowerBlock, Elements, Mutated, ListsRight, ThenRight, Ascending,
          Pop, AgreeBetween, Top, Named, Below;
      ValidScopes(s0);
      var names, loop, c := Tables(s0.scopes), Top(s0).loopLabel, CountersOf(s0);
      var t, inner, l := LowerThen(s, names, loop, c), names + [map[]], Label(Else, c.labels);
      var c1, jump := NewLabel(NewList(t.next)), [Jump(Label(IfElseEnd, t.next.labels))];
      var e, pre, post := LowerBlock(s.els, inner, loop, c1), [LabelAt(l)], [OptionEnd(mutations)];
      EmitsCounters(s0, sc, t.code + jump, NewLabel(t.next), names);
      EmitsTop(s0, sc, t.code + jump, NewLabel(t.next), names);
      EntersTop(sc, s1, mutations, map[], loop, c1);
      EmitsTop(s1, s2, pre, c1, inner);
      ClosesTop(s2, s3, e.code, e.next, e.names);
      EmitsTop(s3, s4, post, e.next, e.names);
      LowerThenGrows(s, names, loop, c);
      LowerBlockExtends(s.els, inner, loop, c1);
      MutatesNothing(post, Top(sc).firstVar);
      MutatesNothing(post, t.next.vars);
      MutatesNothing(pre, t.next.vars);
      MutatedConcat(pre, e.code, t.next.vars);
      ScopeDone(sc, s1, s2, s3, s4, mutations, map[], loop, c1, pre, c1, inner, e.code, e.next, e.names, post, e.next,
          e.names);
      EmitsCounters(sc, Pop(s4), pre + e.code + post, e.next, names);
      PoppedIsValid(sc, s4, pre + e.code + post, e.next, names);
      EmitsBoth(s0, sc, Pop(s4), t.code + jump, pre + e.code + post, NewLabel(t.next), names, e.next, names);
      PopKeepsLists(s4);
      EmitsKeepsAside(s0, sc, Pop(s4), t.code + jump, NewLabel(t.next), names, pre + e.code + post, e.next, names);
      var list := s4.lists[selectList] + s4.lists[mutations];
      ElementsJoin(s4.lists[selectList], s4.lists[mutations]);
      ListAside(s0, Pop(s4), selectList, list, t.code + jump + (pre + e.code + post), e.next, names);
      var lists := s4.lists[selectList := list];
      AgreeIf(sc.lists, lists, c.lists + 1, t.next.lists);
      ThenRightElsewhere(s, names, loop, c, sc.lists, lists);
      AgreeIf(s3.lists, lists, c1.lists, e.next.lists);
      ListsRightElsewhere(s.els, inner, loop, c1, s3.lists, lists);
    }

    lemma PopKeepsLists(s: State)
      ensures Pop(s).lists == s.lists
    {
    }

    lemma AgreeIf(a: seq<seq<nat>>, b: seq<seq<nat>>, from: nat, to: nat)
      requires |a| >= to && |b| >= to && forall k :: from <= k < to ==> a[k] == b[k]
      ensures AgreeBetween(a, b, from, to)
    {
    }

    lemma ElementsJoin(a: seq<nat>, b: seq<nat>)
      ensures Elements(a + b) == Elements(a) + Elements(b)
    {
    }

    /** Lists made since a state are not touched by what the scope of that state emits later. */
    lemma EmitsKeepsAside(s0: State, s: State, s': State, code0: seq<Inst>, c0: Counters, n0: Names, code: seq<Inst>,
                          c: Counters, names: Names)
      requires Valid(s0) && Emits(s0, s, code0, c0, n0) && Emits(s, s', code, c, names)
      ensures forall k :: |s0.lists| <= k < |s.lists| ==> k < |s'.lists| && s'.lists[k] == s.lists[k]
    {
      hide Elements, Mutated;
    }

    lemma ElseMutates(s: Stmt, names: Names, loop: LoopId, c: Counters)
      requires s.IfElse? && names != [] && Below(names, c.vars) && Accepted(s, names, loop, c)
      ensures var t := LowerThen(s, names, loop, c);
        var e := LowerBlock(s.els, names + [map[]], loop, NewLabel(NewList(t.next)));
        Mutated(LowerIf(s, names, loop, c).code, c.vars) == Mutated(t.code, c.vars) + Mutated(e.code, t.next.vars)
    {
      hide LowerIf, LowerThen, LowerBlock, Mutated, Named, Below, AcceptedBlock, AcceptedThen;
      var t, inner := LowerThen(s, names, loop, c), names + [map[]];
      var e := LowerBlock(s.els, inner, loop, NewLabel(NewList(t.next)));
      LowerThenGrows(s, names, loop, c);
      IfMutates(s, names, loop, c);
      IfElseCode(s, names, loop, c);
      OlderThan(names, c.vars, e.code, t.next.vars);
    }

    lemma ElseListsRight(s: Stmt, names: Names, loop: LoopId, c: Counters, before: seq<seq<nat>>, lists: seq<seq<nat>>)
      requires s.IfElse? && names != [] && Below(names, c.vars) && Accepted(s, names, loop, c)
      requires c.lists < |before| == |lists| && lists == before[c.lists := lists[c.lists]]
      requires Ascending(lists[c.lists]) && Elements(lists[c.lists]) == Elements(before[c.lists])
      requires var t, inner := LowerThen(s, names, loop, c), names + [map[]];
        var c1 := NewLabel(NewList(t.next));
        var e := LowerBlock(s.els, inner, loop, c1);
        && ThenRight(s, names, loop, c, before) && Elements(before[c.lists]) == Mutated(t.code, c.vars)
            + Mutated(e.code, t.next.vars)
        && ListIs(before, t.next.lists, e.code, t.next.vars) && ListsRight(s.els, inner, loop, c1, before)
        && |before| >= e.next.lists
      ensures ListsRightIn(s, names, loop, c, lists)
    {
      hide LowerIf, LowerThen, LowerBlock, Elements, Mutated, ListsRight, ThenRight, Ascending, AgreeBetween, Named,
          Below, AcceptedBlock, AcceptedThen;
      var t, inner := LowerThen(s, names, loop, c), names + [map[]];
      var c1, end := NewLabel(NewList(t.next)), Label(IfElseEnd, t.next.labels);
      var e := LowerBlock(s.els, inner, loop, c1);
      LowerThenGrows(s, names, loop, c);
      LowerBlockExtends(s.els, inner, loop, c1);
      AgreeIf(before, lists, c.lists + 1, t.next.lists);
      ThenRightElsewhere(s, names, loop, c, before, lists);
      AgreeIf(before, lists, c1.lists, e.next.lists);
      ListsRightElsewhere(s.els, inner, loop, c1, before, lists);
      ElseMutates(s, names, loop, c);
    }

    lemma ElseComplete(s: Stmt, names: Names, loop: LoopId, c: Counters, before: seq<seq<nat>>, lists: seq<seq<nat>>)
      requires s.IfElse? && names != [] && Below(names, c.vars) && Accepted(s, names, loop, c)
      requires c.lists < |before| == |lists| && lists == before[c.lists := lists[c.lists]]
      requires Ascending(lists[c.lists]) && Elements(lists[c.lists]) == Elements(before[c.lists])
      requires var t, inner := LowerThen(s, names, loop, c), names + [map[]];
        var c1 := NewLabel(NewList(t.next));
        var e := LowerBlock(s.els, inner, loop, c1);
        && ThenRight(s, names, loop, c, before) && Elements(before[c.lists]) == Mutated(t.code, c.vars)
            + Mutated(e.code, t.next.vars)
        && ListIs(before, t.next.lists, e.code, t.next.vars) && ListsRight(s.els, inner, loop, c1, before)
        && |before| >= e.next.lists
      ensures ListsRightIn(s, names, loop, c, lists)
      ensures var t := LowerThen(s, names, loop, c);
        var e := LowerBlock(s.els, names + [map[]], loop, NewLabel(NewList(t.next)));
        var a, end := LowerIf(s, names, loop, c), Label(IfElseEnd, t.next.labels);
        && a.next == e.next
        && a.code == t.code + [Jump(end)] + ([LabelAt(Label(Else, c.labels))] + e.code + [OptionEnd(t.next.lists)])
            + [OptionSelectEnd] + [LabelAt(end)]
    {
      hide LowerIf, LowerThen, LowerBlock, Elements, Mutated, ListsRight, ListsRightIn, ThenRight, Ascending, Below,
          Accepted, ListIs;
      ElseListsRight(s, names, loop, c, before, lists);
      IfElseCode(s, names, loop, c);
    }

    lemma IfElseCode(s: Stmt, names: Names, loop: LoopId, c: Counters)
      requires s.IfElse?
      ensures var t := LowerThen(s, names, loop, c);
        var e := LowerBlock(s.els, names + [map[]], loop, NewLabel(NewList(t.next)));
        var a, end := LowerIf(s, names, loop, c), Label(IfElseEnd, t.next.labels);
        && a.next == e.next
        && a.code == t.code + [Jump(end)] + ([LabelAt(Label(Else, c.labels))] + e.code + [OptionEnd(t.next.lists)])
            + [OptionSelectEnd] + [LabelAt(end)]
        && Mutated(a.code, c.vars) == Mutated(t.code, c.vars) + Mutated(e.code, c.vars)
    {
      hide LowerThen, LowerBlock, Mutated;
      var t := LowerThen(s, names, loop, c);
      var end := Label(IfElseEnd, t.next.labels);
      var e := LowerBlock(s.els, names + [map[]], loop, NewLabel(NewList(t.next)));
      var mid, tail := [Jump(end), LabelAt(Label(Else, c.labels))],
          [OptionEnd(t.next.lists), OptionSelectEnd, LabelAt(end)];
      MutatesNothing(mid, c.vars);
      MutatesNothing(tail, c.vars);
      MutatedConcat(t.code, mid, c.vars);
      MutatedConcat(t.code + mid, e.code, c.vars);
      MutatedConcat(t.code + mid + e.code, tail, c.vars);
    }

    /** Named variables are older than anything created since. */
    lemma OlderThan(names: Names, n: nat, code: seq<Inst>, m: nat)
      requires Below(names, n) && n <= m && Mutated(code, m) <= Named(names)
      ensures Mutated(code, m) == Mutated(code, n)
    {
      hide Mutated, Named;
      MutatedBelow(code, m, n);
      NamedIsNamed(names);
      forall v | v in Mutated(code, m) ensures v < n {
        assert IsNamed(names, v);
      }
    }

    // ----- Loops -----

    /** The end of a loop: where continue goes, the step of a range, the jump back, and where break goes. */
    method EndLoop(id: nat, step: seq<Inst>)
      requires Valid(S()) && (step == [] || (|step| == 1 && step[0].Increment?))
      modifies this`opts, this`lists
      ensures Valid(S())
      ensures Emits(old(S()), S(), [LabelAt(Label(LoopContinue, id))] + step + LoopBack(id), CountersOf(old(S())),
          Tables(scopes))
      ensures step == [] ==> lists == old(lists)
      ensures step != [] ==> scopes != [] && Appended(old(lists), lists, scopes[|scopes| - 1], step[0])
    {
      hide Emits, Valid, Appended;
      ghost var s0, names, c := S(), Tables(scopes), CountersOf(S());
      ValidScopes(s0);
      var label0 := LabelAt(Label(LoopContinue, id));
      AddOpt(label0);
      ghost var s1, code := S(), [label0];
      EmitsCounters(s0, s1, code, c, names);
      if step != [] {
        AddOpt(step[0]);
        assert step == [step[0]];
        EmitsBoth(s0, s1, S(), code, step, c, names, c, names);
        code := code + step;
      }
      ghost var s2 := S();
      EmitsCounters(s0, s2, code, c, names);
      JumpBack(id);
      EmitsBoth(s0, s2, S(), code, LoopBack(id), c, names, c, names);
      assert code + LoopBack(id) == [label0] + step + LoopBack(id);
    }

    /** The jump back to the head of a loop, and where break goes. */
    method JumpBack(id: nat)
      requires Valid(S())
      modifies this`opts, this`lists
      ensures Valid(S()) && lists == old(lists)
      ensures Emits(old(S()), S(), LoopBack(id), CountersOf(old(S())), Tables(scopes))
    {
      hide Emits, Valid, Appended;
      ghost var s0, names, c := S(), Tables(scopes), CountersOf(S());
      ValidScopes(s0);
      var jump, end, label1 := Jump(Label(LoopStart, id)), LoopEnd, LabelAt(Label(LoopExit, id));
      AddOpt(jump);
      ghost var s1 := S();
      EmitsCounters(s0, s1, [jump], c, names);
      AddOpt(end);
      ghost var s2 := S();
      EmitsBoth(s0, s1, s2, [jump], [end], c, names, c, names);
      EmitsCounters(s0, s2, [jump] + [end], c, names);
      AddOpt(label1);
      EmitsBoth(s0, s2, S(), [jump] + [end], [label1], c, names, c, names);
      assert [jump] + [end] + [label1] == LoopBack(id);
    }

    /** The head of a loop without a range, up to its body. */
    method BeginLoop(header: Header, l: nat, id: nat) returns (ok: bool)
      requires Valid(S()) && !header.Over?
      modifies this`opts, this`nextVarNum, this`lists, labelGen
      ensures ok == (header.Test? ==> Scoped(header.cond, Tables(scopes)))
      ensures ok ==> Valid(S())
      ensures ok ==> var c := CountersOf(old(S()));
        var t := if header.Test? then ToVar(header.cond, Tables(scopes), c.vars, NewVar(c)) else Code([], c);
        var exit := if header.Test? then [JumpIf(false, false, c.vars, Label(LoopExit, id))] else [];
        Emits(old(S()), S(), [OutsideLoopMutations(l)] + [LabelAt(Label(LoopStart, id))] + (t.code + exit), t.next,
            Tables(scopes))
    {
      hide Emits, Valid, ToVar, Scoped;
      ghost var s0, names, c := S(), Tables(scopes), CountersOf(S());
      AddOpt(OutsideLoopMutations(l));
      ghost var s1 := S();
      EmitsCounters(s0, s1, [OutsideLoopMutations(l)], c, names);
      AddOpt(LabelAt(Label(LoopStart, id)));
      ghost var s2, head := S(), [OutsideLoopMutations(l)] + [LabelAt(Label(LoopStart, id))];
      EmitsBoth(s0, s1, s2, [OutsideLoopMutations(l)], [LabelAt(Label(LoopStart, id))], c, names, c, names);
      EmitsCounters(s0, s2, head, c, names);
      if header.Endless? {
        assert head + ([] + []) == head;
        return true;
      }
      var condVar := NewVariable();
      ghost var s3 := S();
      EmitsBoth(s0, s2, s3, head, [], c, names, NewVar(c), names);
      EmitsCounters(s2, s3, [], NewVar(c), names);
      ok := GenExpressionValueToVar(condVar, header.cond);
      if !ok { return; }
      ghost var s4, t := S(), ToVar(header.cond, names, c.vars, NewVar(c));
      EmitsBoth(s0, s3, s4, head + [], t.code, NewVar(c), names, t.next, names);
      EmitsCounters(s3, s4, t.code, t.next, names);
      var jump := JumpIf(false, false, condVar, Label(LoopExit, id));
      AddOpt(jump);
      EmitsBoth(s0, s4, S(), head + [] + t.code, [jump], t.next, names, t.next, names);
      assert head + [] + t.code + [jump] == head + (t.code + [jump]);
    }

    lemma LoopNodeHere(order: seq<Node>, start: nat, header: Header, body: seq<Stmt>)
      requires HoldsNodes(order, start, [Loop(header)] + Flatten(body) + [BlockEnd])
      ensures start < |order| && order[start] == Loop(header)
          && HoldsNodes(order, start + 1, Flatten(body) + [BlockEnd])
    {
      hide Flatten;
      assert [Loop(header)] + Flatten(body) + [BlockEnd] == [Loop(header)] + (Flatten(body) + [BlockEnd]);
      NodesSplit(order, start, [Loop(header)], Flatten(body) + [BlockEnd]);
      assert order[start] == order[start..start + 1][0];
    }

    /** A loop without a range, through the end of its block. */
    method GenPlainLoop(order: seq<Node>, start: nat, ghost s: Stmt) returns (i: nat, ok: bool)
      requires Valid(S()) && (s.Forever? || s.While?)
      requires HoldsNodes(order, start, [Loop(HeaderOf(s))] + Flatten(s.body) + [BlockEnd])
      modifies this`opts, this`nextVarNum, this`lists, this`scopes, labelGen
      ensures ok == Accepted(s, Tables(old(scopes)), Top(old(S())).loopLabel, CountersOf(old(S())))
      ensures ok ==> Valid(S()) && i == start + |[Loop(HeaderOf(s))] + Flatten(s.body) + [BlockEnd]|
      ensures ok ==> var names, loop, c := Tables(old(scopes)), Top(old(S())).loopLabel, CountersOf(old(S()));
                     var a := LowerLoop(s, names, c);
                     Emits(old(S()), S(), a.code, a.next, names) && ListsRightIn(s, names, loop, c, lists)
      decreases s, 1
    {
      hide Emits, Valid, Closes, Enters, ToVar, Scoped, LowerBlock, AcceptedBlock, Flatten, Elements, Mutated,
          ListsRight, Top, Pop, LowerLoop, ListsRightIn;
      ghost var s0, names, c := S(), Tables(scopes), CountersOf(S());
      ValidScopes(s0);
      LoopNodeHere(order, start, HeaderOf(s), s.body);
      var l, loopStart := EnterLoop();
      ghost var s1, inner, c1 := S(), names + [map[]], NewLabel(NewList(c));
      EntersTop(s0, s1, l, map[], Some(c.labels), c1);
      ok := BeginLoop(order[start].header, l, loopStart.id);
      if !ok { i := start; return; }
      ghost var s2, test := S(), LoopTest(s, names, c);
      LoopTestIs(s, names, c);
      ghost var pre := [OutsideLoopMutations(l)] + [LabelAt(Label(LoopStart, c.labels))] + test.code;
      EmitsCounters(s1, s2, pre, test.next, inner);
      EmitsTop(s1, s2, pre, test.next, inner);
      i, ok := GenForProcSubSection(order, start + 1, s.body);
      if !ok { return; }
      ghost var s3, b := S(), LowerBlock(s.body, inner, Some(c.labels), test.next);
      ClosesTop(s2, s3, b.code, b.next, b.names);
      EndLoop(loopStart.id, []);
      ghost var s4 := S();
      scopes := scopes[..|scopes| - 1];
      PopIsPop(s4, S());
      PlainLoopDone(s0, s1, s2, s3, s4, s, l);
    }

    lemma LoopTestIs(s: Stmt, names: Names, c: Counters)
      requires s.Forever? || s.While?
      ensures var header, inner, c1 := HeaderOf(s), names + [map[]], NewLabel(NewList(c));
        var t := if header.Test? then ToVar(header.cond, inner, c1.vars, NewVar(c1)) else Code([], c1);
        var exit := if header.Test? then [JumpIf(false, false, c1.vars, Label(LoopExit, c.labels))] else [];
        LoopTest(s, names, c) == Code(t.code + exit, t.next)
    {
      hide ToVar;
    }

    /** The list, the labels and the scope of a loop. */
    method EnterLoop() returns (l: nat, loopStart: Label)
      requires Valid(S())
      modifies this`lists, this`scopes, labelGen
      ensures Valid(S()) && l == |old(lists)| && loopStart == Label(LoopStart, old(labelGen.availableId))
      ensures Enters(old(S()), S(), l, map[], Some(loopStart.id), NewLabel(NewList(CountersOf(old(S())))))
    {
      ghost var s0 := S();
      l := NewMutationList();
      loopStart := labelGen.GenLabel(LoopStart);
      Inherit(Some(loopStart.id), l);
      EnteredIsValid(s0, S(), l, map[], Some(loopStart.id), CountersOf(S()));
    }

    lemma PlainLoopDone(s0: State, s1: State, s2: State, s3: State, s4: State, s: Stmt, l: nat)
      requires Valid(s0) && Valid(s4) && (s.Forever? || s.While?) && l == |s0.lists| && s4.lists == s3.lists
      requires var names, c := Tables(s0.scopes), CountersOf(s0);
        var inner, c1, test := names + [map[]], NewLabel(NewList(c)), LoopTest(s, names, c);
        var pre := [OutsideLoopMutations(l)] + [LabelAt(Label(LoopStart, c.labels))] + test.code;
        var b := LowerBlock(s.body, inner, Some(c.labels), test.next);
        && Enters(s0, s1, l, map[], Some(c.labels), c1) && Emits(s1, s2, pre, test.next, inner)
            && Closes(s2, s3, b.code, b.next, b.names)
        && Emits(s3, s4, [LabelAt(Label(LoopContinue, c.labels))] + [] + LoopBack(c.labels), b.next, b.names)
        && ListsRight(s.body, inner, Some(c.labels), test.next, s3.lists)
      ensures var names, loop, c := Tables(s0.scopes), Top(s0).loopLabel, CountersOf(s0);
        var a := LowerLoop(s, names, c);
        Valid(Pop(s4)) && Emits(s0, Pop(s4), a.code, a.next, names) && ListsRightIn(s, names, loop, c, Pop(s4).lists)
    {
      hide Emits, Valid, Closes, Enters, ToVar, LowerBlock, Elements, Mutated, ListsRight, Pop, LowerLoop, LoopTest;
      ValidScopes(s0);
      var names, c := Tables(s0.scopes), CountersOf(s0);
      var inner, c1, test := names + [map[]], NewLabel(NewList(c)), LoopTest(s, names, c);
      var pre := [OutsideLoopMutations(l)] + [LabelAt(Label(LoopStart, c.labels))] + test.code;
      var post := [LabelAt(Label(LoopContinue, c.labels))] + [] + LoopBack(c.labels);
      var b := LowerBlock(s.body, inner, Some(c.labels), test.next);
      LowerBlockExtends(s.body, inner, Some(c.labels), test.next);
      MutatesNothing(post, Top(s0).firstVar);
      MutatesNothing(post, c.vars);
      ScopeDone(s0, s1, s2, s3, s4, l, map[], Some(c.labels), c1, pre, test.next, inner, b.code, b.next, b.names, post,
          b.next, b.names);
      LoopCode(s, names, c);
      var code := pre + b.code + post;
      assert LowerLoop(s, names, c).code == code;
      LowerLoopGrows(s, names, c);
      EmitsCounters(s0, Pop(s4), code, b.next, names);
      EntersTop(s0, s1, l, map[], Some(c.labels), c1);
      EmitsTop(s1, s2, pre, test.next, inner);
      ClosesTop(s2, s3, b.code, b.next, b.names);
      EmitsTop(s3, s4, post, b.next, b.names);
      PoppedIsValid(s0, s4, code, b.next, names);
      MutatedConcat(pre + b.code, post, c.vars);
      PopKeepsLists(s4);
    }

    /** A range loop's list, labels, hidden counter and bounds, and then its scope. */
    method EnterRange(to: Expr, from: Expr) returns (l: nat, loopStart: Label, iterationVar: nat, endVar: nat, ok: bool)
      requires Valid(S())
      modifies this`opts, this`nextVarNum, this`lists, this`scopes, labelGen
      ensures ok == (Scoped(to, Tables(old(scopes))) && Scoped(from, Tables(old(scopes))))
      ensures ok ==> var c, names := CountersOf(old(S())), Tables(old(scopes));
        var hi := ToValue(to, names, NewVar(NewLabel(NewList(c))));
        var lo := ToVar(from, names, c.vars, hi.next);
        && l == |old(lists)| && loopStart == Label(LoopStart, c.labels) && iterationVar == c.vars && endVar == hi.vn
        && Valid(S()) && scopes != [] && |lists| == l + 1
        && var sb := S().(scopes := scopes[..|scopes| - 1], lists := lists[..l]);
           && Valid(sb) && Emits(old(S()), sb, hi.code + lo.code, lo.next.(lists := c.lists), names)
           && Enters(sb, S(), l, map[], Some(c.labels), lo.next)
    {
      hide Emits, Valid, Enters, ToVar, ToValue, Scoped;
      l, loopStart, endVar, iterationVar := 0, Label(LoopStart, 0), 0, 0;
      ghost var s0, names, c := S(), Tables(scopes), CountersOf(S());
      l := NewMutationList();
      loopStart := labelGen.GenLabel(LoopStart);
      ghost var s1, c1 := S(), NewLabel(NewList(c));
      LabelKeepsValid(s0, s1);
      iterationVar := NewVariable();
      ghost var s2 := S();
      EmitsCounters(s1, s2, [], NewVar(c1), names);
      endVar, ok := GenExpressionValue(to);
      if !ok { return; }
      ghost var s3, hi := S(), ToValue(to, names, NewVar(c1));
      EmitsCounters(s2, s3, hi.code, hi.next, names);
      EmitsBoth(s1, s2, s3, [], hi.code, NewVar(c1), names, hi.next, names);
      ok := GenExpressionValueToVar(iterationVar, from);
      if !ok { return; }
      ghost var s4, lo := S(), ToVar(from, names, c.vars, hi.next);
      EmitsBoth(s1, s3, s4, [] + hi.code, lo.code, hi.next, names, lo.next, names);
      assert [] + hi.code + lo.code == hi.code + lo.code;
      EmitsCounters(s1, s4, hi.code + lo.code, lo.next, names);
      ToValueKeepsLists(to, names, NewVar(c1));
      ToVarKeepsLists(from, names, c.vars, hi.next);
      ListMadeAhead(s0, s1, s4, hi.code + lo.code, lo.next, names);
      EmitsTop(s1, s4, hi.code + lo.code, lo.next, names);
      Inherit(Some(loopStart.id), l);
      RangeEntered(s4, S(), l, Some(loopStart.id), lo.next);
    }

    lemma LabelKeepsValid(s: State, s': State)
      requires Valid(s) && s' == s.(availableId := s.availableId + 1, lists := s.lists + [[]])
      ensures Valid(s')
    {
    }

    lemma RangeEntered(s: State, s': State, l: nat, loop: LoopId, c: Counters)
      requires l + 1 == |s.lists| && s.scopes != [] && s.lists == s.lists[..l] + [[]] && CountersOf(s) == c
      requires s' == s.(scopes := s.scopes + [Scope(map[], loop, s.nextVarNum, Some(l))])
      requires Valid(s.(lists := s.lists[..l]))
      ensures s'.scopes[..|s'.scopes| - 1] == s.scopes
      ensures Valid(s') && Enters(s.(lists := s.lists[..l]), s', l, map[], loop, c)
    {
      EnteredIsValid(s.(lists := s.lists[..l]), s', l, map[], loop, c);
    }

    /** The head of a range loop, up to its body: the test, and the copy of the counter that the body sees. */
    method BeginRange(counter: Option<string>, l: nat, id: nat, iterationVar: nat, endVar: nat)
      requires Valid(S()) && Top(S()).varTable == map[]
      modifies this`opts, this`nextVarNum, this`lists, this`scopes
      ensures Valid(S())
      ensures var c := CountersOf(old(S()));
        var c1 := NewVar(c);
        var named := if counter.Some? then [Assign(c1.vars, iterationVar)] else [];
        Emits(old(S()), S(), [OutsideLoopMutations(l)] + [LabelAt(Label(LoopStart, id))]
                             + ([Compare(LesserOrEqual, iterationVar, endVar, c.vars)]
                                 + [JumpIf(false, false, c.vars, Label(LoopExit, id))] + named),
              if counter.Some? then NewVar(c1) else c1,
              Tables(old(scopes))[..|old(scopes)| - 1] + [CounterNames(counter, c1.vars)])
    {
      hide Emits, Valid, Appended;
      ghost var s0, names, c := S(), Tables(scopes), CountersOf(S());
      ValidScopes(s0);
      var head := AddTwo(OutsideLoopMutations(l), LabelAt(Label(LoopStart, id)));
      ghost var s2 := S();
      EmitsCounters(s0, s2, head, c, names);
      var condVar := NewVariable();
      ghost var s3, c1 := S(), NewVar(c);
      EmitsBoth(s0, s2, s3, head, [], c, names, c1, names);
      EmitsCounters(s2, s3, [], c1, names);
      var test := AddTwo(Compare(LesserOrEqual, iterationVar, endVar, condVar),
          JumpIf(false, false, condVar, Label(LoopExit, id)));
      ghost var s5 := S();
      EmitsBoth(s0, s3, s5, head + [], test, c1, names, c1, names);
      EmitsCounters(s3, s5, test, c1, names);
      assert head + [] + test == head + test;
      if counter.Some? {
        ghost var names' := Bind(names, counter.value, c1.vars);
        AddCounter(counter.value, iterationVar);
        EmitsBoth(s0, s5, S(), head + test, [Assign(c1.vars, iterationVar)], c1, names, NewVar(c1), names');
        assert names' == names[..|names| - 1] + [CounterNames(counter, c1.vars)];
        assert head + test + [Assign(c1.vars, iterationVar)] == head + (test + [Assign(c1.vars, iterationVar)]);
      } else {
        assert names == names[..|names| - 1] + [CounterNames(counter, c1.vars)];
        assert test + [] == test;
      }
    }

    method AddTwo(a: Inst, b: Inst) returns (ghost code: seq<Inst>)
      requires Valid(S())
      modifies this`opts, this`lists
      ensures code == [a] + [b] && Valid(S()) && Emits(old(S()), S(), code, CountersOf(old(S())), Tables(scopes))
    {
      hide Emits, Valid, Appended;
      ghost var s0, names, c := S(), Tables(scopes), CountersOf(S());
      AddOpt(a);
      ghost var s1 := S();
      EmitsCounters(s0, s1, [a], c, names);
      AddOpt(b);
      EmitsBoth(s0, s1, S(), [a], [b], c, names, c, names);
      code := [a] + [b];
    }

    /** A new named variable with the value of another. */
    method AddCounter(name: string, iterationVar: nat)
      requires Valid(S())
      modifies this`opts, this`nextVarNum, this`lists, this`scopes
      ensures Valid(S())
      ensures var vn := old(nextVarNum);
        Emits(old(S()), S(), [Assign(vn, iterationVar)], NewVar(CountersOf(old(S()))),
            Bind(Tables(old(scopes)), name, vn))
    {
      hide Emits, Valid, Appended;
      ghost var s0, names, c := S(), Tables(scopes), CountersOf(S());
      ValidScopes(s0);
      var namedCounterVn := NewNamedVar(name);
      ghost var s1, names' := S(), Bind(names, name, namedCounterVn);
      EmitsCounters(s0, s1, [], NewVar(c), names');
      AddOpt(Assign(namedCounterVn, iterationVar));
      EmitsBoth(s0, s1, S(), [], [Assign(namedCounterVn, iterationVar)], NewVar(c), names', NewVar(c), names');
      assert [] + [Assign(namedCounterVn, iterationVar)] == [Assign(namedCounterVn, iterationVar)];
    }

    /** A range loop, through the end of its block. */
    method GenRangeLoop(order: seq<Node>, start: nat, ghost s: Stmt) returns (i: nat, ok: bool)
      requires Valid(S()) && s.ForRange?
      requires HoldsNodes(order, start, [Loop(HeaderOf(s))] + Flatten(s.body) + [BlockEnd])
      modifies this`opts, this`nextVarNum, this`lists, this`scopes, labelGen
      ensures ok == Accepted(s, Tables(old(scopes)), Top(old(S())).loopLabel, CountersOf(old(S())))
      ensures ok ==> Valid(S()) && i == start + |[Loop(HeaderOf(s))] + Flatten(s.body) + [BlockEnd]|
      ensures ok ==> var names, loop, c := Tables(old(scopes)), Top(old(S())).loopLabel, CountersOf(old(S()));
                     var a := LowerRange(s, names, c);
                     Emits(old(S()), S(), a.code, a.next, names) && ListsRightIn(s, names, loop, c, lists)
      decreases s, 1
    {
      hide Emits, Valid, Closes, Enters, ToVar, ToValue, Scoped, LowerBlock, AcceptedBlock, Flatten, Elements, Mutated,
          ListsRight, Top, Pop, LowerRange,
        ListsRightIn, Appended, Tables;
      ghost var s0, names, c := S(), Tables(scopes), CountersOf(S());
      ValidScopes(s0);
      LoopNodeHere(order, start, HeaderOf(s), s.body);
      var header := order[start].header;
      var l, loopStart, iterationVar, endVar, entered := EnterRange(header.to, header.from);
      ok := entered;
      if !ok { i := start; return; }
      ghost var sb, s1, r := S().(scopes := scopes[..|scopes| - 1], lists := lists[..l]), S(), PartsOf(s, names, c);
      ghost var c1 := NewVar(r.lo.next);
      RangeScope(s0, sb, s1, s, l);
      BeginRange(header.counter, l, loopStart.id, iterationVar, endVar);
      ghost var s2 := S();
      ghost var pre := RangeHeadCode(s, names, c, l);
      EmitsCounters(s1, s2, pre, r.c, r.inner);
      EmitsTop(s1, s2, pre, r.c, r.inner);
      i, ok := GenForProcSubSection(order, start + 1, s.body);
      if !ok { return; }
      ghost var s3 := S();
      ClosesTop(s2, s3, r.body.code, r.body.next, r.body.names);
      EndLoop(loopStart.id, [Increment(iterationVar)]);
      ghost var s4 := S();
      scopes := scopes[..|scopes| - 1];
      PopIsPop(s4, S());
      RangeDone(s0, sb, s1, s2, s3, s4, s, l);
    }

    ghost function RangeHeadCode(s: Stmt, names: Names, c: Counters, l: nat): seq<Inst>
      requires s.ForRange?
    {
      var r := PartsOf(s, names, c);
      [OutsideLoopMutations(l)] + [LabelAt(Label(LoopStart, c.labels))]
      + ([Compare(LesserOrEqual, c.vars, r.hi.vn, r.test)] + [JumpIf(false, false, r.test, Label(LoopExit, c.labels))]
          + r.named)
    }

    lemma RangeScope(s0: State, sb: State, s1: State, s: Stmt, l: nat)
      requires Valid(s0) && s.ForRange? && s0.scopes != []
      requires var names, c := Tables(s0.scopes), CountersOf(s0); var r := PartsOf(s, names, c);
        Emits(s0, sb, r.hi.code + r.lo.code, r.lo.next.(lists := c.lists), names)
            && Enters(sb, s1, l, map[], Some(c.labels), r.lo.next)
      ensures s1.scopes != [] && Top(s1).varTable == map[] && Top(s1).loopLabel == Some(s0.availableId)
      ensures var names, c := Tables(s0.scopes), CountersOf(s0);
        CountersOf(s1) == PartsOf(s, names, c).lo.next && Tables(s1.scopes) == names + [map[]]
        && |s1.scopes| == |names| + 1 && Tables(s1.scopes)[..|s1.scopes| - 1] == names
    {
      hide ToVar, ToValue, LowerBlock;
      var names, c := Tables(s0.scopes), CountersOf(s0);
      var r := PartsOf(s, names, c);
      EmitsCounters(s0, sb, r.hi.code + r.lo.code, r.lo.next.(lists := c.lists), names);
      EntersTop(sb, s1, l, map[], Some(c.labels), r.lo.next);
    }

    lemma RangeDone(s0: State, sb: State, s1: State, s2: State, s3: State, s4: State, s: Stmt, l: nat)
      requires Valid(s0) && Valid(sb) && Valid(s4) && s.ForRange? && l == |s0.lists|
      requires Accepted(s, Tables(s0.scopes), Top(s0).loopLabel, CountersOf(s0))
      requires var names, c := Tables(s0.scopes), CountersOf(s0); var r := PartsOf(s, names, c);
        && Emits(s0, sb, r.hi.code + r.lo.code, r.lo.next.(lists := c.lists), names)
        && Enters(sb, s1, l, map[], Some(c.labels), r.lo.next)
        && Emits(s1, s2, RangeHeadCode(s, names, c, l), r.c, r.inner)
            && Closes(s2, s3, r.body.code, r.body.next, r.body.names)
        && Emits(s3, s4, [LabelAt(Label(LoopContinue, c.labels))] + [Increment(c.vars)] + LoopBack(c.labels),
            r.body.next, r.body.names)
        && Appended(s3.lists, s4.lists, s4.scopes[|s4.scopes| - 1], Increment(c.vars))
        && ListsRight(s.body, r.inner, Some(c.labels), r.c, s3.lists)
      ensures var names, loop, c := Tables(s0.scopes), Top(s0).loopLabel, CountersOf(s0);
        var a := LowerRange(s, names, c);
        Valid(Pop(s4)) && Emits(s0, Pop(s4), a.code, a.next, names) && ListsRightIn(s, names, loop, c, Pop(s4).lists)
    {
      hide Emits, Valid, Closes, Enters, ToVar, ToValue, LowerBlock, Elements, Mutated, ListsRight, Pop, Ascending,
          AgreeBetween, Accepted, Named, Below,
        Appended;
      ValidScopes(s0);
      var names, c := Tables(s0.scopes), CountersOf(s0);
      var r := PartsOf(s, names, c);
      var bounds, pre := r.hi.code + r.lo.code, RangeHeadCode(s, names, c, l);
      var post := [LabelAt(Label(LoopContinue, c.labels))] + [Increment(c.vars)] + LoopBack(c.labels);
      EmitsCounters(s0, sb, bounds, r.lo.next.(lists := c.lists), names);
      EmitsTop(s0, sb, bounds, r.lo.next.(lists := c.lists), names);
      PartsGrow(s, names, c);
      LowerBlockExtends(s.body, r.inner, Some(c.labels), r.c);
      PostMutates(s0, sb, c.labels, bounds, r.lo.next.(lists := c.lists), names);
      ScopeDone(sb, s1, s2, s3, s4, l, map[], Some(c.labels), r.lo.next, pre, r.c, r.inner, r.body.code, r.body.next,
          r.body.names, post,
                r.body.next, r.body.names);
      var code := pre + r.body.code + post;
      EmitsBoth(s0, sb, Pop(s4), bounds, code, r.lo.next.(lists := c.lists), names, r.body.next, names);
      EntersTop(sb, s1, l, map[], Some(c.labels), r.lo.next);
      EmitsTop(s1, s2, pre, r.c, r.inner);
      ClosesTop(s2, s3, r.body.code, r.body.next, r.body.names);
      EmitsTop(s3, s4, post, r.body.next, r.body.names);
      EmitsCounters(sb, Pop(s4), code, r.body.next, names);
      PoppedIsValid(sb, s4, code, r.body.next, names);
      PopKeepsLists(s4);
      RangeAssembled(s, names, c, l);
      ScopesThrough(s1, s2, s3, s4, pre, r.c, r.inner, r.body.code, r.body.next, r.body.names, post, r.body.next,
          r.body.names);
      RangeListRight(s0, sb, s1, s2, s3, s4, s, l);
      ToValueGrows(s.to, names, NewVar(NewLabel(NewList(c))));
      ToVarGrows(s.from, names, c.vars, r.hi.next);
      AgreeIf(s3.lists, s4.lists, r.c.lists, r.body.next.lists);
      ListsRightElsewhere(s.body, r.inner, Some(c.labels), r.c, s3.lists, s4.lists);
    }

    lemma PostMutates(s0: State, sb: State, id: nat, code: seq<Inst>, c: Counters, names: Names)
      requires Valid(s0) && Emits(s0, sb, code, c, names)
      ensures Mutated([LabelAt(Label(LoopContinue, id))] + [Increment(s0.nextVarNum)] + LoopBack(id),
          Top(sb).firstVar) == {}
    {
      var post := [LabelAt(Label(LoopContinue, id))] + [Increment(s0.nextVarNum)] + LoopBack(id);
      assert Top(sb).firstVar <= s0.nextVarNum;
      forall i | 0 <= i < |post| && MutationVar(post[i]).Some? ensures MutationVar(post[i]).value == s0.nextVarNum {
      }
    }

    /** The pieces of a range loop make up its code. */
    lemma RangeAssembled(s: Stmt, names: Names, c: Counters, l: nat)
      requires s.ForRange? && l == c.lists
      ensures var r := PartsOf(s, names, c);
        var post := [LabelAt(Label(LoopContinue, c.labels))] + [Increment(c.vars)] + LoopBack(c.labels);
        && LowerRange(s, names, c).code == r.hi.code + r.lo.code + (RangeHeadCode(s, names, c, l) + r.body.code + post)
        && LowerRange(s, names, c).next == r.body.next
        && forall n: nat :: Mutated(RangeHeadCode(s, names, c, l) + r.body.code, n) + Mutated(post, n) ==
            Mutated(RangeInside(s, names, c), n)
      ensures var r := PartsOf(s, names, c);
        forall n: nat :: Mutated(RangeHeadCode(s, names, c, l) + r.body.code, n) ==
          Mutated([Compare(LesserOrEqual, c.vars, r.hi.vn, r.test)]
              + [JumpIf(false, false, r.test, Label(LoopExit, c.labels))] + r.named + r.body.code, n)
    {
      hide LowerBlock, ToVar, ToValue, Mutated;
      RangeCode(s, names, c);
      PartsGrow(s, names, c);
      var r := PartsOf(s, names, c);
      var head := [OutsideLoopMutations(l)] + [LabelAt(Label(LoopStart, c.labels))];
      var test := [Compare(LesserOrEqual, c.vars, r.hi.vn, r.test)]
          + [JumpIf(false, false, r.test, Label(LoopExit, c.labels))] + r.named;
      var label0, step := [LabelAt(Label(LoopContinue, c.labels))], [Increment(c.vars)];
      assert RangeHeadCode(s, names, c, l) + r.body.code == head + (test + r.body.code);
      assert RangeInside(s, names, c) == (test + r.body.code) + (label0 + step);
      assert label0 + step + LoopBack(c.labels) == (label0 + step) + LoopBack(c.labels);
      forall n: nat
        ensures Mutated(RangeHeadCode(s, names, c, l) + r.body.code, n) == Mutated(test + r.body.code, n)
        ensures Mutated(label0 + step + LoopBack(c.labels), n) == Mutated(label0 + step, n)
        ensures Mutated(RangeInside(s, names, c), n) == Mutated(test + r.body.code, n) + Mutated(label0 + step, n)
      {
        MutatesNothing(head, n);
        MutatesNothing(LoopBack(c.labels), n);
        MutatedConcat(head, test + r.body.code, n);
        MutatedConcat(label0 + step, LoopBack(c.labels), n);
        MutatedConcat(test + r.body.code, label0 + step, n);
      }
    }

    /** The increment is recorded after the list has been put in order, and the list is still in order. */
    lemma RangeListRight(s0: State, sb: State, s1: State, s2: State, s3: State, s4: State, s: Stmt, l: nat)
      requires s.ForRange? && Valid(s0) && l == |s0.lists| && l < |s3.lists| && l < |s4.lists|
      requires var names, c := Tables(s0.scopes), CountersOf(s0); var r := PartsOf(s, names, c);
        var pre := RangeHeadCode(s, names, c, l);
        var post := [LabelAt(Label(LoopContinue, c.labels))] + [Increment(c.vars)] + LoopBack(c.labels);
        && Accepted(s, names, Top(s0).loopLabel, c) && CountersOf(sb).vars == r.lo.next.vars
        && Enters(sb, s1, l, map[], Some(c.labels), r.lo.next) && SameScopes(s1.scopes, s4.scopes)
        && Elements(s3.lists[l]) == Mutated(pre + r.body.code, r.test) && Ascending(s3.lists[l])
        && Elements(s4.lists[l]) == Mutated(pre + r.body.code, r.test) + Mutated(post, r.test)
        && Appended(s3.lists, s4.lists, s4.scopes[|s4.scopes| - 1], Increment(c.vars))
      ensures ListIs(s4.lists, l, RangeInside(s, Tables(s0.scopes), CountersOf(s0)),
          PartsOf(s, Tables(s0.scopes), CountersOf(s0)).test)
      ensures forall k :: 0 <= k < |s3.lists| && k != l ==> k < |s4.lists| && s4.lists[k] == s3.lists[k]
    {
      hide ToVar, ToValue, LowerBlock, Elements, Mutated, Accepted, Named, Ascending;
      ValidScopes(s0);
      var names, c := Tables(s0.scopes), CountersOf(s0);
      var r := PartsOf(s, names, c);
      PartsGrow(s, names, c);
      RangeAssembled(s, names, c, l);
      RangeBodyMutates(s, names, Top(s0).loopLabel, c);
      assert s4.lists[l] == s3.lists[l] + [c.vars];
      AscendingMore(s3.lists[l], names, c.vars);
    }

    lemma AscendingMore(list: seq<nat>, names: Names, n: nat)
      requires Ascending(list) && Below(names, n) && Elements(list) <= Named(names)
      ensures Ascending(list + [n])
    {
      hide Named;
      NamedIsNamed(names);
      forall k | 0 <= k < |list| ensures list[k] < n {
        assert list[k] in Elements(list);
        assert IsNamed(names, list[k]);
      }
    }

    // ----- Blocks and procedures -----

    /** The nodes of a block up to its end, and the index after it. The scope of the block is the innermost one. */
    method GenForProcSubSection(order: seq<Node>, start: nat, ghost stmts: seq<Stmt>) returns (i: nat, ok: bool)
      requires Valid(S()) && HoldsNodes(order, start, Flatten(stmts) + [BlockEnd])
      modifies this`opts, this`nextVarNum, this`lists, this`scopes, labelGen
      ensures ok == AcceptedBlock(stmts, Tables(old(scopes)), Top(old(S())).loopLabel, CountersOf(old(S())))
      ensures ok ==> Valid(S()) && i == start + |Flatten(stmts)| + 1
      ensures ok ==> var a := LowerBlock(stmts, Tables(old(scopes)), Top(old(S())).loopLabel, CountersOf(old(S())));
                     && Closes(old(S()), S(), a.code, a.next, a.names)
                     && ListsRight(stmts, Tables(old(scopes)), Top(old(S())).loopLabel, CountersOf(old(S())), lists)
      decreases stmts, 3
    {
      hide Emits, Valid, Closes, LowerBlock, LowerStmt, LowerIf, LowerLoop, LowerRange, LowerThen, AcceptedBlock,
          Accepted, AcceptedThen, Flatten, FlattenStmt,
        ListsRight, ListsRightIn, ThenRight, Elements, Mutated, Top, HoldsNodes, ElsePending, Tables;
      ghost var s0, names, c := S(), Tables(scopes), CountersOf(S());
      ValidScopes(s0);
      ghost var loop, k, pending, sk := Top(s0).loopLabel, 0, false, s0;
      EmitsNone();
      BeforeFirst(stmts, names, loop, c, lists);
      i := start;
      var sawIf := false;
      var selectList: nat := 0;
      NodeAt(order, start, stmts, 0);
      while i < |order|
        invariant Valid(S()) && k <= |stmts| && sk.scopes != [] && Valid(sk)
            && AcceptedBlock(stmts[..k], names, loop, c)
        invariant var a := LowerBlock(stmts[..k], names, loop, c);
          && Emits(s0, sk, a.code, a.next, a.names) && ListsRight(stmts[..k], names, loop, c, sk.lists)
        invariant !pending ==> sk == S() && i == start + |Flatten(stmts[..k])|
        invariant pending ==>
          && sawIf && k < |stmts| && stmts[k].IfElse? && i == start + |Flatten(stmts[..k])| + |[IfNode(stmts[k].cond)]
              + Flatten(stmts[k].thn) + [BlockEnd]|
          && ElsePending(sk, S(), stmts[k], Tables(sk.scopes), Top(sk).loopLabel, CountersOf(sk), selectList)
          && AcceptedThen(stmts[k], Tables(sk.scopes), Top(sk).loopLabel, CountersOf(sk))
        invariant i < |order|
      {
        ghost var a := LowerBlock(stmts[..k], names, loop, c);
        EmitsCounters(s0, sk, a.code, a.next, a.names);
        EmitsTop(s0, sk, a.code, a.next, a.names);
        ValidScopes(sk);
        NodeAt(order, start, stmts, k);
        var node := order[i];
        var sawIfLastIter := sawIf;
        sawIf := false;
        if pending {
          ElseAt(order, start + |Flatten(stmts[..k])|, stmts[k]);
        }
        match node {
          case BlockEnd =>
            EndBlock();
            BlockDone(s0, sk, S(), stmts, k, names, loop, c);
            i, ok := i + 1, true;
            return;
          case Simple(stmt) =>
            HeadOf(stmts[k]);
            SimpleIs(stmts[k], a.names, loop, a.next, lists);
            ok := GenSimple(stmt);
            i := i + 1;
          case IfNode(_) =>
            HeadOf(stmts[k]);
            IfAt(order, i, stmts[k]);
            CompoundIs(stmts[k], a.names, loop, a.next);
            i, selectList, ok := GenIfNode(order, i, stmts[k]);
            sawIf, pending := true, ok && stmts[k].IfElse?;
          case ElseNode =>
            CompoundIs(stmts[k], a.names, loop, a.next);
            i, ok := GenElseNode(order, i, selectList, stmts[k], sk);
            pending := false;
          case Loop(header) =>
            HeadOf(stmts[k]);
            CompoundIs(stmts[k], a.names, loop, a.next);
            if header.Over? {
              i, ok := GenRangeLoop(order, i, stmts[k]);
            } else {
              i, ok := GenPlainLoop(order, i, stmts[k]);
            }
        }
        if !ok {
          NotAccepted(stmts, k, names, loop, c);
          return;
        }
        if !pending {
          StepDone(s0, sk, S(), stmts, k, names, loop, c);
          k, sk := k + 1, S();
          ValidScopes(sk);
          NodeAt(order, start, stmts, k);
        }
      }
      assert false;
    }

    lemma BeforeFirst(stmts: seq<Stmt>, names: Names, loop: LoopId, c: Counters, lists: seq<seq<nat>>)
      ensures LowerBlock(stmts[..0], names, loop, c) == Lowered([], names, c)
          && AcceptedBlock(stmts[..0], names, loop, c)
      ensures ListsRight(stmts[..0], names, loop, c, lists) && Flatten(stmts[..0]) == []
    {
    }

    lemma HeadOf(s: Stmt)
      ensures FlattenStmt(s) != [] && FlattenStmt(s)[0] != ElseNode && FlattenStmt(s)[0] != BlockEnd
      ensures FlattenStmt(s)[0] == if HasNoBlock(s) then Simple(s) else if s.If? || s.IfElse? then IfNode(s.cond)
          else Loop(HeaderOf(s))
    {
      hide Flatten;
    }

    /** The nodes of the k-th statement, and what comes after them. */
    lemma NodeAt(order: seq<Node>, start: nat, stmts: seq<Stmt>, k: nat)
      requires HoldsNodes(order, start, Flatten(stmts) + [BlockEnd]) && k <= |stmts|
      ensures var i := start + |Flatten(stmts[..k])|;
        && i < |order| && (k == |stmts| ==> order[i] == BlockEnd && i == start + |Flatten(stmts)|)
        && (k < |stmts| ==>
              && HoldsNodes(order, i, FlattenStmt(stmts[k])) && order[i] == FlattenStmt(stmts[k])[0] != BlockEnd
                  && order[i] != ElseNode
              && i + |FlattenStmt(stmts[k])| < |order| && order[i + |FlattenStmt(stmts[k])|] != ElseNode)
    {
      hide Flatten, FlattenStmt, HoldsNodes;
      if k == |stmts| {
        assert stmts[..k] == stmts;
        NodesSplit(order, start, Flatten(stmts), [BlockEnd]);
        NodesHead(order, start + |Flatten(stmts)|, [BlockEnd]);
      } else {
        FlattenSnoc(stmts, k);
        HeadOf(stmts[k]);
        var a, b, rest := Flatten(stmts[..k]), FlattenStmt(stmts[k]), Flatten(stmts[k + 1..]) + [BlockEnd];
        assert Flatten(stmts) + [BlockEnd] == a + b + rest;
        NodesSplit(order, start, a + b, rest);
        NodesSplit(order, start, a, b);
        NodesHead(order, start + |a|, b);
        NodesHead(order, start + |a| + |b|, rest);
        RestHead(stmts, k + 1);
      }
    }

    lemma NodesHead(order: seq<Node>, i: nat, nodes: seq<Node>)
      requires HoldsNodes(order, i, nodes) && nodes != []
      ensures i < |order| && order[i] == nodes[0]
    {
      assert order[i] == order[i..i + |nodes|][0];
    }

    lemma RestHead(stmts: seq<Stmt>, k: nat)
      requires k <= |stmts|
      ensures (Flatten(stmts[k..]) + [BlockEnd])[0] != ElseNode
    {
      hide FlattenStmt;
      if k < |stmts| {
        HeadOf(stmts[k]);
      }
    }

    lemma IfAt(order: seq<Node>, i: nat, s: Stmt)
      requires (s.If? || s.IfElse?) && HoldsNodes(order, i, FlattenStmt(s))
      requires i + |FlattenStmt(s)| < |order| && order[i + |FlattenStmt(s)|] != ElseNode
      ensures var nodes := [IfNode(s.cond)] + Flatten(s.thn) + [BlockEnd];
        && HoldsNodes(order, i, nodes) && i + |nodes| < |order| && (order[i + |nodes|] == ElseNode <==> s.IfElse?)
      ensures s.If? ==> FlattenStmt(s) == [IfNode(s.cond)] + Flatten(s.thn) + [BlockEnd]
    {
      hide Flatten;
      if s.IfElse? {
        ElseAt(order, i, s);
      }
    }

    lemma ElseAt(order: seq<Node>, i: nat, s: Stmt)
      requires s.IfElse? && HoldsNodes(order, i, FlattenStmt(s))
      ensures var nodes := [IfNode(s.cond)] + Flatten(s.thn) + [BlockEnd];
        && HoldsNodes(order, i, nodes) && i + |nodes| < |order| && order[i + |nodes|] == ElseNode
        && HoldsNodes(order, i + |nodes|, [ElseNode] + Flatten(s.els) + [BlockEnd])
        && |FlattenStmt(s)| == |nodes| + |[ElseNode] + Flatten(s.els) + [BlockEnd]|
    {
      hide Flatten;
      var a, b := [IfNode(s.cond)] + Flatten(s.thn) + [BlockEnd], [ElseNode] + Flatten(s.els) + [BlockEnd];
      assert FlattenStmt(s) == a + b;
      NodesSplit(order, i, a, b);
      assert order[i + |a|] == order[i + |a|..i + |a| + |b|][0];
    }

    lemma SimpleIs(s: Stmt, names: Names, loop: LoopId, c: Counters, lists: seq<seq<nat>>)
      ensures HasNoBlock(s) ==> FlattenStmt(s) == [Simple(s)] && forall l :: ListsRightIn(s, names, loop, c, l)
    {
    }

    lemma CompoundIs(s: Stmt, names: Names, loop: LoopId, c: Counters)
      requires names != []
      ensures s.If? ==>
          LowerStmt(s, names, loop, c) == LowerIf(s, names, loop, c)
          && Accepted(s, names, loop, c) == AcceptedThen(s, names, loop, c)
      ensures s.IfElse? ==>
          LowerStmt(s, names, loop, c) == LowerIf(s, names, loop, c)
          && (Accepted(s, names, loop, c) ==> AcceptedThen(s, names, loop, c))
      ensures s.Forever? || s.While? ==> LowerStmt(s, names, loop, c) == LowerLoop(s, names, c)
      ensures s.ForRange? ==> LowerStmt(s, names, loop, c) == LowerRange(s, names, c)
      ensures s.Forever? || s.While? || s.ForRange? ==>
          FlattenStmt(s) == [Loop(HeaderOf(s))] + Flatten(s.body) + [BlockEnd]
      ensures s.If? || s.IfElse? ==> LowerIf(s, names, loop, c).names == names
      ensures s.Forever? || s.While? ==> LowerLoop(s, names, c).names == names
      ensures s.ForRange? ==> LowerRange(s, names, c).names == names
    {
      hide LowerBlock, AcceptedBlock, AcceptedThen, Flatten, Scoped, ToVar, ToValue, LowerThen;
    }

    lemma NotAccepted(stmts: seq<Stmt>, k: nat, names: Names, loop: LoopId, c: Counters)
      requires k < |stmts|
      requires var a := LowerBlock(stmts[..k], names, loop, c); !Accepted(stmts[k], a.names, loop, a.next)
      ensures !AcceptedBlock(stmts, names, loop, c)
    {
      hide Accepted, LowerStmt;
      LowerSnoc(stmts, k, names, loop, c);
      if AcceptedBlock(stmts, names, loop, c) {
        AcceptedPrefix(stmts, k + 1, names, loop, c);
      }
    }

    /** One statement more has been generated. */
    lemma StepDone(s0: State, s: State, s': State, stmts: seq<Stmt>, k: nat, names: Names, loop: LoopId, c: Counters)
      requires Valid(s0) && k < |stmts| && names == Tables(s0.scopes) && c == CountersOf(s0)
      requires AcceptedBlock(stmts[..k], names, loop, c)
      requires var a := LowerBlock(stmts[..k], names, loop, c); var b := LowerStmt(stmts[k], a.names, loop, a.next);
        && Emits(s0, s, a.code, a.next, a.names) && ListsRight(stmts[..k], names, loop, c, s.lists)
        && Emits(s, s', b.code, b.next, b.names) && ListsRightIn(stmts[k], a.names, loop, a.next, s'.lists)
        && Accepted(stmts[k], a.names, loop, a.next)
      ensures AcceptedBlock(stmts[..k + 1], names, loop, c) && ListsRight(stmts[..k + 1], names, loop, c, s'.lists)
      ensures var a := LowerBlock(stmts[..k + 1], names, loop, c); Emits(s0, s', a.code, a.next, a.names)
      ensures Flatten(stmts[..k + 1]) == Flatten(stmts[..k]) + FlattenStmt(stmts[k])
    {
      hide Emits, Valid, LowerBlock, LowerStmt, Accepted, AcceptedBlock, ListsRight, ListsRightIn, Flatten, FlattenStmt;
      ValidScopes(s0);
      var a := LowerBlock(stmts[..k], names, loop, c);
      var b := LowerStmt(stmts[k], a.names, loop, a.next);
      EmitsBoth(s0, s, s', a.code, b.code, a.next, a.names, b.next, b.names);
      EmitsCounters(s0, s, a.code, a.next, a.names);
      EmitsTop(s, s', b.code, b.next, b.names);
      EmitsKeepsAside(s0, s, s', a.code, a.next, a.names, b.code, b.next, b.names);
      AgreeIf(s.lists, s'.lists, c.lists, a.next.lists);
      ListsRightElsewhere(stmts[..k], names, loop, c, s.lists, s'.lists);
      LowerSnoc(stmts, k, names, loop, c);
      ListsSnoc(stmts, k, names, loop, c, s'.lists);
      FlattenSnoc(stmts, k);
    }

    lemma BlockDone(s0: State, s: State, s': State, stmts: seq<Stmt>, k: nat, names: Names, loop: LoopId, c: Counters)
      requires Valid(s0) && k == |stmts| && names == Tables(s0.scopes) && c == CountersOf(s0)
      requires AcceptedBlock(stmts[..k], names, loop, c)
      requires var a := LowerBlock(stmts[..k], names, loop, c);
        && Emits(s0, s, a.code, a.next, a.names) && ListsRight(stmts[..k], names, loop, c, s.lists)
        && Closes(s, s', [], a.next, a.names)
      ensures AcceptedBlock(stmts, names, loop, c) && ListsRight(stmts, names, loop, c, s'.lists)
      ensures var a := LowerBlock(stmts, names, loop, c); Closes(s0, s', a.code, a.next, a.names)
    {
      hide Emits, Valid, Closes, LowerBlock, AcceptedBlock, ListsRight;
      ValidScopes(s0);
      assert stmts[..k] == stmts;
      var a := LowerBlock(stmts, names, loop, c);
      EmitsCloses(s0, s, s', a.code, a.next, a.names);
      EmitsCounters(s0, s, a.code, a.next, a.names);
      ClosesTop(s, s', [], a.next, a.names);
      ClosesKeepsAside(s0, s, s', a.code, a.next, a.names, a.next, a.names);
      AgreeIf(s.lists, s'.lists, c.lists, a.next.lists);
      ListsRightElsewhere(stmts, names, loop, c, s.lists, s'.lists);
    }

    /** The instructions of a whole procedure. */
    method GenForProc(name: string, params: seq<string>, order: seq<Node>, ghost body: seq<Stmt>) returns (ok: bool)
      requires S() == State([], 0, labelGen.availableId, [], [Scope(map[], None, 0, None)])
      requires order == Flatten(body) + [BlockEnd]
      modifies this`opts, this`nextVarNum, this`lists, this`scopes, labelGen
      ensures var names, c := [P.ParamNames(params)], Counters(|params|, old(labelGen.availableId), 0);
        && ok == AcceptedBlock(body, names, None, c)
        && ok == A.Acceptable(body, {}, set p | p in params, false)
        && (ok ==>
            opts == P.ProcCode(name, params, body, old(labelGen.availableId))
            && ListsRight(body, names, None, c, lists))
    {
      hide Emits, Closes, Valid, LowerBlock, AcceptedBlock, ListsRight, Flatten, Tables, P.ParamNames;
      ghost var id := labelGen.availableId;
      NewParams(params);
      opts := opts + [StartProc(name)];
      ghost var s0 := S();
      StartIsValid(s0, P.ParamNames(params));
      assert order[..|order|] == order;
      var idxAfter;
      idxAfter, ok := GenForProcSubSection(order, 0, body);
      BodyAcceptedExactly(params, body, id);
      if ok {
        ghost var a := LowerBlock(body, [P.ParamNames(params)], None, Counters(|params|, id, 0));
        ClosesAppends(s0, S(), a.code, a.next, a.names);
        opts := opts + [EndProc];
      }
    }

    static lemma BodyAcceptedExactly(params: seq<string>, body: seq<Stmt>, id: nat)
      ensures AcceptedBlock(body, [P.ParamNames(params)], None, Counters(|params|, id, 0)) <==>
        A.Acceptable(body, {}, set p | p in params, false)
    {
      hide AcceptedBlock, A.Acceptable;
      var names := [P.ParamNames(params)];
      A.AcceptedExactly(body, names, None, Counters(|params|, id, 0));
      NamesOfParams(params);
      assert A.Around(names) == {};
    }

    static lemma {:induction false} NamesOfParams(params: seq<string>)
      ensures P.ParamNames(params).Keys == set p | p in params
    {
      if params != [] {
        NamesOfParams(params[..|params| - 1]);
        assert params == params[..|params| - 1] + [params[|params| - 1]];
      }
    }

    /** The parameters are the first variables. */
    method NewParams(params: seq<string>)
      requires S() == State([], 0, labelGen.availableId, [], [Scope(map[], None, 0, None)])
      modifies this`nextVarNum, this`scopes
      ensures S() == State([], |params|, labelGen.availableId, [], [Scope(P.ParamNames(params), None, 0, None)])
          && Valid(S())
    {
      for k := 0 to |params|
        invariant Valid(S()) && nextVarNum == k && scopes == [Scope(P.ParamNames(params[..k]), None, 0, None)]
      {
        assert params[..k + 1][..k] == params[..k];
        var vn := NewNamedVar(params[k]);
        assert Tables(scopes)[0] == P.ParamNames(params[..k])[params[k] := k];
      }
      assert params[..|params|] == params;
    }

    lemma StartIsValid(s: State, table: map<string, nat>)
      requires s.scopes == [Scope(table, None, 0, None)] && Valid(s.(opts := []))
      ensures Valid(s) && Tables(s.scopes) == [table] && Top(s).loopLabel == None
    {
    }

    lemma ClosesAppends(s: State, s': State, code: seq<Inst>, c: Counters, names: Names)
      requires Closes(s, s', code, c, names)
      ensures s'.opts == s.opts + code
    {
    }
  }
}
