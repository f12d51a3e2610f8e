/** Whole procedures, and the analysis of last uses on them. */
module Procs {
  import opened Ir
  import opened Options
  import opened Language
  import opened Lowering
  import opened ExprLowering
  import opened StmtLowering
  import opened Simulation
  import opened LastUses
  import opened Placement

  /** The scope of the parameters: the i-th one is variable i. */
  function ParamNames(params: seq<string>): (names: map<string, nat>)
    ensures forall x :: x in names ==> names[x] < |params| && params[names[x]] == x
  {
    if params == [] then map[]
    else ParamNames(params[..|params| - 1])[params[|params| - 1] := |params| - 1]
  }

  /** Every parameter has its name, unless a later one has it too. */
  lemma {:induction false} ParamNamed(params: seq<string>, i: nat)
    requires i < |params| && params[i] !in params[i + 1..]
    ensures params[i] in ParamNames(params) && ParamNames(params)[params[i]] == i
  {
    var n := |params| - 1;
    if i < n {
      assert params[i + 1..][n - i - 1] == params[n];
      assert params[..n][i + 1..] == params[i + 1..][..n - i - 1];
      ParamNamed(params[..n], i);
    }
  }

  function ParamValues(params: seq<string>, args: seq<Value>): (env: map<string, Value>)
    requires |args| == |params|
    ensures env.Keys == ParamNames(params).Keys
    ensures forall x :: x in env ==> env[x] == args[ParamNames(params)[x]]
  {
    map x | x in ParamNames(params) :: args[ParamNames(params)[x]]
  }

  function ArgStore(args: seq<Value>): Store {
    map v: nat | 0 <= v < |args| :: args[v]
  }

  /** The instructions of a whole procedure; label numbers go on from other procedures'. */
  function ProcCode(name: string, params: seq<string>, body: seq<Stmt>, labels: nat): seq<Inst> {
    [StartProc(name)] + LowerBlock(body, [ParamNames(params)], None, Counters(|params|, labels, 0)).code + [EndProc]
  }

  lemma ParamsGood(params: seq<string>, args: seq<Value>)
    requires |args| == |params|
    ensures Good([ParamValues(params, args)], [ParamNames(params)], ArgStore(args), |params|)
  {
    var names := [ParamNames(params)];
    assert Distinct(names) by {
      forall i, x, j, y | 0 <= i < |names| && 0 <= j < |names| && x in names[i] && y in names[j]
          && names[i][x] == names[j][y]
        ensures i == j && x == y
      {
        assert params[names[i][x]] == x && params[names[j][y]] == y;
      }
    }
  }

  /** Compiled to instructions, a procedure makes the calls its body means, in order, and ends the way the body
      means: by falling off its end, by returning those values, or, as long as the body is still running when every loop
      has had `fuel` turns, not within `fuel` steps. */
  lemma ProcRuns(w: World, name: string, params: seq<string>, body: seq<Stmt>, labels: nat, args: seq<Value>, fuel: nat)
    returns (n: nat)
    requires |args| == |params|
    requires AcceptedBlock(body, [ParamNames(params)], None, Counters(|params|, labels, 0))
    ensures var program := ProcCode(name, params, body, labels);
            var k := Steps(w, program, Running(0, ArgStore(args), []), n);
            match ExecBlock(w, body, [ParamValues(params, args)], [], fuel)
            case Normal(_, trace) => k.Running? && k.pc == |program| - 1 && program[k.pc] == EndProc && k.trace == trace
            case Returned(values, trace) => k == Halted(values, trace)
            case OutOfFuel(trace) => k.Running? && n >= fuel && k.trace == trace
            case Meaningless => true
            case _ => false
  {
    hide UniqueLabels, At, Goes, Reaches, LowerBlock, Good;
    var names, env, c := [ParamNames(params)], [ParamValues(params, args)], Counters(|params|, labels, 0);
    var a := LowerBlock(body, names, None, c);
    var program := ProcCode(name, params, body, labels);
    ProcStructured(name, params, body, labels);
    ParamsGood(params, args);
    WholeAt(program);
    AtParts(program, 0, [StartProc(name)] + a.code, [EndProc]);
    AtParts(program, 0, [StartProc(name)], a.code);
    var store := ArgStore(args);
    var n1 := OneStep(w, program, 0, StartProc(name), store, [], store, []);
    var n2, k := BlockRuns(w, program, 1, body, names, None, c, env, [], store, fuel);
    ReachesOn(w, program, 0, store, [], n1, 1, store, [], n2, k);
    n := n1 + n2;
    ReachesMeans(w, program, 0, store, [], n, k);
  }

  lemma ReachesMeans(w: World, program: seq<Inst>, p: nat, store: Store, trace: seq<Event>, n: nat, k: Config)
    requires Reaches(w, program, p, store, trace, n, k)
    ensures Steps(w, program, Running(p, store, trace), n) == k
  {
  }

  lemma WholeAt(program: seq<Inst>)
    ensures At(program, 0, program)
  {
  }

  lemma ProcFits(name: string, params: seq<string>, body: seq<Stmt>, labels: nat) returns (hi: nat)
    requires AcceptedBlock(body, [ParamNames(params)], None, Counters(|params|, labels, 0))
    ensures Fits(ProcCode(name, params, body, labels), labels, hi, {})
  {
    hide Fits;
    var c := Counters(|params|, labels, 0);
    var a := LowerBlock(body, [ParamNames(params)], None, c);
    hi := a.next.labels;
    BlockFits(body, [ParamNames(params)], None, c, {});
    NoLabels([StartProc(name)], labels, {});
    NoLabels([EndProc], hi, {});
    FitsJoin([StartProc(name)], a.code, labels, labels, hi, {});
    FitsJoin([StartProc(name)] + a.code, [EndProc], labels, hi, hi, {});
  }

  /** What the analysis of last uses takes for granted holds of every procedure the front end emits. */
  lemma ProcStructured(name: string, params: seq<string>, body: seq<Stmt>, labels: nat)
    requires AcceptedBlock(body, [ParamNames(params)], None, Counters(|params|, labels, 0))
    ensures Structured(ProcCode(name, params, body, labels))
  {
    hide LowerBlock, AcceptedBlock;
    var hi := ProcFits(name, params, body, labels);
    FitsIsStructured(ProcCode(name, params, body, labels), labels, hi);
  }

  lemma FitsIsStructured(program: seq<Inst>, lo: nat, hi: nat)
    requires Fits(program, lo, hi, {}) && StartsProc(program)
    ensures Structured(program)
  {
    hide UniqueLabels, Nests;
    forall p: nat | p < |program| && IsJump(program[p])
      ensures Find(program, program[p].target).Some? && (p < Find(program, program[p].target).value
          || IsLongJump(program[p]))
    {
      assert Lands(program, p, {});
      var t :| Marks(program, t, program[p].target) && (p < t || IsLongJump(program[p]));
      FindsMark(program, t, program[p].target);
    }
    assert LoopsNest(program) by { LoopsNestToo(program); }
  }

  lemma FindsMark(program: seq<Inst>, t: int, l: Label)
    requires UniqueLabels(program) && Marks(program, t, l)
    ensures Find(program, l) == Some(t)
  {
    var at := Find(program, l);
    assert at.Some?;
    assert program[at.value].target == program[t].target;
  }

  lemma LoopsNestToo(program: seq<Inst>)
    requires Nests(program)
    ensures LoopsNest(program)
  {
    assert forall t: nat, j: nat :: GoesBack(program, t, j) ==> Back(program, t, j);
  }

  /** In any run of a compiled procedure, once control is past the last use found for a variable, what the variable
      holds makes no difference to anything that follows. */
  lemma LastUseHolds(w: World, name: string, params: seq<string>, body: seq<Stmt>, labels: nat,
                     v: nat, last: nat, c: Config, d: Config, n: nat)
    requires AcceptedBlock(body, [ParamNames(params)], None, Counters(|params|, labels, 0))
    requires IsLastUse(ProcCode(name, params, body, labels), v, last)
    requires c.Running? && last < c.pc && AlikeBut(v, c, d)
    ensures AlikeBut(v, Steps(w, ProcCode(name, params, body, labels), c, n),
        Steps(w, ProcCode(name, params, body, labels), d, n))
  {
    ProcStructured(name, params, body, labels);
    ValueNoLongerMatters(w, ProcCode(name, params, body, labels), v, last, c, d, n);
  }
}
