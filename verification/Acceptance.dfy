/** Which bodies the front end refuses, read off their text. */
module Acceptance {
  import opened Ir
  import opened Options
  import opened Language
  import opened Lowering
  import opened StmtLowering

  // ----- The text -----

  /** The names that an expression mentions. */
  function NamesIn(e: Expr): set<string>
    decreases e, 1
  {
    match e
    case Name(x) => {x}
    case Literal(_) => {}
    case ProcCall(_, args) => NamesInAll(args)
    case LogicalNot(r) => NamesIn(r)
    case LogicalAnd(l, r) => NamesIn(l) + NamesIn(r)
    case LogicalOr(l, r) => NamesIn(l) + NamesIn(r)
    case Binary(_, l, r) => NamesIn(l) + NamesIn(r)
  }

  function NamesInAll(es: seq<Expr>): set<string>
    decreases es, 0
  {
    if es == [] then {} else NamesIn(es[0]) + NamesInAll(es[1..])
  }

  /** The statement gives its own scope this name: x := e or var x T. */
  predicate Brings(s: Stmt, x: string) {
    (s.Declare? || s.Declaration?) && s.name == x
  }

  function Brought(stmts: seq<Stmt>): set<string> {
    set k | 0 <= k < |stmts| && (stmts[k].Declare? || stmts[k].Declaration?) :: stmts[k].name
  }

  /** A block that is compiled. `around` are the names in sight from the scopes around, `own` those that the scope
      has before its first statement: parameters, or the counter of a range. No := repeats a name of its own scope; a
      name of a scope around may be declared again, and so may any name by a declaration without a value. Names are in
      sight where they are used, in the value of a := the name declared too. Jumps out of loops are in loops. */
  predicate Acceptable(stmts: seq<Stmt>, around: set<string>, own: set<string>, inLoop: bool)
    decreases stmts, 0
  {
    && (forall j :: 0 <= j < |stmts| && stmts[j].Declare? ==>
          stmts[j].name !in own && forall i :: 0 <= i < j ==> !Brings(stmts[i], stmts[j].name))
    && (forall j :: 0 <= j < |stmts| ==> AcceptableStmt(stmts[j], around + own + Brought(stmts[..j]), inLoop))
  }

  predicate AcceptableStmt(s: Stmt, sight: set<string>, inLoop: bool)
    decreases s, 1
  {
    match s
    case Declaration(_, _) => true
    case Declare(x, e) => NamesIn(e) <= sight + {x}
    case SetTo(x, e) => x in sight && NamesIn(e) <= sight
    case PlusEqual(x, e) => x in sight && NamesIn(e) <= sight
    case MinusEqual(x, e) => x in sight && NamesIn(e) <= sight
    // of other expressions nothing is compiled
    case Plain(e) => e.Name? || e.Literal? || e.ProcCall? ==> NamesIn(e) <= sight
    case If(cond, thn) => NamesIn(cond) <= sight && Acceptable(thn, sight, {}, inLoop)
    case IfElse(cond, thn, els) =>
      NamesIn(cond) <= sight && Acceptable(thn, sight, {}, inLoop) && Acceptable(els, sight, {}, inLoop)
    case Forever(body) => Acceptable(body, sight, {}, true)
    case While(cond, body) => NamesIn(cond) <= sight && Acceptable(body, sight, {}, true)
    case ForRange(counter, from, to, body) =>
      NamesIn(from) + NamesIn(to) <= sight && Acceptable(body, sight, if counter.Some? then {counter.value}
          else {}, true)
    case Break => inLoop
    case Continue => inLoop
    case ReturnStmt(values) => NamesInAll(values) <= sight
  }

  // ----- Names in sight -----

  function InSight(names: Names): set<string> {
    set i, x | 0 <= i < |names| && x in names[i] :: x
  }

  function Around(names: Names): set<string>
    requires names != []
  {
    InSight(names[..|names| - 1])
  }

  function Own(names: Names): set<string>
    requires names != []
  {
    names[|names| - 1].Keys
  }

  lemma SightParts(names: Names)
    requires names != []
    ensures InSight(names) == Around(names) + Own(names)
  {
    var last := |names| - 1;
    forall x | x in InSight(names) ensures x in Around(names) + Own(names) {
      var i :| 0 <= i < |names| && x in names[i];
      assert i < last ==> names[..last][i] == names[i];
    }
    forall x | x in Around(names) + Own(names) ensures x in InSight(names) {
      if x in Around(names) {
        var i :| 0 <= i < last && x in names[..last][i];
        assert x in names[i];
      }
    }
  }

  lemma {:induction false} ResolvesInSight(names: Names, x: string)
    ensures Resolves(names, x) <==> x in InSight(names)
  {
    if names != [] {
      SightParts(names);
      ResolvesInSight(names[..|names| - 1], x);
    }
  }

  lemma {:induction false} ScopedInSight(e: Expr, names: Names)
    ensures Scoped(e, names) <==> NamesIn(e) <= InSight(names)
    decreases e, 1
  {
    hide InSight;
    match e
    case Name(x) => ResolvesInSight(names, x);
    case Literal(_) =>
    case ProcCall(_, args) => ScopedAllInSight(args, names);
    case LogicalNot(r) => ScopedInSight(r, names);
    case LogicalAnd(l, r) => ScopedInSight(l, names); ScopedInSight(r, names);
    case LogicalOr(l, r) => ScopedInSight(l, names); ScopedInSight(r, names);
    case Binary(_, l, r) => ScopedInSight(l, names); ScopedInSight(r, names);
  }

  lemma {:induction false} ScopedAllInSight(es: seq<Expr>, names: Names)
    ensures ScopedAll(es, names) <==> NamesInAll(es) <= InSight(names)
    decreases es, 0
  {
    hide InSight;
    if es != [] {
      ScopedInSight(es[0], names);
      ScopedAllInSight(es[1..], names);
    }
  }

  lemma BoundInSight(names: Names, x: string, vn: nat)
    requires names != []
    ensures Around(Bind(names, x, vn)) == Around(names) && Own(Bind(names, x, vn)) == Own(names) + {x}
    ensures InSight(Bind(names, x, vn)) == InSight(names) + {x}
  {
    var names' := Bind(names, x, vn);
    assert names'[..|names'| - 1] == names[..|names| - 1];
    SightParts(names);
    SightParts(names');
  }

  lemma InnerInSight(names: Names, top: map<string, nat>)
    requires names != []
    ensures Around(names + [top]) == InSight(names) && Own(names + [top]) == top.Keys
    ensures InSight(names + [top]) == InSight(names) + top.Keys
  {
    var names' := names + [top];
    assert names'[..|names'| - 1] == names;
    SightParts(names');
  }

  // ----- One statement after another -----

  /** What a block needs of its first statement and of the others. */
  predicate HeadAndRest(stmts: seq<Stmt>, around: set<string>, own: set<string>, inLoop: bool)
    requires stmts != []
  {
    && (stmts[0].Declare? ==> stmts[0].name !in own) && AcceptableStmt(stmts[0], around + own, inLoop)
    && Acceptable(stmts[1..], around, own + Brought([stmts[0]]), inLoop)
  }

  lemma SightAt(stmts: seq<Stmt>, around: set<string>, own: set<string>, j: nat)
    requires stmts != [] && j < |stmts[1..]|
    ensures around + own + Brought([stmts[0]]) + Brought(stmts[1..][..j]) == around + own + Brought(stmts[..j + 1])
    ensures around + (own + Brought([stmts[0]])) + Brought(stmts[1..][..j]) == around + own + Brought(stmts[..j + 1])
  {
    assert stmts[..j + 1] == [stmts[0]] + stmts[1..][..j];
    BroughtConcat([stmts[0]], stmts[1..][..j]);
  }

  lemma AcceptableHasHead(stmts: seq<Stmt>, around: set<string>, own: set<string>, inLoop: bool)
    requires stmts != [] && Acceptable(stmts, around, own, inLoop)
    ensures HeadAndRest(stmts, around, own, inLoop)
  {
    hide AcceptableStmt, Brought;
    var rest, own' := stmts[1..], own + Brought([stmts[0]]);
    BroughtOne(stmts[0]);
    BroughtNothing();
    assert stmts[..0] == [] && around + own + {} == around + own;
    assert AcceptableStmt(stmts[0], around + own + Brought(stmts[..0]), inLoop);
    forall j | 0 <= j < |rest| ensures AcceptableStmt(rest[j], around + own' + Brought(rest[..j]), inLoop) {
      assert AcceptableStmt(stmts[j + 1], around + own + Brought(stmts[..j + 1]), inLoop);
      SightAt(stmts, around, own, j);
    }
    forall j | 0 <= j < |rest| && rest[j].Declare?
      ensures rest[j].name !in own' && forall i :: 0 <= i < j ==> !Brings(rest[i], rest[j].name)
    {
      assert stmts[j + 1] == rest[j] && !Brings(stmts[0], rest[j].name);
      assert forall i :: 0 <= i < j ==> stmts[i + 1] == rest[i];
    }
  }

  lemma HeadMakesAcceptable(stmts: seq<Stmt>, around: set<string>, own: set<string>, inLoop: bool)
    requires stmts != [] && HeadAndRest(stmts, around, own, inLoop)
    ensures Acceptable(stmts, around, own, inLoop)
  {
    hide AcceptableStmt, Brought;
    var rest, own' := stmts[1..], own + Brought([stmts[0]]);
    BroughtOne(stmts[0]);
    BroughtNothing();
    assert stmts[..0] == [] && around + own + {} == around + own;
    forall j | 0 <= j < |stmts| ensures AcceptableStmt(stmts[j], around + own + Brought(stmts[..j]), inLoop) {
      if j > 0 {
        assert AcceptableStmt(rest[j - 1], around + own' + Brought(rest[..j - 1]), inLoop);
        SightAt(stmts, around, own, j - 1);
      }
    }
    forall j, i | 0 <= i < j < |stmts| && stmts[j].Declare? ensures !Brings(stmts[i], stmts[j].name) {
      assert rest[j - 1] == stmts[j];
      if i > 0 {
        assert rest[i - 1] == stmts[i];
      }
    }
    assert forall j :: 0 < j < |stmts| ==> stmts[j] == rest[j - 1];
  }

  lemma BroughtNothing()
    ensures Brought([]) == {}
  {
  }

  lemma BroughtConcat(a: seq<Stmt>, b: seq<Stmt>)
    ensures Brought(a + b) == Brought(a) + Brought(b)
  {
    forall x | x in Brought(a) + Brought(b) ensures x in Brought(a + b) {
      if x in Brought(a) {
        var k :| 0 <= k < |a| && Brings(a[k], x);
        assert Brings((a + b)[k], x);
      } else {
        var k :| 0 <= k < |b| && Brings(b[k], x);
        assert Brings((a + b)[|a| + k], x);
      }
    }
    forall x | x in Brought(a + b) ensures x in Brought(a) + Brought(b) {
      var k :| 0 <= k < |a + b| && Brings((a + b)[k], x);
      assert k < |a| ==> (a + b)[k] == a[k];
      assert k >= |a| ==> (a + b)[k] == b[k - |a|];
    }
  }

  // ----- The generator accepts exactly the acceptable -----

  lemma {:induction false} AcceptedExactly(stmts: seq<Stmt>, names: Names, loop: LoopId, c: Counters)
    requires names != []
    ensures AcceptedBlock(stmts, names, loop, c) <==> Acceptable(stmts, Around(names), Own(names), loop.Some?)
    decreases stmts, 0
  {
    hide LowerStmt, Accepted, Acceptable, AcceptableStmt, InSight, Brought;
    if stmts == [] {
      NothingIsAcceptable(Around(names), Own(names), loop.Some?);
    } else {
      var a := LowerStmt(stmts[0], names, loop, c);
      StmtAcceptedExactly(stmts[0], names, loop, c);
      HeadDecides(stmts, Around(names), Own(names), loop.Some?);
      SightParts(names);
      NamesAfter(stmts[0], names, loop, c);
      AcceptedExactly(stmts[1..], a.names, loop, a.next);
    }
  }

  lemma HeadDecides(stmts: seq<Stmt>, around: set<string>, own: set<string>, inLoop: bool)
    requires stmts != []
    ensures Acceptable(stmts, around, own, inLoop) <==>
      && (stmts[0].Declare? ==> stmts[0].name !in own) && AcceptableStmt(stmts[0], around + own, inLoop)
      && Acceptable(stmts[1..], around, own + Brought([stmts[0]]), inLoop)
  {
    hide Acceptable, AcceptableStmt;
    if Acceptable(stmts, around, own, inLoop) {
      AcceptableHasHead(stmts, around, own, inLoop);
    }
    if HeadAndRest(stmts, around, own, inLoop) {
      HeadMakesAcceptable(stmts, around, own, inLoop);
    }
  }

  lemma NothingIsAcceptable(around: set<string>, own: set<string>, inLoop: bool)
    ensures Acceptable([], around, own, inLoop)
  {
  }

  lemma NamesAfter(s: Stmt, names: Names, loop: LoopId, c: Counters)
    requires names != []
    ensures var a := LowerStmt(s, names, loop, c);
      a.names != [] && Around(a.names) == Around(names) && Own(a.names) == Own(names) + Brought([s])
  {
    hide InSight, Bind;
    BroughtOne(s);
    if s.Declare? && Resolves(names, s.name) {
      BoundInSight(names, s.name, ToValue(s.e, names, c).next.vars);
    } else if s.Declare? || s.Declaration? {
      BoundInSight(names, s.name, c.vars);
    }
  }

  lemma BroughtOne(s: Stmt)
    ensures Brought([s]) == if s.Declare? || s.Declaration? then {s.name} else {}
  {
    assert [s][0] == s;
    assert s.Declare? || s.Declaration? ==> s.name in Brought([s]);
  }

  lemma DeclareExactly(x: string, e: Expr, names: Names, loop: LoopId, c: Counters)
    requires names != []
    ensures Accepted(Declare(x, e), names, loop, c) <==> x !in Own(names) && NamesIn(e) <= InSight(names) + {x}
  {
    hide InSight;
    ResolvesInSight(names, x);
    ScopedInSight(e, names);
    ScopedInSight(e, Bind(names, x, c.vars));
    BoundInSight(names, x, c.vars);
    SightParts(names);
  }

  lemma {:induction false} StmtAcceptedExactly(s: Stmt, names: Names, loop: LoopId, c: Counters)
    requires names != []
    ensures Accepted(s, names, loop, c) <==>
      (s.Declare? ==> s.name !in Own(names)) && AcceptableStmt(s, InSight(names), loop.Some?)
    decreases s, 1
  {
    hide InSight, Acceptable, AcceptedBlock, Scoped, NamesIn, LowerThen, ToVar, ToValue;
    match s
    case Declaration(_, _) =>
    case Declare(x, e) => DeclareExactly(x, e, names, loop, c);
    case SetTo(x, e) => ResolvesInSight(names, x); ScopedInSight(e, names);
    case PlusEqual(x, e) => ResolvesInSight(names, x); ScopedInSight(e, names);
    case MinusEqual(x, e) => ResolvesInSight(names, x); ScopedInSight(e, names);
    case Plain(e) => ScopedInSight(e, names);
    case If(_, _) => ThenAcceptedExactly(s, names, loop, c);
    case IfElse(_, _, els) =>
      ThenAcceptedExactly(s, names, loop, c);
      BlockAcceptedExactly(els, names, loop, NewLabel(NewList(LowerThen(s, names, loop, c).next)));
    case Forever(body) => BlockAcceptedExactly(body, names, Some(c.labels), NewLabel(NewList(c)));
    case While(cond, body) =>
      var c1 := NewLabel(NewList(c));
      InnerScoped(cond, names);
      BlockAcceptedExactly(body, names, Some(c.labels), ToVar(cond, names + [map[]], c1.vars, NewVar(c1)).next);
    case ForRange(counter, from, to, body) =>
      var hi := ToValue(to, names, NewVar(NewLabel(NewList(c))));
      var c1 := NewVar(ToVar(from, names, c.vars, hi.next).next);
      ScopedInSight(from, names);
      ScopedInSight(to, names);
      assert CounterNames(counter, c1.vars).Keys == if counter.Some? then {counter.value} else {};
      InnerAcceptedExactly(body, names, CounterNames(counter, c1.vars), Some(c.labels),
                           if counter.Some? then NewVar(c1) else c1);
    case Break =>
    case Continue =>
    case ReturnStmt(values) => ScopedAllInSight(values, names);
  }

  lemma InnerScoped(e: Expr, names: Names)
    requires names != []
    ensures Scoped(e, names + [map[]]) <==> NamesIn(e) <= InSight(names)
  {
    hide InSight;
    ScopedInSight(e, names + [map[]]);
    InnerInSight(names, map[]);
  }

  lemma {:induction false} ThenAcceptedExactly(s: Stmt, names: Names, loop: LoopId, c: Counters)
    requires names != [] && (s.If? || s.IfElse?)
    ensures AcceptedThen(s, names, loop, c) <==>
      NamesIn(s.cond) <= InSight(names) && Acceptable(s.thn, InSight(names), {}, loop.Some?)
    decreases s, 0
  {
    hide InSight, Acceptable, AcceptedBlock;
    InnerScoped(s.cond, names);
    BlockAcceptedExactly(s.thn, names, loop,
                         ToValue(s.cond, names + [map[]], NewLabel(NewList(NewList(c)))).next);
  }

  lemma {:induction false} InnerAcceptedExactly(body: seq<Stmt>, names: Names, top: map<string, nat>, loop: LoopId,
                                                c: Counters)
    requires names != []
    ensures AcceptedBlock(body, names + [top], loop, c) <==> Acceptable(body, InSight(names), top.Keys, loop.Some?)
    decreases body, 1
  {
    hide InSight, Acceptable, AcceptedBlock;
    InnerInSight(names, top);
    AcceptedExactly(body, names + [top], loop, c);
  }

  lemma {:induction false} BlockAcceptedExactly(body: seq<Stmt>, names: Names, loop: LoopId, c: Counters)
    requires names != []
    ensures AcceptedBlock(body, names + [map[]], loop, c) <==> Acceptable(body, InSight(names), {}, loop.Some?)
    decreases body, 2
  {
    hide InSight, Acceptable, AcceptedBlock;
    var top: map<string, nat> := map[];
    assert top.Keys == {};
    InnerAcceptedExactly(body, names, top, loop, c);
  }

  // ----- Redeclaration -----

  /** A := of a name that its scope has already, from a statement before or from the start, is refused. */
  lemma RepeatIsRefused(stmts: seq<Stmt>, names: Names, loop: LoopId, c: Counters, j: nat, x: string)
    requires names != [] && j < |stmts| && stmts[j].Declare? && stmts[j].name == x
    requires x in names[|names| - 1] || exists i :: 0 <= i < j && Brings(stmts[i], x)
    ensures !AcceptedBlock(stmts, names, loop, c)
  {
    hide AcceptedBlock, InSight, AcceptableStmt;
    AcceptedExactly(stmts, names, loop, c);
  }

  /** A := of a name of a scope around is not. */
  lemma ShadowingIsAccepted(x: string, e: Expr, names: Names, top: map<string, nat>, loop: LoopId, c: Counters)
    requires Resolves(names, x) && x !in top && Scoped(e, names + [top])
    ensures AcceptedBlock([Declare(x, e)], names + [top], loop, c)
  {
    hide Accepted, InSight, Scoped;
    ResolvesInSight(names, x);
    InnerInSight(names, top);
    ScopedInSight(e, names + [top]);
    DeclareExactly(x, e, names + [top], loop, c);
    assert [Declare(x, e)][1..] == [];
    assert AcceptedBlock([], LowerStmt(Declare(x, e), names + [top], loop, c).names, loop,
                         LowerStmt(Declare(x, e), names + [top], loop, c).next);
  }
}
