/** Where each variable is used for the last time, on every path through the code. */
module LastUses {
  import opened Ir
  import opened Options

  // ----- The analysis -----

  /** The index a label name maps to once all labels are entered into the map in order; absent names read as 0. */
  function LabelIndex(program: seq<Inst>, l: Label): (at: nat)
    ensures LabelAt(l) in program ==> at < |program| && program[at] == LabelAt(l)
    ensures LabelAt(l) !in program ==> at == 0
  {
    if program == [] then 0
    else if program[|program| - 1] == LabelAt(l) then |program| - 1
    else LabelIndex(program[..|program| - 1], l)
  }

  predicate IsLongJump(i: Inst) {
    i.Jump? || (i.JumpIf? && !i.short)
  }

  predicate Mentions(program: seq<Inst>, v: nat, i: int) {
    0 <= i < |program| && v in VarsOf(program[i])
  }

  /** A jump at i that can take control back over a mention of v. */
  ghost predicate LoopsOver(program: seq<Inst>, v: nat, i: int) {
    && 0 <= i < |program| && IsLongJump(program[i])
    && exists j :: LabelIndex(program, program[i].target) <= j < i && Mentions(program, v, j)
  }

  ghost predicate Needs(program: seq<Inst>, v: nat, i: int) {
    Mentions(program, v, i) || LoopsOver(program, v, i)
  }

  /** `last` is the last index that needs v, or 0 if none does. */
  ghost predicate IsLastUse(program: seq<Inst>, v: nat, last: nat) {
    && (last == 0 || Needs(program, v, last))
    && forall i :: last < i < |program| ==> !Needs(program, v, i)
  }

  predicate NeverAddressed(program: seq<Inst>, v: nat) {
    forall i :: 0 <= i < |program| && program[i].Pointer? && program[i].op == TakeAddress ==> program[i].read != v
  }

  /** Give every variable among `vars` that has no use recorded yet the use i. */
  method RecordUsage(lastUse: array<nat>, vars: seq<nat>, i: nat)
    requires forall v :: v in vars ==> v < lastUse.Length
    modifies lastUse
    ensures forall v :: 0 <= v < lastUse.Length ==>
      lastUse[v] == if v in vars && old(lastUse[v]) == 0 then i else old(lastUse[v])
  {
    for k := 0 to |vars|
      invariant forall v :: 0 <= v < lastUse.Length ==>
        lastUse[v] == if v in vars[..k] && old(lastUse[v]) == 0 then i else old(lastUse[v])
    {
      assert vars[k] in vars;
      if lastUse[vars[k]] == 0 {
        lastUse[vars[k]] := i;
      }
      assert vars[..k + 1] == vars[..k] + [vars[k]];
    }
    assert vars[..|vars|] == vars;
  }

  /** Raise the last use of every variable among `vars` to at least i. */
  method RaiseUsage(lastUse: array<nat>, vars: seq<nat>, i: nat)
    requires forall v :: v in vars ==> v < lastUse.Length
    modifies lastUse
    ensures forall v :: 0 <= v < lastUse.Length ==>
      lastUse[v] == if v in vars && old(lastUse[v]) < i then i else old(lastUse[v])
  {
    for k := 0 to |vars|
      invariant forall v :: 0 <= v < lastUse.Length ==>
        lastUse[v] == if v in vars[..k] && old(lastUse[v]) < i then i else old(lastUse[v])
    {
      assert vars[k] in vars;
      if lastUse[vars[k]] < i {
        lastUse[vars[k]] := i;
      }
      assert vars[..k + 1] == vars[..k] + [vars[k]];
    }
    assert vars[..|vars|] == vars;
  }

  method MapLabels(program: seq<Inst>) returns (labelToIdx: map<Label, nat>)
    ensures forall l :: (if l in labelToIdx then labelToIdx[l] else 0) == LabelIndex(program, l)
    ensures forall l :: l in labelToIdx ==> labelToIdx[l] < |program|
  {
    labelToIdx := map[];
    for i := 0 to |program|
      invariant forall l :: (if l in labelToIdx then labelToIdx[l] else 0) == LabelIndex(program[..i], l)
      invariant forall l :: l in labelToIdx ==> labelToIdx[l] < i
    {
      assert program[..i + 1][..i] == program[..i];
      if program[i].LabelAt? {
        labelToIdx := labelToIdx[program[i].target := i];
      }
    }
    assert program[..|program|] == program;
  }

  /** What the first pass has established once it is down to index i: the last mention from i on. */
  ghost predicate LastMention(program: seq<Inst>, v: nat, from: nat, last: nat) {
    && (last == 0 || (last >= from && Mentions(program, v, last)))
    && forall k :: from <= k < |program| && last < k ==> !Mentions(program, v, k)
  }

  method RecordMentions(program: seq<Inst>, n: nat) returns (lastUse: array<nat>)
    requires forall i, v :: 0 <= i < |program| && v in VarsOf(program[i]) ==> v < n
    ensures fresh(lastUse) && lastUse.Length == n
    ensures forall v :: 0 <= v < n ==> LastMention(program, v, 0, lastUse[v])
  {
    lastUse := new nat[n](_ => 0);
    var i := |program|;
    while i > 0
      invariant 0 <= i <= |program|
      invariant forall v :: 0 <= v < n ==> LastMention(program, v, i, lastUse[v])
    {
      i := i - 1;
      RecordUsage(lastUse, VarsOf(program[i]), i);
    }
  }

  /** What the second pass has established once it is down to index i: jumps from i on are accounted for. */
  ghost predicate LastFrom(program: seq<Inst>, v: nat, from: nat, last: nat) {
    && (last == 0 || Needs(program, v, last))
    && (forall k :: 0 <= k < |program| && last < k ==> !Mentions(program, v, k))
    && (forall k :: from <= k < |program| && last < k ==> !LoopsOver(program, v, k))
  }

  method AdjustForJump(program: seq<Inst>, i: nat, labelToIdx: map<Label, nat>, lastUse: array<nat>)
    requires i < |program| && IsLongJump(program[i])
    requires forall k, v :: 0 <= k < |program| && v in VarsOf(program[k]) ==> v < lastUse.Length
    requires forall l :: (if l in labelToIdx then labelToIdx[l] else 0) == LabelIndex(program, l)
    requires forall v :: 0 <= v < lastUse.Length ==> LastFrom(program, v, i + 1, lastUse[v])
    modifies lastUse
    ensures forall v :: 0 <= v < lastUse.Length ==> LastFrom(program, v, i, lastUse[v])
  {
    hide LabelIndex, Needs, LastFrom, VarsOf;
    var l := program[i].target;
    var start := if l in labelToIdx then labelToIdx[l] else 0;
    assert start == LabelIndex(program, l);
    var j := start;
    while j < i
      invariant start <= j
      invariant forall v :: 0 <= v < lastUse.Length ==> LastFrom(program, v, i + 1, lastUse[v])
      invariant forall v, k :: 0 <= v < lastUse.Length && start <= k < j && k < i && Mentions(program, v, k) ==>
          lastUse[v] >= i
    {
      ghost var before := lastUse[..];
      RaiseUsage(lastUse, VarsOf(program[j]), i);
      forall v | 0 <= v < lastUse.Length ensures LastFrom(program, v, i + 1, lastUse[v]) {
        if v in VarsOf(program[j]) && before[v] < i {
          RaisedForJump(program, v, i, j, before[v]);
        }
      }
      j := j + 1;
    }
    forall v | 0 <= v < lastUse.Length ensures LastFrom(program, v, i, lastUse[v]) {
      JumpAccountedFor(program, v, i, lastUse[v]);
    }
  }

  lemma RaisedForJump(program: seq<Inst>, v: nat, i: nat, j: nat, last: nat)
    requires i < |program| && IsLongJump(program[i]) && LabelIndex(program, program[i].target) <= j < i
    requires Mentions(program, v, j) && LastFrom(program, v, i + 1, last) && last < i
    ensures LastFrom(program, v, i + 1, i)
  {
    hide LabelIndex, Mentions;
    assert LoopsOver(program, v, i);
  }

  lemma JumpAccountedFor(program: seq<Inst>, v: nat, i: nat, last: nat)
    requires i < |program| && IsLongJump(program[i]) && LastFrom(program, v, i + 1, last)
    requires forall k :: LabelIndex(program, program[i].target) <= k < i && Mentions(program, v, k) ==> last >= i
    ensures LastFrom(program, v, i, last)
  {
    hide LabelIndex, Mentions;
  }

  method AdjustForJumps(program: seq<Inst>, lastUse: array<nat>)
    requires forall i, v :: 0 <= i < |program| && v in VarsOf(program[i]) ==> v < lastUse.Length
    requires forall v :: 0 <= v < lastUse.Length ==> LastMention(program, v, 0, lastUse[v])
    modifies lastUse
    ensures forall v :: 0 <= v < lastUse.Length ==> IsLastUse(program, v, lastUse[v])
  {
    hide LabelIndex, Mentions, LoopsOver;
    var labelToIdx := MapLabels(program);
    var i := |program|;
    while i > 0
      invariant 0 <= i <= |program|
      invariant forall v :: 0 <= v < lastUse.Length ==> LastFrom(program, v, i, lastUse[v])
    {
      i := i - 1;
      if IsLongJump(program[i]) {
        AdjustForJump(program, i, labelToIdx, lastUse);
      } else {
        NotOver(program, i);
      }
    }
  }

  lemma NotOver(program: seq<Inst>, i: nat)
    requires i < |program| && !IsLongJump(program[i])
    ensures forall v :: !LoopsOver(program, v, i)
  {
  }

  /** Whenever an address is taken, the variable takes over what has been found for the pointer. */
  function Redirected(program: seq<Inst>, k: nat, uses: seq<nat>): (r: seq<nat>)
    requires k <= |program| && forall i, v :: 0 <= i < k && v in VarsOf(program[i]) ==> v < |uses|
    ensures |r| == |uses|
  {
    if k == 0 then uses
    else
      var before, i := Redirected(program, k - 1, uses), program[k - 1];
      if i.Pointer? && i.op == TakeAddress then
        assert i.read in VarsOf(i) && i.out in VarsOf(i);
        before[i.read := before[i.out]]
      else before
  }

  /** So a variable whose address is never taken keeps what has been found. */
  lemma {:induction false} NotRedirected(program: seq<Inst>, k: nat, uses: seq<nat>, v: nat)
    requires k <= |program| && forall i, v :: 0 <= i < k && v in VarsOf(program[i]) ==> v < |uses|
    requires v < |uses| && forall i :: 0 <= i < k && program[i].Pointer? && program[i].op == TakeAddress ==>
        program[i].read != v
    ensures Redirected(program, k, uses)[v] == uses[v]
  {
    if k > 0 {
      NotRedirected(program, k - 1, uses, v);
    }
  }

  /** Its address is taken at i, into the pointer there, and not again before k. */
  predicate LastTaken(program: seq<Inst>, k: nat, v: nat, i: nat)
    requires k <= |program|
  {
    && i < k && program[i].Pointer? && program[i].op == TakeAddress && program[i].read == v
    && forall j :: i < j < k && program[j].Pointer? && program[j].op == TakeAddress ==> program[j].read != v
  }

  /** And any other variable has what its pointer has when its address is taken for the last time. */
  lemma {:induction false} TakenOver(program: seq<Inst>, k: nat, uses: seq<nat>, v: nat, i: nat)
    requires k <= |program| && forall i, v :: 0 <= i < k && v in VarsOf(program[i]) ==> v < |uses|
    requires v < |uses| && LastTaken(program, k, v, i)
    ensures program[i].out in VarsOf(program[i])
    ensures Redirected(program, k, uses)[v] == Redirected(program, i, uses)[program[i].out]
  {
    assert program[i].out in VarsOf(program[i]);
    if i < k - 1 {
      TakenOver(program, k - 1, uses, v, i);
    }
  }

  /** The step for variables that can be reached through a pointer. */
  method AdjustForAddresses(program: seq<Inst>, lastUse: array<nat>)
    requires forall i, v :: 0 <= i < |program| && v in VarsOf(program[i]) ==> v < lastUse.Length
    modifies lastUse
    ensures lastUse[..] == Redirected(program, |program|, old(lastUse[..]))
  {
    for k := 0 to |program|
      invariant lastUse[..] == Redirected(program, k, old(lastUse[..]))
    {
      var opt := program[k];
      if opt.Pointer? && opt.op == TakeAddress {
        assert opt.read in VarsOf(opt) && opt.out in VarsOf(opt);
        lastUse[opt.read] := lastUse[opt.out];
      }
    }
  }

  /** The last use of every variable whose address is never taken. */
  method FindLastUsage(program: seq<Inst>, n: nat) returns (lastUse: array<nat>)
    requires forall i, v :: 0 <= i < |program| && v in VarsOf(program[i]) ==> v < n
    ensures fresh(lastUse) && lastUse.Length == n
    // except for variables whose address is taken, which take over what is found for the pointer
    ensures exists found: seq<nat> :: |found| == n && (forall v :: 0 <= v < n ==> IsLastUse(program, v, found[v])) &&
              lastUse[..] == Redirected(program, |program|, found)
    ensures forall v :: 0 <= v < n && NeverAddressed(program, v) ==> IsLastUse(program, v, lastUse[v])
    // which is the last use of the pointer that its address was put into last
    ensures forall v: nat, i: nat | v < n && LastTaken(program, |program|, v, i) ::
        NeverAddressed(program, program[i].out) ==> IsLastUse(program, program[i].out, lastUse[v])
  {
    lastUse := RecordMentions(program, n);
    AdjustForJumps(program, lastUse);
    ghost var found := lastUse[..];
    assert forall v :: 0 <= v < n ==> IsLastUse(program, v, found[v]);
    AdjustForAddresses(program, lastUse);
    forall v | 0 <= v < n && NeverAddressed(program, v) ensures IsLastUse(program, v, lastUse[v]) {
      NotRedirected(program, |program|, found, v);
      assert lastUse[..][v] == found[v];
    }
    forall v: nat, i: nat | v < n && LastTaken(program, |program|, v, i) && NeverAddressed(program, program[i].out)
      ensures IsLastUse(program, program[i].out, lastUse[v])
    {
      TakenOver(program, |program|, found, v, i);
      NotRedirected(program, i, found, program[i].out);
      assert lastUse[..][v] == found[program[i].out];
    }
  }

  // ----- Paths -----

  /** Control can go from p to q. */
  predicate Flows(program: seq<Inst>, p: nat, q: nat) {
    p < |program| &&
    match program[p]
    case Return(_) => false
    case Jump(target) => Find(program, target) == Some(q)
    case JumpIf(_, _, _, target) => q == p + 1 || Find(program, target) == Some(q)
    case _ => q == p + 1
  }

  ghost predicate IsPath(program: seq<Inst>, path: seq<nat>) {
    forall k :: 0 <= k < |path| - 1 ==> Flows(program, path[k], path[k + 1])
  }

  /** The long jump at j goes back to t. */
  predicate GoesBack(program: seq<Inst>, t: nat, j: nat) {
    t <= j < |program| && IsLongJump(program[j]) && Find(program, program[j].target) == Some(t)
  }

  /** No loop begins inside another one and ends outside it. */
  ghost predicate LoopsNest(program: seq<Inst>) {
    forall t, j, t', j' :: GoesBack(program, t, j) && GoesBack(program, t', j') && t < t' <= j ==> j' <= j
  }

  ghost predicate ShortJumpsGoForward(program: seq<Inst>) {
    forall p, q ::
        0 <= p < |program| && program[p].JumpIf? && program[p].short && Find(program, program[p].target) == Some(q) ==>
        p < q
  }

  /** Instruction 0 mentions no variable, which is what makes 0 stand for "never used". */
  predicate StartsProc(program: seq<Inst>) {
    program != [] && program[0].StartProc?
  }

  ghost predicate LabelsExist(program: seq<Inst>) {
    forall p :: 0 <= p < |program| && IsLongJump(program[p]) ==> Find(program, program[p].target).Some?
  }

  ghost predicate Structured(program: seq<Inst>) {
    StartsProc(program) && UniqueLabels(program) && LabelsExist(program) && LoopsNest(program)
        && ShortJumpsGoForward(program)
  }

  lemma {:induction false} IndexIsFind(program: seq<Inst>, l: Label)
    requires UniqueLabels(program) && Find(program, l).Some?
    ensures LabelIndex(program, l) == Find(program, l).value
  {
    var at := Find(program, l).value;
    assert program[at] == LabelAt(l);
  }

  /** A jump back over the last use of v is not after it: either it raised the last use itself, or a loop that raised it
      surrounds the jump. */
  lemma {:induction false} JumpBackOver(program: seq<Inst>, v: nat, last: nat, p: nat, q: nat)
    requires StartsProc(program) && UniqueLabels(program) && LabelsExist(program) && LoopsNest(program)
    requires IsLastUse(program, v, last)
    requires GoesBack(program, q, p) && q <= last
    ensures p <= last
  {
    hide UniqueLabels, VarsOf, LabelIndex, Find;
    IndexIsFind(program, program[p].target);
    if !Needs(program, v, p) {
      assert forall j :: q <= j < p ==> !Mentions(program, v, j);
      if !Mentions(program, v, last) {
        assert LoopsOver(program, v, last);
        IndexIsFind(program, program[last].target);
        var t := Find(program, program[last].target).value;
        var j :| t <= j < last && Mentions(program, v, j);
        if j < q {
          assert GoesBack(program, t, last);
        }
      }
    }
  }

  /** Once past the last use, control stays past it, whatever way it goes. */
  lemma {:induction false} StaysPast(program: seq<Inst>, v: nat, last: nat, p: nat, q: nat)
    requires Structured(program) && IsLastUse(program, v, last)
    requires last < p && Flows(program, p, q)
    ensures last < q
  {
    hide UniqueLabels, LabelsExist, LoopsNest, IsLastUse;
    if q <= last {
      JumpBackOver(program, v, last, p, q);
    }
  }

  /** No path that starts after the last use of a variable ever comes to an instruction that mentions it. */
  lemma {:induction false} NeverMentionedAgain(program: seq<Inst>, v: nat, last: nat, path: seq<nat>, k: nat)
    requires Structured(program) && IsLastUse(program, v, last)
    requires IsPath(program, path) && k < |path| && last < path[0]
    ensures last < path[k] && !Mentions(program, v, path[k])
    decreases k
  {
    if k > 0 {
      NeverMentionedAgain(program, v, last, path, k - 1);
      StaysPast(program, v, last, path[k - 1], path[k]);
    }
    if path[k] < |program| {
      assert !Needs(program, v, path[k]);
    }
  }

  // ----- Runs -----

  /** The same but for what v holds. */
  ghost predicate SameBut(v: nat, s: Store, t: Store) {
    forall u: nat :: u != v ==> (u in s <==> u in t) && (u in s ==> s[u] == t[u])
  }

  ghost predicate AlikeBut(v: nat, c: Config, d: Config) {
    match c
    case Running(pc, store, trace) => d.Running? && d.pc == pc && d.trace == trace && SameBut(v, store, d.store)
    case _ => c == d
  }

  lemma {:induction false} ReadAllSame(v: nat, s: Store, t: Store, vars: seq<nat>)
    requires SameBut(v, s, t) && v !in vars
    ensures ReadAll(s, vars) == ReadAll(t, vars)
  {
    if vars != [] {
      ReadAllSame(v, s, t, vars[1..]);
    }
  }

  lemma StepAlike(w: World, program: seq<Inst>, v: nat, c: Config, d: Config)
    requires AlikeBut(v, c, d) && (c.Running? ==> !Mentions(program, v, c.pc))
    ensures AlikeBut(v, Step(w, program, c), Step(w, program, d))
    ensures Step(w, program, c).Running? ==> Flows(program, c.pc, Step(w, program, c).pc)
  {
    if c.Running? && c.pc < |program| {
      var i := program[c.pc];
      assert v !in VarsOf(i);
      if i.Return? {
        ReadAllSame(v, c.store, d.store, i.values);
      } else if i.Call? {
        ReadAllSame(v, c.store, d.store, i.args);
      }
    }
  }

  /** Past its last use, what a variable holds makes no difference to anything: not to where control goes, not to the
      calls made, not to the values returned, not to any other variable. */
  lemma {:induction false} ValueNoLongerMatters(w: World, program: seq<Inst>, v: nat, last: nat, c: Config, d: Config,
                                                n: nat)
    requires Structured(program) && IsLastUse(program, v, last)
    requires AlikeBut(v, c, d) && (c.Running? ==> last < c.pc)
    ensures AlikeBut(v, Steps(w, program, c, n), Steps(w, program, d, n))
    decreases n
  {
    if n > 0 {
      if c.Running? && c.pc < |program| {
        assert !Needs(program, v, c.pc);
      }
      StepAlike(w, program, v, c, d);
      if Step(w, program, c).Running? {
        StaysPast(program, v, last, c.pc, Step(w, program, c).pc);
      }
      ValueNoLongerMatters(w, program, v, last, Step(w, program, c), Step(w, program, d), n - 1);
    }
  }
}
