/** Lists of the variables that a piece of code changes: sorted in place, without duplicates, and enough to know what
    stays the same. */
module Mutations {
  import opened Ir
  import opened Options

  function Elements(list: seq<nat>): set<nat> {
    set v | v in list
  }

  predicate Ascending(list: seq<nat>) {
    forall i, j :: 0 <= i < j < |list| ==> list[i] < list[j]
  }

  predicate Sorted(list: seq<nat>) {
    forall i, j :: 0 <= i < j < |list| ==> list[i] <= list[j]
  }

  /** The variables numbered below `first` that some instruction of the code mutates directly. */
  function Mutated(code: seq<Inst>, first: nat): set<nat> {
    set i | 0 <= i < |code| && MutationVar(code[i]).Some? && MutationVar(code[i]).value < first ::
        MutationVar(code[i]).value
  }

  lemma MutatedConcat(a: seq<Inst>, b: seq<Inst>, first: nat)
    ensures Mutated(a + b, first) == Mutated(a, first) + Mutated(b, first)
  {
    forall v | v in Mutated(a, first) + Mutated(b, first) ensures v in Mutated(a + b, first) {
      if v in Mutated(a, first) {
        var i :| 0 <= i < |a| && MutationVar(a[i]) == Some(v);
        assert (a + b)[i] == a[i];
      } else {
        var i :| 0 <= i < |b| && MutationVar(b[i]) == Some(v);
        assert (a + b)[|a| + i] == b[i];
      }
    }
  }

  lemma MutatedBelow(code: seq<Inst>, first: nat, less: nat)
    requires less <= first
    ensures Mutated(code, less) == set v | v in Mutated(code, first) && v < less
  {
  }

  lemma MutatedOne(i: Inst, first: nat)
    ensures Mutated([i], first) == match MutationVar(i) { case None => {} case Some(v) => if v < first then {v}
        else {} }
  {
    assert [i][0] == i;
  }

  // ----- Sorting and removing duplicates -----

  function Insert(sorted: seq<nat>, v: nat): (r: seq<nat>)
    requires Sorted(sorted)
    ensures Sorted(r) && Elements(r) == Elements(sorted) + {v}
  {
    if sorted == [] || v <= sorted[0] then [v] + sorted
    else
      var rest := Insert(sorted[1..], v);
      InsertedAfter(sorted, v, rest);
      [sorted[0]] + rest
  }

  lemma ElementsCons(x: nat, rest: seq<nat>)
    ensures Elements([x] + rest) == {x} + Elements(rest)
  {
  }

  lemma InsertedAfter(sorted: seq<nat>, v: nat, rest: seq<nat>)
    requires sorted != [] && Sorted(sorted) && sorted[0] <= v
    requires Sorted(rest) && Elements(rest) == Elements(sorted[1..]) + {v}
    ensures Sorted([sorted[0]] + rest) && Elements([sorted[0]] + rest) == Elements(sorted) + {v}
  {
    var r := [sorted[0]] + rest;
    assert sorted == [sorted[0]] + sorted[1..];
    forall j | 0 <= j < |rest| ensures sorted[0] <= rest[j] {
      assert rest[j] in Elements(rest);
    }
    assert Elements(r) == {sorted[0]} + Elements(rest) by { ElementsCons(sorted[0], rest); }
    assert Elements(sorted) == {sorted[0]} + Elements(sorted[1..]) by { ElementsCons(sorted[0], sorted[1..]); }
  }

  method SortInts(list: seq<nat>) returns (a: array<nat>)
    ensures fresh(a) && Sorted(a[..]) && Elements(a[..]) == Elements(list)
  {
    var s: seq<nat> := [];
    for k := 0 to |list|
      invariant Sorted(s) && Elements(s) == Elements(list[..k])
    {
      assert list[..k + 1] == list[..k] + [list[k]];
      s := Insert(s, list[k]);
    }
    assert list[..|list|] == list;
    a := new nat[|s|](i requires 0 <= i < |s| => s[i]);
    assert a[..] == s;
  }

  /** Move the first of every run of equal elements to the front; the result is how many there are. */
  method DedupSorted(slice: array<nat>) returns (n: nat)
    requires Sorted(slice[..])
    modifies slice
    ensures n <= slice.Length && Ascending(slice[..n]) && Elements(slice[..n]) == Elements(old(slice[..]))
  {
    hide Kept;
    var pushDist := 0;
    if slice.Length == 0 {
      return 0;
    }
    var i := 1;
    KeptAtFirst(slice[..]);
    while i < slice.Length
      invariant 1 <= i <= slice.Length && 0 <= pushDist < i
      invariant Kept(old(slice[..]), slice[..], i, i - pushDist)
    {
      ghost var now, n := slice[..], i - pushDist;
      KeptStep(old(slice[..]), now, i, n);
      if slice[i] == slice[i - 1] {
        pushDist := pushDist + 1;
      } else if pushDist > 0 {
        slice[i - pushDist] := slice[i];
        assert slice[..] == now[n := now[i]];
      } else {
        assert slice[..] == now[n := now[i]];
      }
      i := i + 1;
    }
    KeptAtLast(old(slice[..]), slice[..], slice.Length - pushDist);
    return slice.Length - pushDist;
  }

  /** After looking at the first i elements, n of them have been kept. */
  ghost predicate Kept(was: seq<nat>, now: seq<nat>, i: nat, n: nat) {
    && |now| == |was| && 1 <= n <= i <= |was|
    && Ascending(now[..n]) && Elements(now[..n]) == Elements(was[..i])
    && now[n - 1] == was[i - 1]
    && (n == i || now[i - 1] == was[i - 1])
    && forall j :: i <= j < |was| ==> now[j] == was[j]
  }

  lemma KeptAtFirst(was: seq<nat>)
    requires was != []
    ensures Kept(was, was, 1, 1)
  {
  }

  lemma KeptAtLast(was: seq<nat>, now: seq<nat>, n: nat)
    requires Kept(was, now, |was|, n)
    ensures n <= |now| && Ascending(now[..n]) && Elements(now[..n]) == Elements(was)
  {
    assert was[..|was|] == was;
  }

  lemma KeptStep(was: seq<nat>, now: seq<nat>, i: nat, n: nat)
    requires Sorted(was) && Kept(was, now, i, n) && i < |was|
    ensures now[i - 1] == was[i - 1] && now[i] == was[i]
    ensures was[i] == was[i - 1] ==> Kept(was, now, i + 1, n)
    ensures was[i] != was[i - 1] ==> Kept(was, now[n := now[i]], i + 1, n + 1)
  {
    assert was[..i + 1] == was[..i] + [was[i]];
    if was[i] != was[i - 1] {
      var next := now[n := now[i]];
      assert next[..n + 1] == now[..n] + [now[i]];
      assert Elements(next[..n + 1]) == Elements(now[..n]) + {now[i]};
      forall j | 0 <= j < n ensures now[j] < now[i] {
        assert now[..n][j] <= now[..n][n - 1];
      }
      assert Ascending(next[..n + 1]);
    }
  }

  /** Sort and remove duplicates. */
  method SortAndDedup(list: seq<nat>) returns (r: seq<nat>)
    ensures Ascending(r) && Elements(r) == Elements(list)
  {
    var a := SortInts(list);
    var n := DedupSorted(a);
    r := a[..n];
  }

  // ----- What a list is good for -----

  lemma StepChangesMutated(w: World, program: seq<Inst>, c: Config, v: nat)
    requires c.Running? && c.pc < |program| && Step(w, program, c).Running? && MutationVar(program[c.pc]) != Some(v)
    ensures v in c.store <==> v in Step(w, program, c).store
    ensures v in c.store ==> Step(w, program, c).store[v] == c.store[v]
  {
  }

  /** The run stays in the code between two positions for n steps. */
  ghost predicate StaysIn(w: World, program: seq<Inst>, c: Config, from: nat, to: nat, n: nat)
    decreases n
  {
    n == 0 || (c.Running? && from <= c.pc < to && StaysIn(w, program, Step(w, program, c), from, to, n - 1))
  }

  /** A variable older than the code and missing from its list keeps its value as long as control stays in the code. */
  lemma {:induction false} UnlistedKeepsItsValue(w: World, program: seq<Inst>, from: nat, to: nat, first: nat,
                                                 list: seq<nat>,
                                                c: Config, n: nat, v: nat)
    requires from <= to <= |program| && Elements(list) == Mutated(program[from..to], first)
    requires v < first && v !in list && c.Running?
    requires StaysIn(w, program, c, from, to, n) && Steps(w, program, c, n).Running?
    ensures v in c.store <==> v in Steps(w, program, c, n).store
    ensures v in c.store ==> Steps(w, program, c, n).store[v] == c.store[v]
    decreases n
  {
    if n > 0 {
      assert program[from..to][c.pc - from] == program[c.pc];
      assert v !in Elements(list);
      OnlyFromRunning(w, program, c, n);
      StepChangesMutated(w, program, c, v);
      UnlistedKeepsItsValue(w, program, from, to, first, list, Step(w, program, c), n - 1, v);
    }
  }

  lemma OnlyFromRunning(w: World, program: seq<Inst>, c: Config, n: nat)
    requires n > 0 && Steps(w, program, c, n).Running?
    ensures Step(w, program, c).Running?
  {
    var m := n - 1;
    if !Step(w, program, c).Running? {
      StuckStays(w, program, Step(w, program, c), m);
    }
  }

  lemma {:induction false} StuckStays(w: World, program: seq<Inst>, c: Config, n: nat)
    requires !c.Running?
    ensures !Steps(w, program, c, n).Running?
    decreases n
  {
    if n > 0 {
      StuckStays(w, program, Step(w, program, c), n - 1);
    }
  }
}
