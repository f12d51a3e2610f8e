/** The order in which struct layouts are computed when structs embed structs. */
module ResolveOrders {

  /** Which structs each struct embeds; a struct that embeds none need not be in the graph. */
  type Graph = map<nat, seq<nat>>

  function Embedees(g: Graph, s: nat): seq<nat> {
    if s in g then g[s] else []
  }

  /** Struct names under `all`; lists of embedees have no duplicates. */
  predicate WellFormed(g: Graph, all: set<nat>) {
    && g.Keys <= all
    && (forall s, i :: s in g && 0 <= i < |g[s]| ==> g[s][i] in all)
    && (forall s, i, j :: s in g && 0 <= i < j < |g[s]| ==> g[s][i] != g[s][j])
  }

  /** A way from one struct to another along embeddings. */
  ghost predicate Walk(g: Graph, w: seq<nat>) {
    w != [] && forall k :: 0 <= k < |w| - 1 ==> w[k + 1] in Embedees(g, w[k])
  }

  function Last(w: seq<nat>): nat
    requires w != []
  {
    w[|w| - 1]
  }

  /** Nothing is reached from s in two ways. */
  ghost predicate OneWay(g: Graph, s: nat) {
    forall v, w :: Walk(g, v) && Walk(g, w) && v[0] == s && w[0] == s && Last(v) == Last(w) ==> v == w
  }

  /** Every struct comes after all it embeds. */
  ghost predicate EmbeddedFirst(g: Graph, order: seq<nat>) {
    forall i, e :: 0 <= i < |order| && e in Embedees(g, order[i]) ==> e in order[..i]
  }

  // ----- Walks -----

  /** A walk from s that ends at t. */
  ghost predicate Leads(g: Graph, s: nat, w: seq<nat>, t: nat) {
    Walk(g, w) && w[0] == s && Last(w) == t
  }

  lemma WalkMore(g: Graph, s: nat, w: seq<nat>, t: nat, c: nat)
    requires Leads(g, s, w, t) && c in Embedees(g, t)
    ensures Leads(g, s, w + [c], c)
  {
  }

  function Ends(walks: set<seq<nat>>): set<nat> {
    set w | w in walks && w != [] :: Last(w)
  }

  lemma EndsMore(walks: set<seq<nat>>, p: seq<nat>)
    requires p != []
    ensures Ends(walks + {p}) == Ends(walks) + {Last(p)}
  {
    assert p in walks + {p};
    forall e | e in Ends(walks) ensures e in Ends(walks + {p}) {
      var w :| w in walks && w != [] && Last(w) == e;
      assert w in walks + {p};
    }
  }

  lemma TakenMore(g: Graph, s: nat, walks: set<seq<nat>>, p: seq<nat>, t: nat)
    requires Taken(g, s, walks) && Leads(g, s, p, t) && t !in Ends(walks)
    ensures Taken(g, s, walks + {p}) && Ends(walks + {p}) == Ends(walks) + {t}
  {
    EndsMore(walks, p);
    forall w | w in walks ensures Last(w) in Ends(walks) {
    }
  }

  lemma OrderMore(g: Graph, order: seq<nat>, s: nat)
    requires EmbeddedFirst(g, order) && forall e :: e in Embedees(g, s) ==> e in order
    ensures EmbeddedFirst(g, order + [s])
  {
    var more := order + [s];
    forall i, e | 0 <= i < |more| && e in Embedees(g, more[i]) ensures e in more[..i] {
      if i < |order| {
        assert more[..i] == order[..i] && more[i] == order[i];
      } else {
        assert more[..i] == order;
      }
    }
  }

  /** All walks that have been taken during a visit from s, each to a struct of its own. */
  ghost predicate Taken(g: Graph, s: nat, walks: set<seq<nat>>) {
    && (forall w :: w in walks ==> Walk(g, w) && w[0] == s)
    && (forall v, w :: v in walks && w in walks && Last(v) == Last(w) ==> v == w)
  }

  /** No walk taken goes through p. */
  ghost predicate Fresh(p: seq<nat>, walks: set<seq<nat>>) {
    forall w :: w in walks ==> !(p <= w)
  }

  ghost predicate Closed(g: Graph, p: seq<nat>, walks: set<seq<nat>>) {
    forall w, c :: w in walks && w != [] && p <= w && c in Embedees(g, Last(w)) ==> w + [c] in walks
  }

  lemma {:induction false} ClosedHasAll(g: Graph, s: nat, walks: set<seq<nat>>, w: seq<nat>)
    requires Closed(g, [s], walks) && [s] in walks && Walk(g, w) && w[0] == s
    ensures w in walks
    decreases |w|
  {
    if |w| == 1 {
      assert w == [s];
    } else {
      var v, c := w[..|w| - 1], Last(w);
      assert w == v + [c];
      assert w[|w| - 2 + 1] in Embedees(g, w[|w| - 2]);
      forall k | 0 <= k < |v| - 1 ensures v[k + 1] in Embedees(g, v[k]) {
        assert w[k + 1] in Embedees(g, w[k]);
      }
      ClosedHasAll(g, s, walks, v);
      assert [s] <= v && c in Embedees(g, Last(v));
      assert v + [c] in walks;
    }
  }

  /** The walks a visit adds before it has looked past its k-th embedee. */
  ghost predicate Grown(walks: set<seq<nat>>, p: seq<nat>, firsts: seq<nat>, walks': set<seq<nat>>, order: seq<nat>) {
    && walks <= walks' && p in walks'
    && forall w :: w in walks' && w !in walks && w != p ==>
      |w| > |p| && p <= w && w[|p|] in firsts && Last(w) in order
  }

  /** Everything past p that starts with one of these has been taken. */
  ghost predicate Exhausted(g: Graph, p: seq<nat>, firsts: seq<nat>, walks: set<seq<nat>>, order: seq<nat>) {
    forall c :: c in firsts ==> p + [c] in walks && Closed(g, p + [c], walks) && c in order
  }

  lemma Untaken(g: Graph, walks: set<seq<nat>>, p: seq<nat>, cs: seq<nat>, k: nat, walks': set<seq<nat>>,
                order: seq<nat>)
    requires k < |cs| && Looked(g, walks, p, cs, k, walks', order) && cs[k] !in cs[..k]
    requires Fresh(p, walks)
    ensures Fresh(p + [cs[k]], walks')
  {
    var c := cs[k];
    forall w | w in walks' ensures !(p + [c] <= w) {
    }
  }

  lemma GrownMore(walks: set<seq<nat>>, p: seq<nat>, firsts: seq<nat>, walks': set<seq<nat>>, order: seq<nat>, c: nat,
    more: set<seq<nat>>, order': seq<nat>)
    requires Grown(walks, p, firsts, walks', order) && walks' <= more && order <= order'
    requires forall w :: w in more && w !in walks' ==> p + [c] <= w && Last(w) in order'
    ensures Grown(walks, p, firsts + [c], more, order')
  {
    forall w | w in more && w !in walks && w != p
      ensures |w| > |p| && p <= w && w[|p|] in firsts + [c] && Last(w) in order'
    {
      if w !in walks' {
        assert w[|p|] == (p + [c])[|p|] == c && (firsts + [c])[|firsts|] == c;
        assert p <= w;
      }
    }
  }

  lemma ExhaustedMore(g: Graph, p: seq<nat>, firsts: seq<nat>, walks: set<seq<nat>>, order: seq<nat>, c: nat,
    more: set<seq<nat>>, order': seq<nat>)
    requires Exhausted(g, p, firsts, walks, order) && c !in firsts && walks <= more && order <= order'
    requires forall w :: w in more && w !in walks ==> p + [c] <= w
    requires p + [c] in more && Closed(g, p + [c], more) && c in order'
    ensures Exhausted(g, p, firsts + [c], more, order')
  {
    forall d | d in firsts ensures Closed(g, p + [d], more) {
      forall w, e | w in more && w != [] && p + [d] <= w && e in Embedees(g, Last(w)) ensures w + [e] in more {
        assert w[|p|] == (p + [d])[|p|] == d;
      }
    }
  }

  lemma ClosedAtLast(g: Graph, p: seq<nat>, walks: set<seq<nat>>, order: seq<nat>)
    requires p != [] && (forall w :: w in walks ==> Walk(g, w)) && Exhausted(g, p, Embedees(g, Last(p)), walks, order)
    ensures Closed(g, p, walks)
  {
    forall w, e | w in walks && w != [] && p <= w && e in Embedees(g, Last(w)) ensures w + [e] in walks {
      if |w| == |p| {
        assert w == p;
      } else {
        assert w[|p| - 1 + 1] in Embedees(g, w[|p| - 1]) && w[|p| - 1] == Last(p);
        assert p + [w[|p|]] <= w;
      }
    }
  }

  /** The walks added by a visit all go through p, to structs that are laid out. */
  ghost predicate Covers(p: seq<nat>, walks: set<seq<nat>>, walks': set<seq<nat>>, order: seq<nat>) {
    walks <= walks' && forall w :: w in walks' && w !in walks ==> p <= w && p != [] && w != [] && Last(w) in order
  }

  lemma TwiceVisited(g: Graph, s: nat, p: seq<nat>, t: nat, walks: set<seq<nat>>)
    requires Taken(g, s, walks) && Leads(g, s, p, t) && t in Ends(walks) && Fresh(p, walks)
    ensures !OneWay(g, s)
  {
    var w :| w in walks && w != [] && Last(w) == Last(p);
    assert w != p;
  }

  /** How far a visit has come when it has looked at the first k embedees. */
  ghost predicate Looked(g: Graph, walks: set<seq<nat>>, p: seq<nat>, cs: seq<nat>, k: nat, walks': set<seq<nat>>,
    order: seq<nat>)
  {
    k <= |cs| && Grown(walks, p, cs[..k], walks', order) && Exhausted(g, p, cs[..k], walks', order)
  }

  lemma NothingYet(g: Graph, walks: set<seq<nat>>, p: seq<nat>, cs: seq<nat>, order: seq<nat>)
    ensures Looked(g, walks, p, cs, 0, walks + {p}, order)
  {
    assert cs[..0] == [];
  }

  lemma NoneTaken(g: Graph, s: nat)
    ensures Taken(g, s, {}) && Ends({}) == {} && Leads(g, s, [s], s) && Fresh([s], {})
  {
  }

  lemma LookedMore(g: Graph, walks: set<seq<nat>>, p: seq<nat>, cs: seq<nat>, k: nat, taken: set<seq<nat>>,
    before: seq<nat>, walks': set<seq<nat>>, order: seq<nat>, ends: set<nat>)
    requires k < |cs| && Looked(g, walks, p, cs, k, taken, before) && cs[k] !in cs[..k]
    requires Covers(p + [cs[k]], taken, walks', order) && Adds(before, order, ends)
    requires p + [cs[k]] in walks' && Closed(g, p + [cs[k]], walks') && cs[k] in order
    ensures Looked(g, walks, p, cs, k + 1, walks', order)
  {
    hide Closed, Grown, Exhausted;
    GrownMore(walks, p, cs[..k], taken, before, cs[k], walks', order);
    ExhaustedMore(g, p, cs[..k], taken, before, cs[k], walks', order);
    assert cs[..k + 1] == cs[..k] + [cs[k]];
  }

  lemma AllCovered(g: Graph, s: nat, walks: set<seq<nat>>, p: seq<nat>, t: nat, walks': set<seq<nat>>, order: seq<nat>)
    requires Leads(g, s, p, t) && Taken(g, s, walks')
    requires Looked(g, walks, p, Embedees(g, t), |Embedees(g, t)|, walks', order)
    ensures Closed(g, p, walks') && forall c :: c in Embedees(g, t) ==> c in order
  {
    assert Embedees(g, t)[..|Embedees(g, t)|] == Embedees(g, t);
    ClosedAtLast(g, p, walks', order);
  }

  lemma CoversMoreOrder(g: Graph, s: nat, walks: set<seq<nat>>, p: seq<nat>, t: nat, cs: seq<nat>,
    walks': set<seq<nat>>, before: seq<nat>, order: seq<nat>)
    requires Leads(g, s, p, t) && Looked(g, walks, p, cs, |cs|, walks', before) && before <= order && t in order
    ensures Covers(p, walks, walks', order) && p in walks'
  {
  }

  /** The order has grown by structs among these only. */
  ghost predicate Adds(before: seq<nat>, order: seq<nat>, ends: set<nat>) {
    before <= order && forall x :: x in order && x !in before ==> x in ends
  }

  lemma NothingAdded(order: seq<nat>, ends: set<nat>)
    ensures Adds(order, order, ends)
  {
  }

  lemma AddsMore(a: seq<nat>, b: seq<nat>, c: seq<nat>, ends: set<nat>, more: set<nat>)
    requires Adds(a, b, ends) && Adds(b, c, more) && ends <= more
    ensures Adds(a, c, more)
  {
  }

  lemma AddsOne(a: seq<nat>, b: seq<nat>, c: seq<nat>, s: nat, ends: set<nat>)
    requires Adds(a, b, ends) && s in ends && c == if s in b then b else b + [s]
    ensures Adds(a, c, ends)
  {
  }

  lemma OrderGrows(all: set<nat>, before: seq<nat>, order: seq<nat>, s: nat, ends: set<nat>)
    requires Adds(before, order, ends) && s in order && s !in before && s in all
    ensures |all - (set x | x in order)| < |all - (set x | x in before)|
  {
    var more, fewer := all - (set x | x in before), all - (set x | x in order);
    assert fewer <= more - {s};
    Smaller(fewer, more - {s});
  }

  lemma Smaller(a: set<nat>, b: set<nat>)
    requires a <= b
    ensures |a| <= |b|
  {
    assert |b - a| == |b| - |a|;
  }

  /** A visit that closes has taken every walk, each to a struct of its own. */
  lemma ClosedIsOneWay(g: Graph, s: nat, walks: set<seq<nat>>)
    requires Taken(g, s, walks) && Closed(g, [s], walks) && [s] in walks
    ensures OneWay(g, s)
  {
    forall v, w | Walk(g, v) && Walk(g, w) && v[0] == s && w[0] == s && Last(v) == Last(w) ensures v == w {
      ClosedHasAll(g, s, walks, v);
      ClosedHasAll(g, s, walks, w);
    }
  }

  lemma AllOnwardOneWay(g: Graph, s: nat, walks: set<seq<nat>>, order: seq<nat>, before: seq<nat>)
    requires OneWay(g, s) && Taken(g, s, walks)
    requires Adds(before, order, Ends(walks))
    requires forall x :: x in before ==> OneWay(g, x)
    ensures forall x :: x in order ==> OneWay(g, x)
  {
    forall x | x in order && x !in before ensures OneWay(g, x) {
      var w :| w in walks && w != [] && Last(w) == x;
      OneWayOnward(g, s, w);
    }
  }

  lemma FirstStep(g: Graph, w: seq<nat>)
    requires Walk(g, w)
    ensures |w| > 1 ==> w[1] in Embedees(g, w[0])
  {
    assert |w| > 1 ==> w[0 + 1] in Embedees(g, w[0]);
  }

  /** Every struct outside the graph is laid out, and no struct that is reaches another by two walks. */
  ghost predicate Sound(g: Graph, all: set<nat>, order: seq<nat>) {
    (forall s :: s in all && s !in g ==> s in order) && forall s :: s in order ==> OneWay(g, s)
  }

  lemma StaysSound(g: Graph, all: set<nat>, before: seq<nat>, order: seq<nat>, s: nat, walks: set<seq<nat>>)
    requires Sound(g, all, before) && Adds(before, order, Ends(walks))
    requires Taken(g, s, walks) && Closed(g, [s], walks) && [s] in walks
    ensures Sound(g, all, order)
  {
    hide OneWay, Taken, Closed;
    ClosedIsOneWay(g, s, walks);
    AllOnwardOneWay(g, s, walks, order, before);
  }

  lemma LeafWalk(g: Graph, w: seq<nat>)
    requires Walk(g, w) && w[0] !in g
    ensures w == [w[0]]
  {
    FirstStep(g, w);
  }

  lemma LeafIsOneWay(g: Graph, s: nat)
    requires s !in g
    ensures OneWay(g, s)
  {
    forall v, w | Walk(g, v) && Walk(g, w) && v[0] == s && w[0] == s ensures v == w {
      LeafWalk(g, v);
      LeafWalk(g, w);
    }
  }

  /** A struct that embeds itself, however deep, is reached in two ways: by staying and by going round. */
  lemma CycleIsNotOneWay(g: Graph, w: seq<nat>)
    requires Walk(g, w) && |w| > 1 && Last(w) == w[0]
    ensures !OneWay(g, w[0])
  {
    assert Walk(g, [w[0]]) && Last([w[0]]) == Last(w);
  }

  /** What holds from s holds from every struct on the way. */
  lemma OneWayOnward(g: Graph, s: nat, p: seq<nat>)
    requires OneWay(g, s) && Walk(g, p) && p[0] == s
    ensures OneWay(g, Last(p))
  {
    forall v, w | Walk(g, v) && Walk(g, w) && v[0] == Last(p) && w[0] == Last(p) && Last(v) == Last(w) ensures v == w {
      var before := p[..|p| - 1];
      JoinedWalk(g, p, v);
      JoinedWalk(g, p, w);
      assert v == (before + v)[|before|..] && w == (before + w)[|before|..];
    }
  }

  lemma JoinedWalk(g: Graph, p: seq<nat>, w: seq<nat>)
    requires Walk(g, p) && Walk(g, w) && w[0] == Last(p)
    ensures var j := p[..|p| - 1] + w; Walk(g, j) && j[0] == p[0] && Last(j) == Last(w)
  {
    var j := p[..|p| - 1] + w;
    forall k | 0 <= k < |j| - 1 ensures j[k + 1] in Embedees(g, j[k]) {
      if k < |p| - 1 {
        assert p[k + 1] in Embedees(g, p[k]);
      } else {
        var i := k - (|p| - 1);
        assert w[i + 1] in Embedees(g, w[i]);
      }
    }
  }

  /** Two structs that share an embedee have a good order, and yet whatever embeds both is refused. */
  lemma SharingIsNotOneWay()
    ensures var g := map[0 := [1, 2], 1 := [3], 2 := [3]];
      WellFormed(g, {0, 1, 2, 3}) && EmbeddedFirst(g, [3, 1, 2, 0]) && !OneWay(g, 0)
  {
    var g: Graph := map[0 := [1, 2], 1 := [3], 2 := [3]];
    var v, w := [0, 1, 3], [0, 2, 3];
    assert g[0][0] == 1 && g[0][1] == 2 && g[1][0] == 3 && g[2][0] == 3;
    assert Walk(g, v) && Walk(g, w) && v[1] != w[1];
    assert Embedees(g, 3) == [];
    var order := [3, 1, 2, 0];
    assert order[..1] == [3] && order[..2] == [3, 1] && order[..3] == [3, 1, 2];
    forall i, e | 0 <= i < |order| && e in Embedees(g, order[i]) ensures e in order[..i] {
      assert i == 0 || i == 1 || i == 2 || i == 3;
    }
  }

  /** In such an order embedding has no cycles. */
  lemma {:induction false} NoCycles(g: Graph, order: seq<nat>, w: seq<nat>, i: nat)
    requires EmbeddedFirst(g, order) && Walk(g, w) && |w| > 1 && i < |order| && order[i] == w[0]
    requires forall a, b :: 0 <= a < b < |order| ==> order[a] != order[b]
    ensures Last(w) in order[..i] && Last(w) != w[0]
    decreases |w|
  {
    assert w[0 + 1] in Embedees(g, w[0]);
    var j :| 0 <= j < i && order[..i][j] == w[1];
    if |w| > 2 {
      var rest := w[1..];
      forall k | 0 <= k < |rest| - 1 ensures rest[k + 1] in Embedees(g, rest[k]) {
        assert w[k + 1 + 1] in Embedees(g, w[k + 1]);
      }
      NoCycles(g, order, rest, j);
    }
  }

  // ----- The resolver -----

  datatype EmbedGraphNode = EmbedGraphNode(embedees: seq<nat>, visited: bool)

  class Resolver {
    var embedGraph: map<nat, EmbedGraphNode>
    /** The structs whose layout has been computed, in order. */
    var order: seq<nat>
    ghost const g: Graph
    const all: set<nat>

    constructor (graph: Graph, all: set<nat>)
      requires WellFormed(graph, all)
      ensures Valid() && g == graph && this.all == all && order == []
      ensures embedGraph.Keys == graph.Keys
    {
      embedGraph := map s | s in graph :: EmbedGraphNode(graph[s], false);
      order := [];
      g, this.all := graph, all;
    }

    ghost predicate Valid()
      reads this
    {
      && WellFormed(g, all) && g.Keys <= embedGraph.Keys <= all
      && (forall s :: s in embedGraph ==> embedGraph[s].embedees == Embedees(g, s))
      && EmbeddedFirst(g, order) && (forall s :: s in order ==> s in all)
      && (forall a, b :: 0 <= a < b < |order| ==> order[a] != order[b])
    }

    ghost function Visited(): set<nat>
      reads this`embedGraph
    {
      set s | s in embedGraph && embedGraph[s].visited
    }

    /** A struct outside the map reads as one that embeds nothing and has not been visited. */
    function Node(s: nat): (node: EmbedGraphNode)
      requires Valid()
      reads this
      ensures node.embedees == Embedees(g, s) && (node.visited <==> s in Visited())
    {
      if s in embedGraph then embedGraph[s] else EmbedGraphNode([], false)
    }

    method MarkVisited(s: nat)
      requires Valid() && s in all
      modifies this`embedGraph
      ensures Valid() && Visited() == old(Visited()) + {s} && embedGraph.Keys == old(embedGraph.Keys) + {s}
    {
      var node := Node(s);
      embedGraph := embedGraph[s := node.(visited := true)];
    }

    method ClearVisited()
      requires Valid()
      modifies this`embedGraph
      ensures Valid() && Visited() == {} && embedGraph.Keys == old(embedGraph.Keys)
    {
      embedGraph := map s | s in embedGraph :: embedGraph[s].(visited := false);
    }

    /** Compute the layout of a struct unless it has been computed. */
    method ResolveSizeAndOffset(s: nat)
      requires Valid() && s in all && forall e :: e in Embedees(g, s) ==> e in order
      modifies this`order
      ensures Valid() && order == if s in old(order) then old(order) else old(order) + [s]
    {
      if s !in order {
        OrderMore(g, order, s);
        order := order + [s];
      }
    }

    lemma EmbedeeIsNew(s: nat, k: nat)
      requires Valid() && k < |Embedees(g, s)|
      ensures Embedees(g, s)[k] in all && Embedees(g, s)[k] !in Embedees(g, s)[..k]
    {
    }

    /** What a finished visit leaves: every walk through p has been taken and every struct on one is laid out. */
    ghost predicate Visits(s: nat, start: nat, p: seq<nat>, walks: set<seq<nat>>, walks': set<seq<nat>>)
      reads this
    {
      && Taken(g, start, walks') && Visited() == Ends(walks') && Covers(p, walks, walks', order)
      && p in walks' && Closed(g, p, walks') && s in order
    }

    /** Compute the layouts of all that a struct embeds, then its own. It fails on a struct visited before. */
    method ResolveStructSizeVisit(s: nat, ghost start: nat, ghost p: seq<nat>, ghost walks: set<seq<nat>>)
      returns (ok: bool, ghost walks': set<seq<nat>>)
      requires Valid() && s in all && Leads(g, start, p, s)
      requires Taken(g, start, walks) && Visited() == Ends(walks)
      requires Fresh(p, walks)
      modifies this
      ensures Valid() && Adds(old(order), order, Visited())
      ensures !ok ==> !OneWay(g, start)
      ensures ok ==> Visits(s, start, p, walks, walks')
      ensures old(Visited()) <= Visited() && old(embedGraph.Keys) <= embedGraph.Keys
      decreases all - Visited()
    {
      hide Taken, Closed, Covers, Adds, Looked, OneWay, Ends, Valid, Visited, Node, Embedees, Leads, Fresh, Last;
      walks' := walks;
      var node := Node(s);
      if node.visited {
        TwiceVisited(g, start, p, s, walks);
        NothingAdded(order, Visited());
        return false, walks;
      }
      TakenMore(g, start, walks, p, s);
      MarkVisited(s);
      walks' := walks + {p};
      NothingYet(g, walks, p, node.embedees, order);
      NothingAdded(order, Visited());
      for k := 0 to |node.embedees|
        invariant Valid() && Adds(old(order), order, Visited())
        invariant Taken(g, start, walks') && Visited() == Ends(walks')
        invariant old(Visited()) + {s} <= Visited() && old(embedGraph.Keys) <= embedGraph.Keys
        invariant Looked(g, walks, p, node.embedees, k, walks', order)
      {
        ghost var c, before, taken, visited := node.embedees[k], order, walks', Visited();
        EmbedeeIsNew(s, k);
        WalkMore(g, start, p, s, c);
        Untaken(g, walks, p, node.embedees, k, walks', order);
        ok, walks' := ResolveStructSizeVisit(node.embedees[k], start, p + [c], walks');
        AddsMore(old(order), before, order, visited, Visited());
        if !ok {
          return;
        }
        LookedMore(g, walks, p, node.embedees, k, taken, before, walks', order, Visited());
      }
      AllCovered(g, start, walks, p, s, walks', order);
      ghost var before := order;
      ResolveSizeAndOffset(s);
      AddsOne(old(order), before, order, s, Visited());
      CoversMoreOrder(g, start, walks, p, s, Embedees(g, s), walks', before, order);
      ok := true;
    }

    /** The structs that embed none are laid out first. */
    method ResolveLeaves()
      requires Valid() && embedGraph.Keys == g.Keys && order == []
      modifies this`order
      ensures Valid() && Sound(g, all, order)
    {
      hide OneWay, EmbeddedFirst, WellFormed;
      var left := all;
      while left != {}
        invariant Valid() && left <= all
        invariant forall s :: s in all - left && s !in g ==> s in order
        invariant forall s :: s in order ==> OneWay(g, s)
      {
        var s :| s in left;
        if s !in embedGraph {
          LeafIsOneWay(g, s);
          ResolveSizeAndOffset(s);
        }
        left := left - {s};
      }
    }

    lemma AllSound()
      requires Valid() && Sound(g, all, order) && forall s :: s in embedGraph ==> s in order
      ensures forall s :: s in all ==> OneWay(g, s) && s in order
    {
      hide OneWay;
    }

    /** Compute the layouts of all structs, each after the structs it embeds. */
    method ResolveStructSize()
      returns (ok: bool)
      requires Valid() && embedGraph.Keys == g.Keys && order == []
      modifies this
      ensures Valid()
      ensures ok <==> forall s :: s in all ==> OneWay(g, s)
      ensures ok ==> forall s :: s in all ==> s in order
    {
      hide Taken, Closed, Adds, Sound, OneWay, Ends, Valid, Visited, Leads, Fresh;
      ResolveLeaves();
      while exists s :: s in embedGraph && s !in order
        invariant Valid() && Sound(g, all, order)
        decreases |all - (set s | s in order)|
      {
        var s :| s in embedGraph && s !in order;
        ClearVisited();
        ghost var before := order;
        NoneTaken(g, s);
        ghost var walks;
        ok, walks := ResolveStructSizeVisit(s, s, [s], {});
        if !ok {
          return;
        }
        StaysSound(g, all, before, order, s, walks);
        OrderGrows(all, before, order, s, Visited());
      }
      AllSound();
      ok := true;
    }
  }
}
