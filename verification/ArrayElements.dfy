/** Elements of arrays of any nesting, and which scalar decides an alignment. */
module ArrayElements {
  import opened Layouts

  // ----- Sizes of arrays -----

  lemma {:induction false} ProductHead(n: nat, rest: seq<nat>)
    ensures Product([n] + rest) == n * Product(rest)
    decreases |rest|
  {
    var nesting := [n] + rest;
    if rest == [] {
      assert nesting[..|nesting| - 1] == [] && Product(nesting[..|nesting| - 1]) == 1;
    } else {
      var last := |rest| - 1;
      assert nesting[..|nesting| - 1] == [n] + rest[..last];
      ProductHead(n, rest[..last]);
      assert n * Product(rest[..last]) * rest[last] == n * (Product(rest[..last]) * rest[last]);
    }
  }

  /** An array without sizes is its content; one more size in front multiplies by it. */
  lemma SizeOfNested(n: nat, rest: seq<nat>, of: Type)
    ensures SizeOf(ArrayOf([], of)) == SizeOf(of)
    ensures SizeOf(ArrayOf([n] + rest, of)) == n * SizeOf(ArrayOf(rest, of))
  {
    ProductHead(n, rest);
    assert n * Product(rest) * SizeOf(of) == n * (Product(rest) * SizeOf(of));
    assert Product([]) == 1;
  }

  // ----- Elements -----

  predicate IsIndex(nesting: seq<nat>, index: seq<nat>) {
    |index| == |nesting| && forall k :: 0 <= k < |index| ==> index[k] < nesting[k]
  }

  /** Where an element begins: each index skips that many of the arrays one level in. */
  function ElementAt(nesting: seq<nat>, of: Type, index: seq<nat>): nat
    requires |index| == |nesting|
    decreases |nesting|
  {
    if nesting == [] then 0
    else index[0] * SizeOf(ArrayOf(nesting[1..], of)) + ElementAt(nesting[1..], of, index[1..])
  }

  lemma Inside(i: nat, n: nat, size: nat, at: nat, length: nat)
    requires i < n && at + length <= size
    ensures i * size + at + length <= n * size
  {
    Elements(i, n, size);
  }

  /** Every index has an element inside the array. */
  lemma {:induction false} ElementInside(nesting: seq<nat>, of: Type, index: seq<nat>)
    requires IsIndex(nesting, index)
    ensures ElementAt(nesting, of, index) + SizeOf(of) <= SizeOf(ArrayOf(nesting, of))
    decreases |nesting|
  {
    hide SizeOf;
    if nesting == [] {
      SizeOfNested(0, [], of);
    } else {
      assert nesting == [nesting[0]] + nesting[1..];
      SizeOfNested(nesting[0], nesting[1..], of);
      ElementInside(nesting[1..], of, index[1..]);
      Inside(index[0], nesting[0], SizeOf(ArrayOf(nesting[1..], of)), ElementAt(nesting[1..], of, index[1..]),
          SizeOf(of));
    }
  }

  /** Elements of different indices do not overlap. */
  lemma {:induction false} ElementsApart(nesting: seq<nat>, of: Type, a: seq<nat>, b: seq<nat>)
    requires IsIndex(nesting, a) && IsIndex(nesting, b) && a != b
    ensures var i, j := ElementAt(nesting, of, a), ElementAt(nesting, of, b);
      i + SizeOf(of) <= j || j + SizeOf(of) <= i
    decreases |nesting|
  {
    hide SizeOf;
    var rest, size := nesting[1..], SizeOf(ArrayOf(nesting[1..], of));
    ElementInside(rest, of, a[1..]);
    ElementInside(rest, of, b[1..]);
    if a[0] == b[0] {
      assert a == [a[0]] + a[1..] && b == [b[0]] + b[1..];
      ElementsApart(rest, of, a[1..], b[1..]);
    } else if a[0] < b[0] {
      Inside(a[0], b[0], size, ElementAt(rest, of, a[1..]), SizeOf(of));
    } else {
      Inside(b[0], a[0], size, ElementAt(rest, of, b[1..]), SizeOf(of));
    }
  }

  /** Together they are the whole array: every byte of it is in an element. */
  lemma {:induction false} ElementsCover(nesting: seq<nat>, of: Type, at: nat) returns (index: seq<nat>)
    requires at < SizeOf(ArrayOf(nesting, of))
    ensures IsIndex(nesting, index)
    ensures ElementAt(nesting, of, index) <= at < ElementAt(nesting, of, index) + SizeOf(of)
    decreases |nesting|
  {
    hide SizeOf;
    if nesting == [] {
      SizeOfNested(0, [], of);
      index := [];
    } else {
      var size := SizeOf(ArrayOf(nesting[1..], of));
      assert nesting == [nesting[0]] + nesting[1..];
      SizeOfNested(nesting[0], nesting[1..], of);
      var i, inner := WhichPart(at, nesting[0], size);
      var rest := ElementsCover(nesting[1..], of, inner);
      index := [i] + rest;
      assert index[1..] == rest;
    }
  }

  lemma WhichPart(at: nat, n: nat, size: nat) returns (i: nat, inner: nat)
    requires at < n * size
    ensures i < n && inner < size && at == i * size + inner
  {
    assert n * 0 == 0;
    i, inner := at / size, at % size;
    assert at == i * size + inner;
    if i >= n {
      Larger(size, n, i);
    }
  }

  // ----- Alignment -----

  /** A scalar of so many bytes is in the type, however deep. */
  ghost predicate ScalarIn(t: Type, bytes: nat) {
    match t
    case Scalar(n) => bytes == n
    case ArrayOf(_, of) => ScalarIn(of, bytes)
    case Struct(fields) => exists k :: 0 <= k < |fields| && ScalarIn(fields[k], bytes)
  }

  /** A type is aligned as the widest scalar in it. */
  lemma {:induction false} WidestScalarAligns(t: Type)
    requires WellFormed(t)
    ensures ScalarIn(t, AlignOf(t)) && forall bytes: nat :: ScalarIn(t, bytes) ==> bytes <= AlignOf(t)
    decreases t
  {
    match t
    case Scalar(_) =>
    case ArrayOf(_, of) => WidestScalarAligns(of);
    case Struct(fields) =>
      WidestIs(fields);
      var k := WidestAt(fields);
      WidestScalarAligns(fields[k]);
      forall bytes: nat | ScalarIn(t, bytes) ensures bytes <= AlignOf(t) {
        var j :| 0 <= j < |fields| && ScalarIn(fields[j], bytes);
        WidestScalarAligns(fields[j]);
      }
  }

  lemma {:induction false} WidestAt(fields: seq<Type>) returns (k: nat)
    requires fields != [] && AllWellFormed(fields)
    ensures k < |fields| && Widest(fields) == AlignOf(fields[k])
    decreases |fields|
  {
    var n := |fields| - 1;
    WidestIs(fields);
    k := n;
    if n > 0 && Widest(fields) != AlignOf(fields[n]) {
      k := WidestAt(fields[..n]);
    }
  }
}
