/** How structs are laid out: sizes, alignments and offsets. */
module Layouts {

  /** Scalars are 1, 2, 4 or 8 bytes; pointers and strings are 8. An array lists its sizes, outermost first. */
  datatype Type =
    | Scalar(bytes: nat)
    | ArrayOf(nesting: seq<nat>, of: Type)
    | Struct(fields: seq<Type>)

  predicate Aligned(n: int, a: nat) { a != 0 && n % a == 0 }

  predicate IsAlignment(a: nat) { a == 1 || a == 2 || a == 4 || a == 8 }

  /** What the layout is defined for: arrays of scalars and structs, and structs with at least one field. */
  predicate WellFormed(t: Type) {
    match t
    case Scalar(bytes) => IsAlignment(bytes)
    case ArrayOf(_, of) => !of.ArrayOf? && WellFormed(of)
    case Struct(fields) => fields != [] && AllWellFormed(fields)
  }

  predicate AllWellFormed(fields: seq<Type>) {
    forall k :: 0 <= k < |fields| ==> WellFormed(fields[k])
  }

  function Product(nesting: seq<nat>): nat {
    if nesting == [] then 1 else Product(nesting[..|nesting| - 1]) * nesting[|nesting| - 1]
  }

  /** The least multiple of a that is not below n. */
  function RoundUp(n: nat, a: nat): nat {
    if a == 0 || n % a == 0 then n else n - n % a + a
  }

  function Max(a: nat, b: nat): nat { if a > b then a else b }

  // ----- Sizes, alignments and offsets -----

  function SizeOf(t: Type): nat
    decreases t, 0
  {
    match t
    case Scalar(bytes) => bytes
    case ArrayOf(nesting, of) => Product(nesting) * SizeOf(of)
    case Struct(fields) => RoundUp(End(fields), AlignOf(t))
  }

  function AlignOf(t: Type): nat
    decreases t, 0
  {
    match t
    case Scalar(bytes) => bytes
    case ArrayOf(_, of) => AlignOf(of)
    case Struct(fields) => Widest(fields)
  }

  function Widest(fields: seq<Type>): nat
    decreases fields, 0
  {
    if fields == [] then 0 else Max(Widest(fields[..|fields| - 1]), AlignOf(fields[|fields| - 1]))
  }

  /** Where the last of the fields begins, and where it ends. */
  function LastOffset(fields: seq<Type>): nat
    requires fields != []
    decreases fields, 1
  {
    RoundUp(End(fields[..|fields| - 1]), AlignOf(fields[|fields| - 1]))
  }

  function End(fields: seq<Type>): nat
    decreases fields, 2
  {
    if fields == [] then 0 else LastOffset(fields) + SizeOf(fields[|fields| - 1])
  }

  function Offset(fields: seq<Type>, k: nat): nat
    requires k < |fields|
  {
    LastOffset(fields[..k + 1])
  }

  // ----- The computation -----

  class StructRecord {
    const memberOrder: seq<Type>
    const offsets: array<nat>
    var resolved: bool
    var size: nat
    var alignment: nat

    constructor (memberOrder: seq<Type>)
      ensures this.memberOrder == memberOrder && !resolved && fresh(offsets) && offsets.Length == |memberOrder|
    {
      this.memberOrder := memberOrder;
      offsets := new nat[|memberOrder|];
      resolved, size, alignment := false, 0, 0;
    }

    /** The size, the alignment and every offset are there. */
    ghost predicate Computed()
      reads this, offsets
    {
      && offsets.Length == |memberOrder| && size == SizeOf(Struct(memberOrder))
          && alignment == AlignOf(Struct(memberOrder))
      && forall k :: 0 <= k < |memberOrder| ==> offsets[k] == Offset(memberOrder, k)
    }

    /** Sizes and alignments of fields are at hand: structs among them have been resolved before. */
    method ResolveSizeAndOffset()
      requires offsets.Length == |memberOrder| && AllWellFormed(memberOrder) && (resolved ==> Computed())
      modifies this, offsets
      ensures resolved && Computed()
    {
      if resolved {
        return;
      }
      NoFields();
      size, alignment := 0, 0;
      if |memberOrder| == 0 {
        resolved := true;
        return;
      }
      PlaceFields();
      StructIs(memberOrder);
      size := ClosestAlignment(size, alignment);
      resolved := true;
    }

    /** One field after another, each at the closest multiple of its alignment. */
    method PlaceFields()
      requires offsets.Length == |memberOrder| > 0 && AllWellFormed(memberOrder)
      modifies this`size, this`alignment, offsets
      ensures size == End(memberOrder) && alignment == Widest(memberOrder) && alignment > 0
      ensures forall k :: 0 <= k < |memberOrder| ==> offsets[k] == Offset(memberOrder, k)
    {
      hide SizeOf, AlignOf, RoundUp, End, Widest, Offset, WellFormed;
      NoFields();
      WidestIs(memberOrder);
      offsets[0] := 0;
      size, alignment := 0, 0;
      for i := 0 to |memberOrder|
        invariant size == End(memberOrder[..i]) && alignment == Widest(memberOrder[..i])
        invariant forall k :: 0 <= k < i ==> offsets[k] == Offset(memberOrder, k)
        invariant i == 0 ==> offsets[0] == 0
      {
        var field := memberOrder[i];
        OneMoreField(memberOrder, i);
        FieldAlignment(field);
        RoundsZero(AlignOf(field));
        var fieldSize := SizeOf(field);
        var fieldAlignment := match field case ArrayOf(_, of) => AlignOf(of) case _ => AlignOf(field);
        if i > 0 {
          offsets[i] := ClosestAlignment(size, fieldAlignment);
        }
        size := offsets[i] + fieldSize;
        if fieldAlignment > alignment {
          alignment := fieldAlignment;
        }
      }
      assert memberOrder[..|memberOrder|] == memberOrder;
    }
  }

  lemma NoFields()
    ensures SizeOf(Struct([])) == 0 && AlignOf(Struct([])) == 0 && End([]) == 0 && Widest([]) == 0
  {
  }

  lemma OneMoreField(fields: seq<Type>, i: nat)
    requires i < |fields|
    ensures Offset(fields, i) == RoundUp(End(fields[..i]), AlignOf(fields[i]))
    ensures End(fields[..i + 1]) == Offset(fields, i) + SizeOf(fields[i])
    ensures Widest(fields[..i + 1]) == Max(Widest(fields[..i]), AlignOf(fields[i]))
  {
    assert fields[..i + 1][..i] == fields[..i];
  }

  lemma StructIs(fields: seq<Type>)
    ensures SizeOf(Struct(fields)) == RoundUp(End(fields), Widest(fields)) && AlignOf(Struct(fields)) == Widest(fields)
  {
  }

  lemma FieldAlignment(field: Type)
    requires WellFormed(field)
    ensures IsAlignment(AlignOf(field)) && (field.ArrayOf? ==> AlignOf(field) == AlignOf(field.of))
  {
    AlignmentIs(field);
  }

  lemma RoundsZero(a: nat)
    ensures RoundUp(0, a) == 0
  {
  }

  /** The closest multiple of the alignment, going up. */
  method ClosestAlignment(size: nat, alignment: nat) returns (r: nat)
    requires alignment > 0
    ensures r == RoundUp(size, alignment)
  {
    if size % alignment == 0 {
      r := size;
    } else {
      r := size - size % alignment + alignment;
    }
  }

  // ----- Alignment -----

  lemma {:induction false} AlignmentIs(t: Type)
    requires WellFormed(t)
    ensures IsAlignment(AlignOf(t))
    decreases t, 0
  {
    match t
    case Scalar(_) =>
    case ArrayOf(_, of) => AlignmentIs(of);
    case Struct(fields) => WidestIs(fields);
  }

  lemma {:induction false} WidestIs(fields: seq<Type>)
    requires AllWellFormed(fields)
    ensures fields != [] ==> IsAlignment(Widest(fields))
    ensures forall k :: 0 <= k < |fields| ==> IsAlignment(AlignOf(fields[k])) && AlignOf(fields[k]) <= Widest(fields)
    decreases fields, 0
  {
    if fields != [] {
      WidestIs(fields[..|fields| - 1]);
      AlignmentIs(fields[|fields| - 1]);
    }
  }

  lemma Eights(n: nat)
    requires n % 8 == 0
    ensures n % 4 == 0
  {
    Multiple(4, 2 * (n / 8));
  }

  lemma Fours(n: nat)
    requires n % 4 == 0
    ensures n % 2 == 0
  {
    Multiple(2, 2 * (n / 4));
  }

  /** Of two alignments the smaller divides the larger. */
  lemma SmallerToo(n: nat, a: nat, b: nat)
    requires IsAlignment(a) && IsAlignment(b) && b <= a && Aligned(n, a)
    ensures Aligned(n, b)
  {
    if a == 8 {
      Eights(n);
    }
    if a >= 4 {
      Fours(n);
    }
  }

  lemma SumAligned(m: int, n: int, a: nat)
    requires IsAlignment(a) && Aligned(m, a) && Aligned(n, a)
    ensures Aligned(m + n, a)
  {
  }

  lemma {:induction false} TimesAligned(i: nat, n: nat, a: nat)
    requires IsAlignment(a) && Aligned(n, a)
    ensures Aligned(i * n, a)
    decreases i
  {
    if i > 0 {
      TimesAligned(i - 1, n, a);
      assert i * n == (i - 1) * n + n;
      SumAligned((i - 1) * n, n, a);
    }
  }

  /** Rounding up reaches the next multiple. */
  lemma RoundsUp(n: nat, a: nat)
    requires IsAlignment(a)
    ensures n <= RoundUp(n, a) && Aligned(RoundUp(n, a), a)
  {
    NextMultiple(n, a);
  }

  lemma NextMultiple(n: nat, a: nat)
    requires a > 0
    ensures (n - n % a + a) % a == 0 && n % a < a
  {
    var q, r := n / a, n % a;
    Multiple(a, q + 1);
    assert n - r + a == a * (q + 1);
  }

  lemma Multiple(a: nat, q: nat)
    requires a > 0
    ensures (a * q) % a == 0
  {
    var p, r := (a * q) / a, (a * q) % a;
    assert a * q == a * p + r;
    if p < q {
      Larger(a, p + 1, q);
    }
    Larger(a, p, q);
  }

  lemma RoundsUpLeast(n: nat, a: nat, m: nat)
    requires IsAlignment(a) && n <= m && Aligned(m, a)
    ensures RoundUp(n, a) <= m
  {
    var q, p := n / a, m / a;
    assert n == a * q + n % a && m == a * p;
    if p >= q + 1 {
      Larger(a, q + 1, p);
    } else {
      Larger(a, p, q);
    }
  }

  lemma {:induction false} SizeAligned(t: Type)
    requires WellFormed(t)
    ensures Aligned(SizeOf(t), AlignOf(t))
    decreases t
  {
    hide Product, RoundUp;
    AlignmentIs(t);
    match t
    case Scalar(_) =>
    case ArrayOf(nesting, of) =>
      SizeAligned(of);
      TimesAligned(Product(nesting), SizeOf(of), AlignOf(of));
    case Struct(fields) => RoundsUp(End(fields), AlignOf(t));
  }

  // ----- Every leaf -----

  /** A scalar of so many bytes lies `at` bytes into a value of the type. */
  ghost predicate LeafAt(t: Type, at: int, bytes: nat)
    decreases t
  {
    match t
    case Scalar(n) => at == 0 && bytes == n
    case ArrayOf(nesting, of) => exists i: nat :: i < Product(nesting) && LeafAt(of, at - i * SizeOf(of), bytes)
    case Struct(fields) => exists k :: 0 <= k < |fields| && LeafAt(fields[k], at - Offset(fields, k), bytes)
  }

  /** Wherever a value starts that is aligned as a whole, each of its scalars is aligned, and inside the value. */
  lemma {:induction false} LeavesAligned(t: Type, at: int, bytes: nat)
    requires WellFormed(t) && LeafAt(t, at, bytes)
    ensures IsAlignment(bytes) && bytes <= AlignOf(t) && at >= 0 && Aligned(at, bytes) && at + bytes <= SizeOf(t)
    decreases t
  {
    hide IsAlignment, Aligned, AlignOf, SizeOf, Offset, Product;
    match t
    case Scalar(_) => ScalarLeaf(t);
    case ArrayOf(nesting, of) =>
      var i: nat :| i < Product(nesting) && LeafAt(of, at - i * SizeOf(of), bytes);
      LeavesAligned(of, at - i * SizeOf(of), bytes);
      ElementLeaf(t, i, at, bytes);
    case Struct(fields) =>
      var k :| 0 <= k < |fields| && LeafAt(fields[k], at - Offset(fields, k), bytes);
      LeavesAligned(fields[k], at - Offset(fields, k), bytes);
      FieldLeaf(t, k, at, bytes);
  }

  lemma ScalarLeaf(t: Type)
    requires t.Scalar? && WellFormed(t)
    ensures IsAlignment(t.bytes) && AlignOf(t) == SizeOf(t) == t.bytes && Aligned(0, t.bytes)
  {
  }

  lemma ElementLeaf(t: Type, i: nat, at: int, bytes: nat)
    requires t.ArrayOf? && WellFormed(t) && i < Product(t.nesting)
    requires var from := at - i * SizeOf(t.of);
      IsAlignment(bytes) && bytes <= AlignOf(t.of) && from >= 0 && Aligned(from, bytes) && from + bytes <= SizeOf(t.of)
    ensures bytes <= AlignOf(t) && at >= 0 && Aligned(at, bytes) && at + bytes <= SizeOf(t)
  {
    hide Aligned, IsAlignment, Product;
    AlignmentIs(t.of);
    SizeAligned(t.of);
    TimesAligned(i, SizeOf(t.of), AlignOf(t.of));
    SmallerToo(i * SizeOf(t.of), AlignOf(t.of), bytes);
    SumAligned(i * SizeOf(t.of), at - i * SizeOf(t.of), bytes);
    Elements(i, Product(t.nesting), SizeOf(t.of));
  }

  lemma FieldLeaf(t: Type, k: nat, at: int, bytes: nat)
    requires t.Struct? && WellFormed(t) && k < |t.fields|
    requires var from := at - Offset(t.fields, k); var field := t.fields[k];
      IsAlignment(bytes) && bytes <= AlignOf(field) && from >= 0 && Aligned(from, bytes)
          && from + bytes <= SizeOf(field)
    ensures bytes <= AlignOf(t) && at >= 0 && Aligned(at, bytes) && at + bytes <= SizeOf(t)
  {
    hide Aligned, IsAlignment, RoundUp, Offset, End, Widest;
    AlignmentIs(t);
    FieldsApart(t.fields, k);
    SmallerToo(Offset(t.fields, k), AlignOf(t.fields[k]), bytes);
    SumAligned(Offset(t.fields, k), at - Offset(t.fields, k), bytes);
    WidestIs(t.fields);
    RoundsUp(End(t.fields), AlignOf(t));
  }

  /** The address of a scalar of an aligned value is a multiple of its size. */
  lemma AddressAligned(t: Type, base: nat, at: int, bytes: nat)
    requires WellFormed(t) && LeafAt(t, at, bytes) && Aligned(base, AlignOf(t))
    ensures Aligned(base + at, bytes)
  {
    LeavesAligned(t, at, bytes);
    AlignmentIs(t);
    SmallerToo(base, AlignOf(t), bytes);
    SumAligned(base, at, bytes);
  }

  lemma Elements(i: nat, n: nat, size: nat)
    requires i < n
    ensures i * size + size <= n * size
  {
    assert n * size == (i + 1) * size + (n - i - 1) * size;
    assert (n - i - 1) * size >= 0;
  }

  /** A field begins at a multiple of its alignment and ends inside the struct, and at or before where every later field
      begins. */
  lemma {:induction false} FieldsApart(fields: seq<Type>, k: nat)
    requires AllWellFormed(fields) && k < |fields|
    ensures IsAlignment(AlignOf(fields[k])) && Aligned(Offset(fields, k), AlignOf(fields[k]))
    ensures Offset(fields, k) + SizeOf(fields[k]) <= End(fields)
    ensures forall j :: k < j < |fields| ==> Offset(fields, k) + SizeOf(fields[k]) <= Offset(fields, j)
    decreases |fields|
  {
    hide Aligned, IsAlignment, RoundUp, AlignOf, SizeOf;
    AlignmentIs(fields[k]);
    RoundsUp(End(fields[..k + 1][..k]), AlignOf(fields[k]));
    var n := |fields| - 1;
    assert fields[..n + 1] == fields;
    if k < n {
      var before := fields[..n];
      assert before[..k + 1] == fields[..k + 1];
      AlignmentIs(fields[n]);
      FieldsApart(before, k);
      RoundsUp(End(before), AlignOf(fields[n]));
      assert Offset(fields, n) == LastOffset(fields) >= End(before);
      forall j | k < j < |fields| ensures Offset(fields, k) + SizeOf(fields[k]) <= Offset(fields, j) {
        if j < n {
          assert before[..j + 1] == fields[..j + 1];
          assert Offset(before, j) == Offset(fields, j);
        }
      }
    }
  }

  // ----- No layout is smaller -----

  /** Any way to lay a type out: for each struct at any depth its size and the offsets of its fields. */
  datatype Plan = Flat | Repeated(element: Plan) | Placed(size: nat, offsets: seq<nat>, plans: seq<Plan>)

  ghost function PlannedSize(t: Type, p: Plan): nat {
    match (t, p)
    case (Scalar(bytes), _) => bytes
    case (ArrayOf(nesting, of), Repeated(element)) => Product(nesting) * PlannedSize(of, element)
    case (Struct(_), Placed(size, _, _)) => size
    case _ => 0
  }

  /** The plan keeps the order of fields, aligns each one, leaves room for it, and makes structs multiples of their
      alignment. */
  ghost predicate Keeps(t: Type, p: Plan)
    decreases t
  {
    match t
    case Scalar(_) => p.Flat?
    case ArrayOf(_, of) => p.Repeated? && Keeps(of, p.element)
    case Struct(fields) =>
      && p.Placed? && |p.offsets| == |fields| == |p.plans| && Aligned(p.size, AlignOf(t))
      && (forall k :: 0 <= k < |fields| ==> Keeps(fields[k], p.plans[k]))
      && (forall k :: 0 <= k < |fields| ==> Aligned(p.offsets[k], AlignOf(fields[k])))
      && (forall j, k :: 0 <= j < k < |fields| ==> p.offsets[j] + PlannedSize(fields[j], p.plans[j]) <= p.offsets[k])
      && (forall k :: 0 <= k < |fields| ==> p.offsets[k] + PlannedSize(fields[k], p.plans[k]) <= p.size)
  }

  /** Any such plan takes at least as much room, and puts no field of a struct earlier. */
  lemma {:induction false} NoPlanIsSmaller(t: Type, p: Plan)
    requires WellFormed(t) && Keeps(t, p)
    ensures SizeOf(t) <= PlannedSize(t, p)
    ensures t.Struct? ==> forall k :: 0 <= k < |t.fields| ==> Offset(t.fields, k) <= p.offsets[k]
    decreases t, 1
  {
    match t
    case Scalar(_) =>
    case ArrayOf(nesting, of) =>
      NoPlanIsSmaller(of, p.element);
      Larger(Product(nesting), SizeOf(of), PlannedSize(of, p.element));
    case Struct(fields) =>
      AlignmentIs(t);
      forall k | 0 <= k < |fields|
        ensures Offset(fields, k) <= p.offsets[k] && SizeOf(fields[k]) <= PlannedSize(fields[k], p.plans[k])
      {
        NoFieldEarlier(t, p, k);
        NoPlanIsSmaller(fields[k], p.plans[k]);
      }
      assert fields[..|fields|] == fields;
      assert End(fields) == Offset(fields, |fields| - 1) + SizeOf(fields[|fields| - 1]);
      RoundsUpLeast(End(fields), AlignOf(t), p.size);
  }

  lemma Larger(n: nat, a: int, b: int)
    requires a <= b
    ensures n * a <= n * b
  {
  }

  lemma {:induction false} NoFieldEarlier(t: Type, p: Plan, k: nat)
    requires WellFormed(t) && t.Struct? && Keeps(t, p) && k < |t.fields|
    ensures Offset(t.fields, k) <= p.offsets[k]
    decreases t, 0, k
  {
    var fields := t.fields;
    AlignmentIs(fields[k]);
    assert fields[..k + 1][..k] == fields[..k];
    if k > 0 {
      NoFieldEarlier(t, p, k - 1);
      NoPlanIsSmaller(fields[k - 1], p.plans[k - 1]);
      assert End(fields[..k]) == Offset(fields, k - 1) + SizeOf(fields[k - 1]);
    }
    RoundsUpLeast(End(fields[..k]), AlignOf(fields[k]), p.offsets[k]);
  }
}
