/** The laws of words, bits and comparison. */
module WordLaws {
  import opened Ir
  import opened Precompute

  // ----- Comparison -----

  /** b lies some way above a. */
  ghost predicate Precedes(a: int, b: int) {
    exists d: nat :: d > 0 && Above(a, d) == b
  }

  function Above(a: int, d: nat): int { a + d }

  /** What each comparison asks. */
  ghost predicate Asks(how: ComparisonMethod, a: int, b: int) {
    match how
    case Lesser => Precedes(a, b)
    case Greater => Precedes(b, a)
    case GreaterOrEqual => !Precedes(a, b)
    case LesserOrEqual => !Precedes(b, a)
    case AreEqual => !Precedes(a, b) && !Precedes(b, a)
    case NotEqual => Precedes(a, b) || Precedes(b, a)
  }

  lemma ComparesAsAsked(how: ComparisonMethod, a: int, b: int)
    ensures Compares(how, a, b) <==> Asks(how, a, b)
  {
    if a < b {
      var d: nat := b - a;
      assert Above(a, d) == b;
    }
    if b < a {
      var d: nat := a - b;
      assert Above(b, d) == a;
    }
  }

  /** Exactly one of less, equal and greater; less is greater the other way round; the others are their negations. */
  lemma ComparisonLaws(a: int, b: int, d: nat)
    ensures Compares(AreEqual, a, b) <==> a == b
    ensures Compares(Lesser, a, b) <==> !Compares(AreEqual, a, b) && !Compares(Greater, a, b)
    ensures Compares(Greater, a, b) <==> Compares(Lesser, b, a)
    ensures Compares(LesserOrEqual, a, b) <==> !Compares(Greater, a, b)
    ensures Compares(GreaterOrEqual, a, b) <==> !Compares(Lesser, a, b)
    ensures Compares(NotEqual, a, b) <==> !Compares(AreEqual, a, b)
    ensures d > 0 ==> Compares(Lesser, a, a + d)
  {
  }

  // ----- Arithmetic -----

  /** The same but for a multiple of 2 to the 64. */
  predicate Congruent(a: int, b: int) { (a - b) % 0x1_0000_0000_0000_0000 == 0 }

  predicate IsWordNumber(a: int) { -0x8000_0000_0000_0000 <= a <= 0x7fff_ffff_ffff_ffff }

  /** There is one word congruent to a number, so congruence and range say what a result is. */
  lemma OneWord(a: int, b: int)
    requires Congruent(a, b) && IsWordNumber(a) && IsWordNumber(b)
    ensures a == b
  {
  }

  lemma CongruentSums(a: int, a': int, b: int, b': int)
    requires Congruent(a, a') && Congruent(b, b')
    ensures Congruent(a + b, a' + b') && Congruent(a - b, a' - b')
  {
  }

  /** Results are words and are the sum, the difference and the product but for multiples of 2 to the 64. */
  lemma ArithIsModular(a: int, b: int)
    ensures forall op :: op != Div ==> IsWordNumber(ArithWords(op, a, b))
    ensures Congruent(ArithWords(Add, a, b), a + b) && Congruent(ArithWords(Sub, a, b), a - b)
    ensures Congruent(ArithWords(Mult, a, b), a * b)
  {
    hide Wrap;
    WrapCongruent(a + b);
    WrapCongruent(a - b);
    WrapCongruent(a * b);
  }

  lemma WrapCongruent(x: int)
    ensures IsWordNumber(Wrap(x)) && Congruent(Wrap(x), x)
  {
    var r := Wrap(x);
    assert (x - r) % TWO64 == 0;
    var q := (x - r) / TWO64;
    assert r - x == TWO64 * -q;
  }

  /** Subtraction undoes addition, and addition subtraction. */
  lemma SubtractionUndoes(a: int, b: int)
    requires IsWordNumber(a)
    ensures ArithWords(Sub, ArithWords(Add, a, b), b) == a
    ensures ArithWords(Add, ArithWords(Sub, a, b), b) == a
  {
    hide ArithWords;
    ArithIsModular(a, b);
    var sum, difference := ArithWords(Add, a, b), ArithWords(Sub, a, b);
    ArithIsModular(sum, b);
    ArithIsModular(difference, b);
    CongruentSums(sum, a + b, b, b);
    CongruentSums(difference, a - b, b, b);
    CongruentTrans(ArithWords(Sub, sum, b), sum - b, a);
    CongruentTrans(ArithWords(Add, difference, b), difference + b, a);
    OneWord(ArithWords(Sub, sum, b), a);
    OneWord(ArithWords(Add, difference, b), a);
  }

  lemma CongruentTrans(a: int, b: int, c: int)
    requires Congruent(a, b) && Congruent(b, c)
    ensures Congruent(a, c) && Congruent(c, a)
  {
  }

  /** Multiplication distributes over addition, with 0 and 1 as they should be. */
  lemma MultiplicationLaws(a: int, b: int, c: int)
    ensures ArithWords(Mult, a, ArithWords(Add, b, c)) ==
        ArithWords(Add, ArithWords(Mult, a, b), ArithWords(Mult, a, c))
    ensures ArithWords(Mult, a, b) == ArithWords(Mult, b, a)
    ensures ArithWords(Mult, a, 0) == 0 && (IsWordNumber(a) ==> ArithWords(Mult, a, 1) == a)
  {
    hide ArithWords;
    var sum, ab, ac := ArithWords(Add, b, c), ArithWords(Mult, a, b), ArithWords(Mult, a, c);
    var left, right := ArithWords(Mult, a, sum), ArithWords(Add, ab, ac);
    ArithIsModular(b, c);
    ArithIsModular(a, b);
    ArithIsModular(a, c);
    ArithIsModular(a, sum);
    ArithIsModular(ab, ac);
    CongruentProduct(a, sum, b + c);
    CongruentTrans(left, a * sum, a * (b + c));
    CongruentSums(ab, a * b, ac, a * c);
    assert a * (b + c) == a * b + a * c;
    CongruentTrans(right, ab + ac, a * (b + c));
    CongruentTrans(left, a * (b + c), right);
    OneWord(left, right);
    Commutes(a, b);
    ByZeroAndOne(a);
  }

  lemma CongruentProduct(a: int, b: int, b': int)
    requires Congruent(b, b')
    ensures Congruent(a * b, a * b')
  {
    var q := (b - b') / 0x1_0000_0000_0000_0000;
    assert a * b - a * b' == (a * q) * 0x1_0000_0000_0000_0000;
    Multiple(a * q);
  }

  lemma Multiple(k: int)
    ensures (k * 0x1_0000_0000_0000_0000) % 0x1_0000_0000_0000_0000 == 0
  {
  }

  lemma Commutes(a: int, b: int)
    ensures ArithWords(Mult, a, b) == ArithWords(Mult, b, a)
  {
    hide Wrap;
    assert a * b == b * a;
  }

  lemma ByZeroAndOne(a: int)
    ensures ArithWords(Mult, a, 0) == 0 && (IsWordNumber(a) ==> ArithWords(Mult, a, 1) == a)
  {
    assert a * 0 == 0 && a * 1 == a;
  }

  // ----- Bits -----

  /** Bit k of a number in two's complement. */
  function Bit(a: int, k: nat): int
    decreases k
  {
    if k == 0 then a % 2 else Bit(a / 2, k - 1)
  }

  /** And, or: bit by bit. */
  lemma {:induction false} BitByBit(a: int, b: int, k: nat)
    ensures Bit(BitAnd(a, b), k) == 1 <==> Bit(a, k) == 1 && Bit(b, k) == 1
    ensures Bit(BitOr(a, b), k) == 1 <==> Bit(a, k) == 1 || Bit(b, k) == 1
  {
    hide BitAnd, Bit;
    AndBit(a, b, k);
    AndBit(-1 - a, -1 - b, k);
    BitIsOneOrZero(a, k);
    BitIsOneOrZero(b, k);
    BitIsOneOrZero(BitAnd(-1 - a, -1 - b), k);
    Flipped(a, k);
    Flipped(b, k);
    Flipped(BitAnd(-1 - a, -1 - b), k);
  }

  lemma {:induction false} BitIsOneOrZero(a: int, k: nat)
    ensures 0 <= Bit(a, k) <= 1
    decreases k
  {
    if k > 0 {
      BitIsOneOrZero(a / 2, k - 1);
    }
  }

  lemma {:induction false} AndBit(a: int, b: int, k: nat)
    ensures Bit(BitAnd(a, b), k) == 1 <==> Bit(a, k) == 1 && Bit(b, k) == 1
    decreases k
  {
    hide BitAnd;
    AndHalves(a, b);
    if k > 0 {
      AndBit(a / 2, b / 2, k - 1);
    }
  }

  lemma AndHalves(a: int, b: int)
    ensures BitAnd(a, b) % 2 == (a % 2) * (b % 2) && BitAnd(a, b) / 2 == BitAnd(a / 2, b / 2)
  {
    hide BitAnd;
    AndSpecial(b);
    AndSpecial(a);
    AndSpecial(a / 2);
    AndSpecial(b / 2);
    if a != 0 && b != 0 && a != -1 && b != -1 {
      AndStep(a, b);
      OneBit(a % 2, b % 2);
    }
  }

  lemma OneBit(x: int, y: int)
    requires 0 <= x < 2 && 0 <= y < 2
    ensures 0 <= x * y < 2
  {
  }

  /** All bits clear, or all set. */
  lemma AndSpecial(x: int)
    ensures BitAnd(0, x) == 0 && BitAnd(x, 0) == 0 && BitAnd(-1, x) == x && BitAnd(x, -1) == x
  {
  }

  lemma AndStep(a: int, b: int)
    requires a != 0 && b != 0 && a != -1 && b != -1
    ensures BitAnd(a, b) == 2 * BitAnd(a / 2, b / 2) + (a % 2) * (b % 2)
  {
  }

  lemma {:induction false} Flipped(a: int, k: nat)
    ensures Bit(-1 - a, k) == 1 - Bit(a, k)
    decreases k
  {
    if k > 0 {
      Flipped(a / 2, k - 1);
      assert (-1 - a) / 2 == -1 - a / 2;
    }
  }

  // ----- On the table -----

  /** What carrying an instruction out on known operands is for: the result of a comparison is one or zero as asked,
      that of arithmetic the word congruent to the result on numbers, that of and, or the one bit by bit, and so on. */
  ghost predicate Meant(i: Inst, a: int, b: int, r: int) {
    match i
    case Compare(how, _, _, _) => r == if Asks(how, a, b) then 1 else 0
    case Arith(op, _, _) =>
      IsWordNumber(r) && Congruent(r, match op { case Add => a + b case Sub => a - b case Mult => a * b case Div => r })
    case Increment(_) => IsWordNumber(r) && Congruent(r, a + 1)
    case Decrement(_) => IsWordNumber(r) && Congruent(r, a - 1)
    case And(_, _) => forall k: nat :: Bit(r, k) == 1 <==> Bit(a, k) == 1 && Bit(b, k) == 1
    case Or(_, _) => forall k: nat :: Bit(r, k) == 1 <==> Bit(a, k) == 1 || Bit(b, k) == 1
    case Assign(_, _) => r == b
    case Not(_, _) => r == if b == 0 then 1 else 0
    case _ => true
  }

  /** The variables whose known values are the first and the second operand, and where the result goes. */
  function Operands(i: Inst): (nat, nat, nat)
    requires Supported(i) && !i.AssignImm?
  {
    match i
    case Compare(_, read, right, result) => (read, right, result)
    case Arith(_, out, read) => (out, read, out)
    case Increment(out) => (out, out, out)
    case Decrement(out) => (out, out, out)
    case And(out, read) => (out, read, out)
    case Or(out, read) => (out, read, out)
    case Assign(out, read) => (out, read, out)
    case Not(out, read) => (out, read, out)
  }

  /** Carried out on the table, a supported instruction leaves what it is meant to, as something known. */
  lemma CarriedOutAsMeant(t: Table, i: Inst)
    requires Supported(i) && !i.AssignImm? && CanPrecompute(t, i) && AllInputsKnown(t, i) && !FoldsStale(t, i)
    requires forall v :: v in VarsOf(i) ==> v < |t|
    ensures var o := Operands(i); var r := Get(Precomputed(t, i), o.2);
      r.known && Meant(i, Get(t, o.0).value, Get(t, o.1).value, r.value)
  {
    hide Wrap, BitAnd, BitOr, Compares, ArithWords, AllInputsKnown, Congruent, IsWordNumber, Bit, Asks;
    var o := Operands(i);
    var a, b := Get(t, o.0).value, Get(t, o.1).value;
    assert o.2 in VarsOf(i);
    match i {
      case Compare(how, _, _, _) => ComparesAsAsked(how, a, b);
      case Arith(_, _, _) => ArithIsModular(a, b);
      case Increment(_) => WrapCongruent(a + 1);
      case Decrement(_) => WrapCongruent(a - 1);
      case And(_, _) => forall k: nat { BitByBit(a, b, k); }
      case Or(_, _) => forall k: nat { BitByBit(a, b, k); }
      case _ =>
    }
  }

  /** From table to table: the result is known and is what is meant. */
  ghost predicate AsMeant(t: Table, t': Table, i: Inst) {
    Supported(i) && !i.AssignImm? && !FoldsStale(t, i) ==>
      var o := Operands(i); var r := Get(t', o.2);
      r.known && Meant(i, Get(t, o.0).value, Get(t, o.1).value, r.value)
  }

  lemma PrecomputedAsMeant(t: Table, i: Inst)
    requires CanPrecompute(t, i) && AllInputsKnown(t, i) && forall v :: v in VarsOf(i) ==> v < |t|
    ensures AsMeant(t, Precomputed(t, i), i)
  {
    hide Wrap, BitAnd, BitOr, Compares, ArithWords, AllInputsKnown, Meant, CanPrecompute, Precomputed;
    if Supported(i) && !i.AssignImm? && !FoldsStale(t, i) {
      CarriedOutAsMeant(t, i);
    }
  }
}
