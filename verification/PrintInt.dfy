/** The run-time routine that prints an unsigned 64-bit integer. */
module PrintInt {

  type Byte = b: int | 0 <= b < 256

  const TWO64 := 0x1_0000_0000_0000_0000

  // ----- What is to be printed -----

  function Decimal(n: nat): (text: seq<Byte>)
    ensures text != [] && (|text| > 1 ==> text[0] != 48)
    ensures n > 0 ==> text[0] != 48
  {
    if n < 10 then [48 + n] else Decimal(n / 10) + [48 + n % 10]
  }

  /** The number that decimal digits stand for. */
  function Parse(text: seq<Byte>): int {
    if text == [] then 0 else 10 * Parse(text[..|text| - 1]) + (text[|text| - 1] as int - 48)
  }

  lemma {:induction false} DecimalParses(n: nat)
    ensures Parse(Decimal(n)) == n
    ensures forall k :: 0 <= k < |Decimal(n)| ==> 48 <= Decimal(n)[k] <= 57
  {
    var text := Decimal(n);
    if n < 10 {
      assert text[..0] == [];
    } else {
      DecimalParses(n / 10);
      assert text[..|text| - 1] == Decimal(n / 10);
    }
  }

  // ----- Digits with leading zeros -----

  /** n without its last k digits, and its last k digits. */
  function Upper(n: nat, k: nat): nat { Quotient(n, Pow10(k)) }

  function Lower(n: nat, k: nat): nat { Remainder(n, Pow10(k)) }

  function Quotient(n: nat, m: nat): nat
    requires m > 0
  {
    n / m
  }

  function Remainder(n: nat, m: nat): nat
    requires m > 0
  {
    n % m
  }

  function Pow10(k: nat): nat
    ensures Pow10(k) > 0
  {
    if k == 0 then 1 else 10 * Pow10(k - 1)
  }

  function Fixed(n: nat, width: nat): (text: seq<Byte>)
    ensures |text| == width
  {
    if width == 0 then [] else Fixed(n / 10, width - 1) + [48 + n % 10]
  }

  lemma {:induction false} LeadingZeros(n: nat, width: nat, j: nat)
    requires n < Pow10(width) && j < width
    requires (forall k :: 0 <= k < j ==> Fixed(n, width)[k] == 48) && Fixed(n, width)[j] != 48
    ensures Decimal(n) == Fixed(n, width)[j..]
  {
    var before, all := Fixed(n / 10, width - 1), Fixed(n, width);
    assert forall k :: 0 <= k < width - 1 ==> all[k] == before[k];
    if n < 10 {
      AllZeros(n / 10, width - 1);
    } else if j < width - 1 {
      LeadingZeros(n / 10, width - 1, j);
    } else {
      OnlyZeros(n / 10, width - 1);
    }
  }

  lemma {:induction false} AllZeros(n: nat, width: nat)
    requires n == 0
    ensures forall k :: 0 <= k < width ==> Fixed(n, width)[k] == 48
  {
    if width > 0 {
      AllZeros(0, width - 1);
    }
  }

  lemma {:induction false} OnlyZeros(n: nat, width: nat)
    requires n < Pow10(width) && forall k :: 0 <= k < width ==> Fixed(n, width)[k] == 48
    ensures n == 0
  {
    if width > 0 {
      var before, all := Fixed(n / 10, width - 1), Fixed(n, width);
      assert forall k :: 0 <= k < width - 1 ==> all[k] == before[k];
      OnlyZeros(n / 10, width - 1);
      assert all[width - 1] == 48 + n % 10;
    }
  }

  // ----- Division -----

  lemma Scaled(m: nat, a: int, b: int)
    requires a <= b
    ensures m * a <= m * b
  {
  }

  lemma DivisionIs(a: nat, m: nat, q: nat, r: nat)
    requires m > 0 && a == m * q + r && r < m
    ensures a / m == q && a % m == r
  {
    var q', r' := a / m, a % m;
    assert a == m * q' + r';
    if q' < q {
      Scaled(m, q' + 1, q);
    } else if q' > q {
      Scaled(m, q + 1, q');
    }
  }

  /** Dividing what is left by the next lower power of ten. */
  lemma NextDigit(n: nat, m: nat)
    requires m > 0
    ensures (n % (10 * m)) / m == (n / m) % 10 && n / (10 * m) == (n / m) / 10 && (n % (10 * m)) % m == n % m
    ensures (n % (10 * m)) / m < 10
  {
    var q, r := n / (10 * m), n % (10 * m);
    Divides(n, 10 * m);
    Divides(r, m);
    DigitsOf(n, m, q, r, r / m, r % m);
  }

  lemma Divides(a: nat, m: nat)
    requires m > 0
    ensures a == m * (a / m) + a % m && a % m < m && a / m >= 0
  {
  }

  lemma DigitsOf(n: nat, m: nat, q: int, r: nat, d: int, e: nat)
    requires m > 0 && q >= 0 && d >= 0 && e < m && r < 10 * m
    requires n == (10 * m) * q + r && r == m * d + e
    ensures d < 10 && n / m == 10 * q + d && n % m == e && (10 * q + d) % 10 == d && (10 * q + d) / 10 == q
  {
    if d >= 10 {
      Scaled(m, 10, d);
    }
    Regroup(m, q, d);
    DivisionIs(n, m, 10 * q + d, e);
  }

  lemma Regroup(m: nat, q: nat, d: nat)
    ensures m * (10 * q + d) == (10 * m) * q + m * d
  {
  }

  // ----- Words in the buffer -----

  function Word(bytes: seq<Byte>): int {
    if bytes == [] then 0 else bytes[0] + 256 * Word(bytes[1..])
  }

  /** The bytes of a string value at `at`: eight bytes of length, then that many characters. */
  ghost predicate HoldsString(buffer: seq<Byte>, at: nat, text: seq<Byte>) {
    && at + 8 + |text| <= |buffer| && Word(buffer[at..at + 8]) == |text| && buffer[at + 8..at + 8 + |text|] == text
  }

  /** Store a small word, low byte first. */
  method StoreWord(buffer: array<Byte>, at: nat, word: Byte)
    requires at + 8 <= buffer.Length
    modifies buffer
    ensures Word(buffer[at..at + 8]) == word
    ensures forall k :: 0 <= k < buffer.Length && !(at <= k < at + 8) ==> buffer[k] == old(buffer[k])
  {
    buffer[at] := word;
    for k := 1 to 8
      invariant buffer[at] == word && forall j :: at + 1 <= j < at + k ==> buffer[j] == 0
      invariant forall j :: 0 <= j < buffer.Length && !(at <= j < at + 8) ==> buffer[j] == old(buffer[j])
    {
      buffer[at + k] := 0;
    }
    var bytes := buffer[at..at + 8];
    ZeroWord(bytes[1..]);
  }

  lemma {:induction false} ZeroWord(bytes: seq<Byte>)
    requires forall k :: 0 <= k < |bytes| ==> bytes[k] == 0
    ensures Word(bytes) == 0
  {
    if bytes != [] {
      ZeroWord(bytes[1..]);
    }
  }

  /** After k digits: they are in the buffer, the remainder is at hand, and `first` is the first digit that is not
      zero. */
  ghost predicate Written(buffer: seq<Byte>, n: nat, k: nat, rest: nat, seen: bool, first: nat) {
    && k <= 20 && |buffer| == 29 && buffer[8..8 + k] == Fixed(Upper(n, 20 - k), k) && rest == Lower(n, 20 - k)
    && (if seen then 8 <= first < 8 + k && buffer[first] != 48 && forall j :: 8 <= j < first ==> buffer[j] == 48
        else forall j :: 8 <= j < 8 + k ==> buffer[j] == 48)
  }

  lemma WrittenNext(buffer: seq<Byte>, buffer': seq<Byte>, n: nat, k: nat, rest: nat, seen: bool, first: nat,
                    digit: nat, seen': bool, first': nat)
    requires Written(buffer, n, k, rest, seen, first) && k < 20 && |buffer'| == 29
    requires digit == rest / Pow10(19 - k) && digit < 10 && buffer' == buffer[8 + k := 48 + digit]
    requires if !seen && digit != 0 then seen' && first' == 8 + k else seen' == seen && first' == first
    ensures Written(buffer', n, k + 1, rest % Pow10(19 - k), seen', first')
  {
    var m := Pow10(19 - k);
    assert Pow10(20 - k) == 10 * m;
    NextDigit(n, m);
    hide Pow10;
    assert buffer'[8..8 + k + 1] == buffer[8..8 + k] + [48 + digit];
    assert Upper(n, 20 - k) == Upper(n, 19 - k) / 10 && digit == Upper(n, 19 - k) % 10;
  }

  lemma {:induction false} DigitFits(n: nat, k: nat)
    requires k < 20
    ensures Lower(n, 20 - k) / Pow10(19 - k) < 10
  {
    NextDigit(n, Pow10(19 - k));
  }

  lemma TwentyDigits()
    ensures Pow10(19) == 10000000000000000000 && Pow10(20) > TWO64
  {
    assert Pow10(5) == 100000;
    assert Pow10(10) == 10000000000;
    assert Pow10(15) == 1000000000000000;
  }

  /** Print n: the buffer is the 29 bytes below rbp, and the result is where in it the string value to be put starts. */
  method ProcPrintInt(n: nat) returns (buffer: array<Byte>, at: nat)
    requires n < TWO64
    ensures fresh(buffer) && buffer.Length == 29 && HoldsString(buffer[..], at, Decimal(n) + [10])
  {
    hide Fixed, Pow10, Decimal, Word, Upper, Lower;
    buffer := new Byte[29];
    TwentyDigits();
    var r9: nat, r10: nat, rcx: nat, rbx: nat, rax: nat := 0, 0, 10000000000000000000, 8, n;
    ghost var k := 0;
    Begin(buffer[..], n);
    while rcx != 0
      invariant k <= 20 && rbx == 8 + k && rcx == (if k < 20 then Pow10(19 - k) else 0)
      invariant Written(buffer[..], n, k, rax, r10 != 0, r9)
      decreases 20 - k
    {
      ghost var before := buffer[..];
      var r8 := rax % rcx;
      DigitFits(n, k);
      ghost var rest, seen, first := rax, r10 != 0, r9;
      rax := rax / rcx;
      if r10 == 0 && rax != 0 {
        r10 := r10 + 1;
        r9 := rbx;
      }
      buffer[rbx] := 48 + rax;
      WrittenNext(before, buffer[..], n, k, rest, seen, first, rax, r10 != 0, r9);
      NextPower(k);
      rcx := rcx / 10;
      rax := r8;
      rbx := rbx + 1;
      k := k + 1;
    }
    ghost var digits := buffer[..];
    End(digits, n, rax, r10 != 0, r9);
    if r10 == 0 {
      buffer[28] := 10;
      StoreWord(buffer, 19, 2);
      at := 19;
      assert buffer[27] == digits[27];
      assert buffer[27..29] == Decimal(n) + [10];
    } else {
      buffer[rbx] := 10;
      rax := rbx - r9 + 1;
      r9 := r9 - 8;
      StoreWord(buffer, r9, rax);
      at := r9;
      assert buffer[r9 + 8..28] == digits[r9 + 8..28];
      assert buffer[r9 + 8..29] == Decimal(n) + [10];
    }
  }

  lemma Begin(buffer: seq<Byte>, n: nat)
    requires |buffer| == 29 && n < Pow10(20)
    ensures Written(buffer, n, 0, n, false, 0)
  {
    hide Pow10;
    SmallDivision(n, Pow10(20));
  }

  lemma SmallDivision(n: nat, m: nat)
    requires n < m
    ensures n / m == 0 && n % m == n
  {
    DivisionIs(n, m, 0, n);
  }

  lemma NextPower(k: nat)
    requires k < 20
    ensures Pow10(19 - k) / 10 == if k < 19 then Pow10(18 - k) else 0
  {
  }

  lemma Everything(n: nat)
    ensures Upper(n, 0) == n
  {
  }

  lemma End(buffer: seq<Byte>, n: nat, rest: nat, seen: bool, first: nat)
    requires Written(buffer, n, 20, rest, seen, first) && n < Pow10(20)
    ensures seen ==> Decimal(n) == buffer[first..28]
    ensures !seen ==> Decimal(n) == [48] && buffer[27] == 48
  {
    var fixed := Fixed(n, 20);
    Everything(n);
    hide Pow10, Fixed, Upper;
    if seen {
      forall k | 0 <= k < first - 8 ensures fixed[k] == 48 {
        assert fixed[k] == buffer[8 + k];
      }
      assert fixed[first - 8] == buffer[first];
      LeadingZeros(n, 20, first - 8);
      assert buffer[8..28][first - 8..] == buffer[first..28];
    } else {
      forall k | 0 <= k < 20 ensures fixed[k] == 48 {
        assert fixed[k] == buffer[8 + k];
      }
      OnlyZeros(n, 20);
    }
  }
}
