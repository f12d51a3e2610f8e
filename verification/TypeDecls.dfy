/** Type declarations: stars, then array sizes, then the declaration of what the array contains. */
module TypeDecls {
  import opened Options

  /** A run of sizes belongs to one array. */
  datatype TypeDecl =
    | Named(levelOfIndirection: nat, base: string)
    | ArrayOf(levelOfIndirection: nat, sizes: seq<int>, contained: TypeDecl)

  predicate Canonical(d: TypeDecl) {
    match d
    case Named(_, base) => TokenIsId(base)
    case ArrayOf(_, sizes, contained) =>
      && sizes != [] && (forall k :: 0 <= k < |sizes| ==> InRange(sizes[k])) && Canonical(contained)
      && (contained.ArrayOf? ==> contained.levelOfIndirection > 0)
  }

  // ----- Tokens -----

  predicate IsLetter(c: char) { 'a' <= c <= 'z' || 'A' <= c <= 'Z' }

  predicate IsDigit(c: char) { '0' <= c <= '9' }

  predicate TokenIsId(token: string) {
    && token != "" && IsLetter(token[0])
    && forall k :: 0 <= k < |token| ==> IsLetter(token[k]) || IsDigit(token[k]) || token[k] == '_'
  }

  predicate InRange(n: int) { -0x8000_0000_0000_0000 <= n < 0x8000_0000_0000_0000 }

  function Digits(n: nat): (text: string)
    ensures text != "" && forall k :: 0 <= k < |text| ==> IsDigit(text[k])
  {
    if n < 10 then [('0' as int + n) as char] else Digits(n / 10) + [('0' as int + n % 10) as char]
  }

  function Itoa(n: int): string {
    if n < 0 then "-" + Digits(-n) else Digits(n)
  }

  function DigitValue(c: char): nat
    requires IsDigit(c)
  {
    c as int - '0' as int
  }

  function ValueOf(digits: string): nat
    requires forall k :: 0 <= k < |digits| ==> IsDigit(digits[k])
  {
    if digits == "" then 0 else 10 * ValueOf(digits[..|digits| - 1]) + DigitValue(digits[|digits| - 1])
  }

  /** A decimal integer of at most 64 bits, with or without a sign. */
  function Atoi(token: string): Option<int> {
    var digits := if token != "" && (token[0] == '-' || token[0] == '+') then token[1..] else token;
    if digits == "" || exists k :: 0 <= k < |digits| && !IsDigit(digits[k]) then None
    else
      var n: int := if token[0] == '-' then -(ValueOf(digits) as int) else ValueOf(digits);
      if InRange(n) then Some(n) else None
  }

  lemma {:induction false} DigitsValue(n: nat)
    ensures ValueOf(Digits(n)) == n
  {
    var text := Digits(n);
    if n < 10 {
      assert text[..0] == "";
    } else {
      DigitsValue(n / 10);
      assert text[..|text| - 1] == Digits(n / 10);
    }
  }

  lemma AtoiItoa(n: int)
    requires InRange(n)
    ensures Atoi(Itoa(n)) == Some(n)
  {
    DigitsValue(if n < 0 then -n else n);
    if n < 0 {
      assert Itoa(n)[1..] == Digits(-n);
    }
  }

  /** Exactly the signed 64-bit numbers can be read. */
  lemma SizesAre64Bit(n: int)
    ensures Atoi(Itoa(n)) == if -9223372036854775808 <= n <= 9223372036854775807 then Some(n) else None
  {
    DigitsValue(if n < 0 then -n else n);
    if n < 0 {
      assert Itoa(n)[1..] == Digits(-n);
    }
  }

  /** Neither a plus sign nor a leading zero changes anything. */
  lemma OtherSpellings(n: nat)
    ensures Atoi("+" + Itoa(n)) == Atoi(Itoa(n))
    ensures Atoi("0" + Itoa(n)) == Atoi(Itoa(n))
  {
    hide ValueOf, InRange;
    var digits := Digits(n);
    assert IsDigit(digits[0]) && ("+" + digits)[1..] == digits;
    LeadingZero(digits);
    var zero := "0" + digits;
    assert forall k :: 0 <= k < |zero| ==> IsDigit(zero[k]);
    assert Atoi(digits) == if InRange(ValueOf(digits)) then Some(ValueOf(digits)) else None;
  }

  lemma {:induction false} LeadingZero(digits: string)
    requires forall k :: 0 <= k < |digits| ==> IsDigit(digits[k])
    ensures ValueOf("0" + digits) == ValueOf(digits)
  {
    var text, n := "0" + digits, |digits|;
    if n == 0 {
      assert text[..0] == "" && text[0] == '0';
    } else {
      assert text[..n] == "0" + digits[..n - 1];
      LeadingZero(digits[..n - 1]);
    }
  }

  /** By character codes: A to Z are 65 to 90, a to z are 97 to 122, 0 to 9 are 48 to 57, and 95 is the underscore. */
  predicate LetterCode(n: int) { 65 <= n <= 90 || 97 <= n <= 122 }

  /** A name begins with a letter and goes on with letters, digits and underscores. */
  lemma NamesAre(token: string)
    ensures TokenIsId(token) <==>
      && token != "" && LetterCode(token[0] as int)
      && forall k :: 0 <= k < |token| ==>
          var n := token[k] as int; LetterCode(n) || 48 <= n <= 57 || n == 95
  {
  }

  // ----- Reading -----

  /** The declaration the tokens spell after `stars` stars. */
  function ReadDecl(toks: seq<string>, stars: nat): Option<TypeDecl>
    decreases |toks|, 1
  {
    if toks == [] then None
    else if toks[0] == "*" then ReadDecl(toks[1..], stars + 1)
    else ReadSizes(toks, stars, [])
  }

  function ReadSizes(toks: seq<string>, stars: nat, sizes: seq<int>): Option<TypeDecl>
    requires toks != []
    decreases |toks|, 0
  {
    if |toks| >= 3 && toks[0] == "[" && toks[2] == "]" then
      match Atoi(toks[1])
      case None => None
      case Some(n) =>
        if |toks| == 3 then None
        else if toks[3] == "[" then ReadSizes(toks[3..], stars, sizes + [n])
        else match ReadDecl(toks[3..], 0) { case None => None case Some(c) => Some(ArrayOf(stars, sizes + [n], c)) }
    else if |toks| > 1 || !TokenIsId(toks[0]) then None
    else Some(Named(stars, toks[0]))
  }

  /** The parser's own loop: one index, and stars and sizes collected on the way. */
  method ParseTypeDecl(tokens: seq<string>, start: nat, end: nat) returns (r: Option<TypeDecl>)
    requires start < end <= |tokens|
    ensures r == ReadDecl(tokens[start..end], 0)
    decreases end - start
  {
    hide Atoi, TokenIsId;
    var indirect: nat, sizes: seq<int> := 0, [];
    var i := start;
    while i < end
      invariant start <= i <= end
      invariant sizes == [] ==> ReadDecl(tokens[start..end], 0) == ReadDecl(tokens[i..end], indirect)
      invariant sizes != [] ==>
          i < end && tokens[i] == "[" && ReadDecl(tokens[start..end], 0) == ReadSizes(tokens[i..end], indirect, sizes)
      invariant i == end ==> tokens[end - 1] == "*"
    {
      var tok := tokens[i];
      ghost var rest := tokens[i..end];
      assert rest[0] == tok && rest[1..] == tokens[i + 1..end];
      if tok == "*" {
        indirect := indirect + 1;
      } else if i + 2 < end && tok == "[" && tokens[i + 2] == "]" {
        assert rest[1] == tokens[i + 1] && rest[2] == "]" && rest[3..] == tokens[i + 3..end];
        var arraySize := Atoi(tokens[i + 1]);
        if arraySize.None? || i + 3 >= end {
          return None;
        }
        sizes := sizes + [arraySize.value];
        assert rest[3] == tokens[i + 3];
        if tokens[i + 3] == "[" {
          i := i + 3;
          continue;
        }
        var containedType := ParseTypeDecl(tokens, i + 3, end);
        if containedType.None? {
          return None;
        }
        return Some(ArrayOf(indirect, sizes, containedType.value));
      } else if i != end - 1 {
        return None;
      } else {
        break;
      }
      i := i + 1;
    }
    var base := tokens[end - 1];
    IsIdFacts(base);
    if !TokenIsId(base) {
      return None;
    }
    return Some(Named(indirect, base));
  }

  lemma IsIdFacts(token: string)
    ensures TokenIsId(token) ==> token != "*" && token != "["
  {
    if TokenIsId(token) {
      assert IsLetter(token[0]);
    }
  }

  // ----- Printing -----

  function Stars(n: nat): (toks: seq<string>)
    ensures |toks| == n && forall k :: 0 <= k < n ==> toks[k] == "*"
  {
    if n == 0 then [] else ["*"] + Stars(n - 1)
  }

  function PrintSizes(sizes: seq<int>): seq<string> {
    if sizes == [] then [] else ["[", Itoa(sizes[0]), "]"] + PrintSizes(sizes[1..])
  }

  function Print(d: TypeDecl): (toks: seq<string>)
    ensures toks != []
  {
    match d
    case Named(stars, base) => Stars(stars) + [base]
    case ArrayOf(stars, sizes, contained) => Stars(stars) + (PrintSizes(sizes) + Print(contained))
  }

  lemma {:induction false} ReadStars(n: nat, rest: seq<string>, stars: nat)
    ensures ReadDecl(Stars(n) + rest, stars) == ReadDecl(rest, stars + n)
    decreases n
  {
    if n > 0 {
      assert (Stars(n) + rest)[1..] == Stars(n - 1) + rest;
      ReadStars(n - 1, rest, stars + 1);
    } else {
      assert Stars(0) + rest == rest;
    }
  }

  lemma {:induction false} ReadAllSizes(sizes: seq<int>, rest: seq<string>, stars: nat, before: seq<int>)
    requires sizes != [] && rest != [] && rest[0] != "[" && forall k :: 0 <= k < |sizes| ==> InRange(sizes[k])
    ensures ReadSizes(PrintSizes(sizes) + rest, stars, before) ==
            match ReadDecl(rest, 0) { case None => None case Some(c) => Some(ArrayOf(stars, before + sizes, c)) }
    decreases |sizes|
  {
    hide Atoi, Itoa, InRange;
    AtoiItoa(sizes[0]);
    var next := PrintSizes(sizes[1..]) + rest;
    var toks := PrintSizes(sizes) + rest;
    assert toks == ["[", Itoa(sizes[0]), "]"] + next;
    assert toks[3..] == next;
    assert sizes == [sizes[0]] + sizes[1..];
    if sizes[1..] == [] {
      assert next == rest;
      assert before + sizes == before + [sizes[0]];
    } else {
      assert next[0] == "[";
      ReadAllSizes(sizes[1..], rest, stars, before + [sizes[0]]);
      assert before + [sizes[0]] + sizes[1..] == before + sizes;
    }
  }

  /** Printing a canonical declaration and reading the tokens gives it back. */
  lemma {:induction false} PrintReads(d: TypeDecl)
    requires Canonical(d)
    ensures ReadDecl(Print(d), 0) == Some(d)
    decreases d
  {
    hide Atoi, InRange;
    match d
    case Named(stars, base) =>
      IsIdFacts(base);
      ReadStars(stars, [base], 0);
    case ArrayOf(stars, sizes, contained) =>
      var rest := Print(contained);
      PrintReads(contained);
      FirstToken(contained);
      ReadStars(stars, PrintSizes(sizes) + rest, 0);
      ReadAllSizes(sizes, rest, stars, []);
      assert (PrintSizes(sizes) + rest)[0] == "[";
      assert [] + sizes == sizes;
  }

  lemma FirstToken(d: TypeDecl)
    requires Canonical(d) && (d.ArrayOf? ==> d.levelOfIndirection > 0)
    ensures Print(d)[0] != "["
  {
    match d
    case Named(stars, base) => IsIdFacts(base);
    case ArrayOf(stars, sizes, contained) =>
  }

  /** The same token, or two spellings of one size. */
  predicate SameToken(a: string, b: string) {
    a == b || (Atoi(a).Some? && Atoi(a) == Atoi(b))
  }

  predicate SameTokens(a: seq<string>, b: seq<string>) {
    |a| == |b| && forall k :: 0 <= k < |a| ==> SameToken(a[k], b[k])
  }

  /** Whatever is read is canonical, and the tokens are its print but for how sizes are written. */
  lemma {:induction false} ReadsOnlyPrints(toks: seq<string>, stars: nat)
    requires ReadDecl(toks, stars).Some?
    ensures var d := ReadDecl(toks, stars).value;
      Canonical(d) && d.levelOfIndirection >= stars && SameTokens(Stars(stars) + toks, Print(d))
      && (toks[0] == "*" ==> d.levelOfIndirection > stars)
    decreases |toks|, 1
  {
    hide Atoi, Itoa, InRange;
    if toks[0] == "*" {
      ReadsOnlyPrints(toks[1..], stars + 1);
      MoreStars(stars);
      assert Stars(stars) + toks == Stars(stars + 1) + toks[1..];
    } else {
      SizesReadOnlyPrints(toks, stars, []);
      assert Stars(stars) + toks == Stars(stars) + (PrintSizes([]) + toks);
    }
  }

  lemma {:induction false} MoreStars(n: nat)
    ensures Stars(n + 1) == Stars(n) + ["*"]
  {
    if n > 0 {
      MoreStars(n - 1);
    }
  }

  lemma {:induction false} MoreSizes(sizes: seq<int>, n: int)
    ensures PrintSizes(sizes + [n]) == PrintSizes(sizes) + ["[", Itoa(n), "]"]
  {
    if sizes == [] {
      assert [n][1..] == [];
    } else {
      assert (sizes + [n])[1..] == sizes[1..] + [n];
      MoreSizes(sizes[1..], n);
    }
  }

  lemma {:induction false} SizesReadOnlyPrints(toks: seq<string>, stars: nat, sizes: seq<int>)
    requires toks != [] && toks[0] != "*" && ReadSizes(toks, stars, sizes).Some?
    requires (forall k :: 0 <= k < |sizes| ==> InRange(sizes[k])) && (sizes != [] ==> toks[0] == "[")
    ensures var d := ReadSizes(toks, stars, sizes).value;
      Canonical(d) && d.levelOfIndirection == stars && SameTokens(Stars(stars) + (PrintSizes(sizes) + toks), Print(d))
    decreases |toks|, 0
  {
    hide Itoa, InRange, Stars, Print, PrintSizes, SameTokens, Atoi, TokenIsId, Canonical;
    if |toks| >= 3 && toks[0] == "[" && toks[2] == "]" {
      var n := Atoi(toks[1]).value;
      var more := sizes + [n];
      var here, next := Stars(stars) + (PrintSizes(sizes) + toks), Stars(stars) + (PrintSizes(more) + toks[3..]);
      AtoiInRange(toks[1]);
      AtoiItoa(n);
      MoreSizes(sizes, n);
      SameAfterSizes(Stars(stars), PrintSizes(sizes), toks, Itoa(n));
      if toks[3] == "[" {
        SizesReadOnlyPrints(toks[3..], stars, more);
        SameTrans(here, next, Print(ReadSizes(toks, stars, sizes).value));
      } else {
        ReadsOnlyPrints(toks[3..], 0);
        var c := ReadDecl(toks[3..], 0).value;
        ReadArrayHasStars(toks[3..]);
        NoStars(toks[3..]);
        ContainedPrints(toks[3..], stars, more, c);
        SameTrans(here, next, Print(ArrayOf(stars, more, c)));
      }
    } else {
      BasePrints(toks, stars, sizes);
    }
  }

  lemma BasePrints(toks: seq<string>, stars: nat, sizes: seq<int>)
    requires |toks| == 1 && TokenIsId(toks[0]) && (sizes != [] ==> toks[0] == "[")
    ensures Canonical(Named(stars, toks[0])) && SameTokens(Stars(stars) + (PrintSizes(sizes) + toks),
        Print(Named(stars, toks[0])))
  {
    hide Itoa;
    IsIdFacts(toks[0]);
    assert PrintSizes([]) + toks == toks == [toks[0]];
    SameSelf();
  }

  lemma ContainedPrints(toks: seq<string>, stars: nat, sizes: seq<int>, c: TypeDecl)
    requires Canonical(c) && SameTokens(toks, Print(c)) && (c.ArrayOf? ==> c.levelOfIndirection > 0)
    requires sizes != [] && forall k :: 0 <= k < |sizes| ==> InRange(sizes[k])
    ensures Canonical(ArrayOf(stars, sizes, c)) && SameTokens(Stars(stars) + (PrintSizes(sizes) + toks),
        Print(ArrayOf(stars, sizes, c)))
  {
    hide InRange, SameTokens, Stars, PrintSizes, TokenIsId;
    SameAfter(PrintSizes(sizes), toks, Print(c));
    SameAfter(Stars(stars), PrintSizes(sizes) + toks, PrintSizes(sizes) + Print(c));
  }

  lemma NoStars(toks: seq<string>)
    ensures Stars(0) + toks == toks
  {
    assert Stars(0) == [];
  }

  /** A contained array has been read after at least one star. */
  lemma ReadArrayHasStars(toks: seq<string>)
    requires toks != [] && toks[0] != "[" && ReadDecl(toks, 0).Some?
    requires toks[0] == "*" ==> ReadDecl(toks, 0).value.levelOfIndirection > 0
    ensures ReadDecl(toks, 0).value.ArrayOf? ==> ReadDecl(toks, 0).value.levelOfIndirection > 0
  {
    hide Atoi, TokenIsId;
  }

  lemma AtoiInRange(token: string)
    requires Atoi(token).Some?
    ensures InRange(Atoi(token).value)
  {
  }

  lemma SameAfterSizes(a: seq<string>, b: seq<string>, toks: seq<string>, numeral: string)
    requires |toks| > 3 && toks[0] == "[" && toks[2] == "]" && SameToken(toks[1], numeral)
    ensures SameTokens(a + (b + toks), a + (b + ["[", numeral, "]"] + toks[3..]))
  {
    hide SameToken;
    SameSelf();
    var x, y := a + (b + toks), a + (b + ["[", numeral, "]"] + toks[3..]);
    forall k | 0 <= k < |x| ensures SameToken(x[k], y[k]) {
      var j := k - |a| - |b|;
      if j == 1 {
        assert x[k] == toks[1] && y[k] == numeral;
      } else {
        assert x[k] == y[k];
      }
    }
  }

  lemma SameSelf()
    ensures forall a :: SameToken(a, a)
  {
  }

  lemma SameAfter(a: seq<string>, b: seq<string>, c: seq<string>)
    requires SameTokens(b, c)
    ensures SameTokens(a + b, a + c)
  {
    hide SameToken;
    SameSelf();
  }

  lemma SameTrans(a: seq<string>, b: seq<string>, c: seq<string>)
    requires SameTokens(a, b) && SameTokens(b, c)
    ensures SameTokens(a, c)
  {
    hide Atoi;
    forall k | 0 <= k < |a| ensures SameToken(a[k], c[k]) {
      assert SameToken(a[k], b[k]) && SameToken(b[k], c[k]);
    }
  }
}
