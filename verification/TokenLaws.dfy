/** What the pieces of tokens are, said without the functions that measure them. */
module TokenLaws {
  import opened Tokenizers

  // ----- Characters and boundaries -----

  lemma CharactersAre(c: char)
    ensures IsSpace(c) <==> c in {' ', '\t', '\n', '\U{0b}', '\U{0c}', '\r', '\U{85}', '\U{a0}'}
    ensures IsDigit(c) <==> c in {'0', '1', '2', '3', '4', '5', '6', '7', '8', '9'}
  {
  }

  /** The boundaries: thirteen of two characters and twenty-three of one. */
  lemma BoundariesAre(e: string)
    ensures e in BOUNDARIES <==>
      || e in {"//", "->", "+=", "-=", "==", "<=", ">=", "!=", "&&", "||", ":=", "::", ".."}
      || (|e| == 1 && e[0] in {'+', '<', '.', '>', '-', '*', '/', '#', '&', '^', '%', '$', '|', '@', '(', ')', ',',
                               '=', '!', '[', ']', '{', '}'})
  {
    if |e| == 1 {
      assert e == [e[0]];
    }
  }

  // ----- Numbers -----

  lemma {:induction false} DigitsAreLongest(s: string)
    ensures var n := DigitLen(s); (forall k :: 0 <= k < n ==> IsDigit(s[k])) && (n < |s| ==> !IsDigit(s[n]))
  {
    hide IsDigit;
    if s != [] && IsDigit(s[0]) {
      DigitsAreLongest(s[1..]);
      var n := DigitLen(s);
      assert forall k :: 0 < k < n ==> s[k] == s[1..][k - 1];
    }
  }

  /** Digits with at most one dot, as many as there are. */
  lemma NumberIsLongest(s: string)
    ensures var n := NumberLen(s, false);
      && (forall k :: 0 <= k < n ==> IsDigit(s[k]) || s[k] == '.')
      && (forall j, k :: 0 <= j < k < n ==> s[j] != '.' || s[k] != '.')
      && (n < |s| ==> !IsDigit(s[n]) && (s[n] == '.' ==> '.' in s[..n]))
  {
    NumberFrom(s, false);
  }

  lemma {:induction false} NumberFrom(s: string, seenDot: bool)
    ensures var n := NumberLen(s, seenDot);
      && (forall k :: 0 <= k < n ==> IsDigit(s[k]) || s[k] == '.')
      && (forall j, k :: 0 <= j < k < n ==> s[j] != '.' || s[k] != '.')
      && (seenDot ==> '.' !in s[..n])
      && (n < |s| ==> !IsDigit(s[n]) && (s[n] == '.' ==> seenDot || '.' in s[..n]))
  {
    var n := NumberLen(s, seenDot);
    if n > 0 {
      var t := s[1..];
      NumberFrom(t, seenDot || s[0] == '.');
      assert NumberLen(t, seenDot || s[0] == '.') == n - 1;
      assert s[..n] == [s[0]] + t[..n - 1];
      forall k | 0 < k < n ensures s[k] == t[k - 1] && t[k - 1] in t[..n - 1] {
        assert t[..n - 1][k - 1] == t[k - 1];
      }
    }
  }

  // ----- Strings -----

  /** How many backslashes stand right before k. */
  function Backslashes(s: string, k: nat): nat
    requires k <= |s|
  {
    if k == 0 || s[k - 1] != '\\' then 0 else Backslashes(s, k - 1) + 1
  }

  /** An odd number of backslashes right before a quote makes it part of the string. */
  predicate Closes(s: string, k: nat)
    requires k < |s|
  {
    s[k] == '"' && Backslashes(s, k) % 2 == 0
  }

  /** A string ends with the first quote that closes it; without one there is no end. */
  lemma {:induction false} QuoteIsFirst(s: string)
    ensures EndsAtFirst(s, QuoteLen(s))
    decreases |s|
  {
    hide EndsAtFirst;
    if s == [] || s == "\\" || s[0] == '"' {
      QuoteAtOnce(s);
    } else if s[0] == '\\' {
      QuoteIsFirst(s[2..]);
      EndsAfter(s, 2, QuoteLen(s[2..]));
    } else {
      QuoteIsFirst(s[1..]);
      EndsAfter(s, 1, QuoteLen(s[1..]));
    }
  }

  /** The first n characters are those up to the first quote that closes, or there is none and n is 0. */
  ghost predicate EndsAtFirst(s: string, n: nat) {
    && (n > 0 ==> n <= |s| && Closes(s, n - 1))
    && (forall k :: 0 <= k < |s| && Closes(s, k) ==> n > 0 && n - 1 <= k)
  }

  lemma QuoteAtOnce(s: string)
    requires s == [] || s == "\\" || s[0] == '"'
    ensures EndsAtFirst(s, QuoteLen(s))
  {
    if s == "\\" {
      assert forall k :: 0 <= k < |s| ==> !Closes(s, k);
    }
  }

  /** Nothing that is passed over closes. */
  lemma EndsAfter(s: string, passed: nat, n: nat)
    requires passed <= |s| && EndsAtFirst(s[passed..], n)
    requires if passed == 2 then |s| >= 2 && s[0] == '\\' else passed == 1 && s[0] != '\\' && s[0] != '"'
    ensures EndsAtFirst(s, if n == 0 then 0 else n + passed)
  {
    hide Backslashes;
    forall k | passed <= k < |s| ensures Closes(s, k) == Closes(s[passed..], k - passed) {
      if passed == 2 {
        BackslashesAfterPair(s, k);
      } else {
        BackslashesAfterOther(s, k);
      }
    }
    if passed == 2 {
      OneBackslash(s);
    }
    assert forall k :: 0 <= k < passed ==> !Closes(s, k);
  }

  lemma OneBackslash(s: string)
    requires |s| >= 2 && s[0] == '\\'
    ensures Backslashes(s, 1) == 1
  {
    assert Backslashes(s, 0) == 0;
  }

  lemma {:induction false} BackslashesAfterOther(s: string, k: nat)
    requires 1 <= k <= |s| && s[0] != '\\'
    ensures Backslashes(s, k) == Backslashes(s[1..], k - 1)
  {
    if k > 1 && s[k - 1] == '\\' {
      BackslashesAfterOther(s, k - 1);
    }
  }

  lemma {:induction false} BackslashesAfterPair(s: string, k: nat)
    requires 2 <= k <= |s| && s[0] == '\\'
    ensures Backslashes(s, k) % 2 == Backslashes(s[2..], k - 2) % 2
  {
    if k > 2 {
      if s[k - 1] == '\\' {
        BackslashesAfterPair(s, k - 1);
      }
    } else {
      assert Backslashes(s, 1) == 1;
    }
  }

  // ----- What stops the tokenizer -----

  /** A dot before a digit, in a token that is no number. */
  ghost predicate MemberAtDigit(s: string, i: nat) {
    i + 1 < |s| && Plain(s, i) && s[i] == '.' && IsDigit(s[i + 1]) && !AllDigits(s[..i])
  }

  /** There is no token exactly when a string is not closed, or a dot in a word comes before a digit. */
  lemma FirstFails(s: string)
    requires EndsLine(s) && !IsSpace(s[0])
    ensures First(s) == Wrong(0, UnmatchedQuote) <==>
      s[0] == '"' && forall k :: 0 <= k < |s| - 1 ==> !Closes(s[1..], k)
    ensures forall at: nat :: First(s) == Wrong(at, MemberBeginsWithDigit) <==>
      s[0] != '"' && !(s[0] == '-' && IsDigit(s[1])) && at > 0 && MemberAtDigit(s, at - 1)
    ensures First(s).Wrong? && First(s).problem == UnmatchedQuote ==> First(s).at == 0
  {
    hide IsSpace, IsDigit, BoundaryLen, Scan, QuoteLen, NumberLen, Closes, MemberAtDigit;
    NewlineIsSpace();
    QuoteIsFirst(s[1..]);
    forall at: nat
      ensures Scan(s, 0) == Wrong(at, MemberBeginsWithDigit) <==> at > 0 && MemberAtDigit(s, at - 1)
    {
      ScanFails(s, 0, at);
    }
    ScanFails(s, 0, 0);
  }

  lemma {:induction false} ScanFails(s: string, i: nat, at: nat)
    requires EndsLine(s) && i < |s| && (i == 0 ==> !IsSpace(s[0])) && Plain(s, i)
    ensures Scan(s, i) == Wrong(at, MemberBeginsWithDigit) <==> at > i && MemberAtDigit(s, at - 1)
    ensures Scan(s, i).Wrong? ==> Scan(s, i).problem == MemberBeginsWithDigit
    decreases |s| - i
  {
    hide IsSpace, IsDigit, BoundaryLen, DigitLen, AllDigits;
    NewlineIsSpace();
    if s[i] == '.' {
      CharactersAre('.');
      DotIsBoundary(s[i..]);
    }
    if !IsSpace(s[i]) && BoundaryLen(s[i..]) == 0 {
      ScanFails(s, i + 1, at);
    }
  }

  lemma DotIsBoundary(s: string)
    requires s != [] && s[0] == '.'
    ensures BoundaryLen(s) > 0
  {
    hide BoundaryLen;
    BoundariesAre(".");
    BoundaryIsLongest(s, ".");
  }
}
