/** The scanning loop of the tokenizer, one character at a time: the few variables it keeps between characters, and
    that it gives the tokens of the recursive definition. */
module TokenScans {
  import opened Tokenizers

  // ----- The scanner -----

  function SafeCharAt(s: string, i: nat): char {
    if i < |s| then s[i] else '\0'
  }

  method IAfterWs(s: string, from: nat) returns (i: nat)
    requires from <= |s|
    ensures i == from + SpaceLen(s[from..])
  {
    i := from;
    while i < |s| && IsSpace(s[i])
      invariant from <= i <= |s| && from + SpaceLen(s[from..]) == i + SpaceLen(s[i..])
    {
      assert s[i..][1..] == s[i + 1..];
      i := i + 1;
    }
  }

  method IAfterNumLiteral(s: string, from: nat) returns (i: nat)
    requires from <= |s|
    ensures i == from + NumberLen(s[from..], false)
  {
    var seenDot := false;
    i := from;
    while i < |s|
      invariant from <= i <= |s| && from + NumberLen(s[from..], false) == i + NumberLen(s[i..], seenDot)
    {
      assert s[i..][1..] == s[i + 1..];
      if s[i] == '.' {
        if seenDot {
          break;
        }
        seenDot := true;
      } else if !IsDigit(s[i]) {
        break;
      }
      i := i + 1;
    }
  }

  method AfterDigits(s: string, from: nat) returns (k: nat)
    requires from <= |s|
    ensures k == from + DigitLen(s[from..])
  {
    k := from;
    while k < |s|
      invariant from <= k <= |s| && from + DigitLen(s[from..]) == k + DigitLen(s[k..])
    {
      assert s[k..][1..] == s[k + 1..];
      if !IsDigit(s[k]) {
        break;
      }
      k := k + 1;
    }
  }

  /** Just after the closing quote, when there is one. */
  method AfterQuote(s: string, from: nat) returns (found: bool, k: nat)
    requires from <= |s|
    ensures found <==> QuoteLen(s[from..]) > 0
    ensures found ==> k == from + QuoteLen(s[from..])
  {
    k := from;
    while k < |s|
      invariant from <= k
      invariant k <= |s| ==> (QuoteLen(s[from..]) > 0 <==> QuoteLen(s[k..]) > 0)
      invariant k <= |s| && QuoteLen(s[k..]) > 0 ==> from + QuoteLen(s[from..]) == k + QuoteLen(s[k..])
      invariant k > |s| ==> QuoteLen(s[from..]) == 0
    {
      var c := s[k];
      if c == '\\' {
        assert k + 2 <= |s| ==> s[k..][2..] == s[k + 2..];
        k := k + 2;
      } else if c == '"' {
        return true, k + 1;
      } else {
        assert s[k..][1..] == s[k + 1..];
        k := k + 1;
      }
    }
    found := false;
  }

  method IsAllDigits(s: string, from: nat, to: nat) returns (yes: bool)
    requires from <= to <= |s|
    ensures yes <==> AllDigits(s[from..to])
  {
    for j := from to to
      invariant AllDigits(s[from..j])
    {
      assert s[from..j + 1] == s[from..j] + [s[j]];
      if !IsDigit(s[j]) {
        assert s[j] in s[from..to] by { assert s[from..to][j - from] == s[j]; }
        return false;
      }
    }
    yes := true;
  }

  /** The length of the first boundary in the table that stands at i. */
  method MatchBoundary(s: string, i: nat) returns (n: nat)
    requires i <= |s|
    ensures n == BoundaryLen(s[i..])
  {
    assert BOUNDARIES[0..] == BOUNDARIES;
    for k := 0 to |BOUNDARIES|
      invariant BoundaryLen(s[i..]) == FrontLen(s[i..], BOUNDARIES[k..])
    {
      var bound := BOUNDARIES[k];
      assert BOUNDARIES[k..][0] == bound && BOUNDARIES[k..][1..] == BOUNDARIES[k + 1..];
      if bound <= s[i..] {
        return |bound|;
      }
    }
    n := 0;
  }

  /** What follows in a line from inside a token that starts at `start`, of which the part before i has been passed. */
  ghost function Ahead(text: string, start: nat, i: nat): Result
    requires EndsLine(text) && start <= i < |text| && !IsSpace(text[start])
  {
    var s := text[start..];
    Follow(s, start, if i == start then First(s) else Scan(s, i - start))
  }

  /** A token has been cut off, and the rest follows. */
  lemma AfterCut(text: string, start: nat, end: nat, list: seq<string>, starts: seq<nat>)
    requires EndsLine(text) && start < end <= |text|
    ensures Prepend(list, starts, Follow(text[start..], start, Cut(end - start, 0, false))) ==
      Prepend(list + [text[start..end]], starts + [start], Rest(text[end..], end))
  {
    hide Rest;
    var s := text[start..];
    assert s[end - start..] == text[end..] && s[..end - start] == text[start..end];
    PrependPrepend(list, starts, [text[start..end]], [start], Rest(text[end..], end));
  }

  lemma PrependNothing(r: Result)
    ensures Prepend([], [], r) == r
  {
    if r.Tokens? {
      assert [] + r.list == r.list && [] + r.starts == r.starts;
    }
  }

  lemma PrependPrepend(list: seq<string>, starts: seq<nat>, more: seq<string>, moreStarts: seq<nat>, r: Result)
    ensures Prepend(list, starts, Prepend(more, moreStarts, r)) == Prepend(list + more, starts + moreStarts, r)
  {
    if r.Tokens? {
      assert list + (more + r.list) == (list + more) + r.list;
      assert starts + (moreStarts + r.starts) == (starts + moreStarts) + r.starts;
    }
  }

  /** Once the tests for the front of a token are past, only the scan counts. */
  lemma AheadIsScan(text: string, start: nat, i: nat)
    requires EndsLine(text) && start <= i < |text| && !IsSpace(text[start])
    requires i == start ==> text[i] != '"' && !(text[i] == '-' && IsDigit(SafeCharAt(text, i + 1)))
    ensures Ahead(text, start, i) == Follow(text[start..], start, Scan(text[start..], i - start))
  {
    hide Scan, Follow, IsSpace, IsDigit;
    NewlineIsSpace();
  }

  lemma NewlineAhead(text: string, start: nat, i: nat, list: seq<string>, starts: seq<nat>)
    requires EndsLine(text) && start <= i < |text| && !IsSpace(text[start]) && text[i] == '\n'
    ensures Prepend(list, starts, Ahead(text, start, i)) == Tokens(list + [text[start..i]], starts + [start])
  {
    hide IsSpace, First;
    NewlineIsSpace();
    assert text[start..][..i - start] == text[start..i];
  }

  lemma BlankAhead(text: string, start: nat, i: nat, list: seq<string>, starts: seq<nat>)
    requires EndsLine(text) && start <= i < |text| && !IsSpace(text[start]) && IsSpace(text[i]) && text[i] != '\n'
    ensures start < i && Prepend(list, starts, Ahead(text, start, i)) ==
      Prepend(list + [text[start..i]], starts + [start], Rest(text[i..], i))
  {
    hide IsSpace, First, Follow, Rest;
    AfterCut(text, start, i, list, starts);
  }

  lemma NumberAhead(text: string, i: nat, list: seq<string>, starts: seq<nat>)
    requires EndsLine(text) && i < |text| && !IsSpace(text[i])
    requires text[i] == '-' && IsDigit(SafeCharAt(text, i + 1))
    ensures var end := i + 1 + NumberLen(text[i + 1..], false);
      Prepend(list, starts, Ahead(text, i, i)) == Prepend(list + [text[i..end]], starts + [i], Rest(text[end..], end))
  {
    hide IsSpace, IsDigit, Scan, Follow, Rest, NumberLen;
    assert text[i..][1..] == text[i + 1..];
    AfterCut(text, i, i + 1 + NumberLen(text[i + 1..], false), list, starts);
  }

  lemma QuoteAhead(text: string, i: nat, list: seq<string>, starts: seq<nat>)
    requires EndsLine(text) && i < |text| && !IsSpace(text[i]) && text[i] == '"'
    ensures var n := QuoteLen(text[i + 1..]);
      Prepend(list, starts, Ahead(text, i, i)) ==
      if n == 0 then Failed(i, UnmatchedQuote)
      else Prepend(list + [text[i..i + 1 + n]], starts + [i], Rest(text[i + 1 + n..], i + 1 + n))
  {
    hide IsSpace, IsDigit, Scan, Rest, QuoteLen;
    assert text[i..][1..] == text[i + 1..];
    AfterCut(text, i, i + 1 + QuoteLen(text[i + 1..]), list, starts);
  }

  lemma DotAhead(text: string, start: nat, i: nat, list: seq<string>, starts: seq<nat>)
    requires EndsLine(text) && start <= i < |text| && !IsSpace(text[start])
    requires text[i] == '.' && IsDigit(SafeCharAt(text, i + 1))
    ensures var end := i + 1 + DigitLen(text[i + 1..]);
      Prepend(list, starts, Ahead(text, start, i)) ==
      if AllDigits(text[start..i]) then Prepend(list + [text[start..end]], starts + [start], Rest(text[end..], end))
      else Failed(i + 1, MemberBeginsWithDigit)
  {
    hide IsDigit, Rest, DigitLen, AllDigits;
    var s := text[start..];
    AheadIsScan(text, start, i);
    assert s[..i - start] == text[start..i] && s[i - start + 1..] == text[i + 1..];
    AfterCut(text, start, i + 1 + DigitLen(text[i + 1..]), list, starts);
  }

  /** An ordinary character, past the tests for blanks, the front of a token and a dot before a digit. */
  ghost predicate Ordinary(text: string, start: nat, i: nat) {
    && EndsLine(text) && start <= i < |text| && !IsSpace(text[start]) && !IsSpace(text[i])
    && (i == start ==> text[i] != '"' && !(text[i] == '-' && IsDigit(SafeCharAt(text, i + 1))))
    && !(text[i] == '.' && IsDigit(SafeCharAt(text, i + 1)))
  }

  lemma BoundaryAhead(text: string, start: nat, i: nat, list: seq<string>, starts: seq<nat>)
    requires Ordinary(text, start, i) && BoundaryLen(text[i..]) > 0
    ensures var end := i + BoundaryLen(text[i..]);
      Prepend(list, starts, Ahead(text, start, i)) ==
      if i == start then Prepend(list + [text[i..end]], starts + [i], Rest(text[end..], end))
      else Prepend(list + [text[start..i]] + [text[i..end]], starts + [start] + [i], Rest(text[end..], end))
  {
    hide IsSpace, IsDigit, BoundaryLen, Rest, First;
    var s, b := text[start..], BoundaryLen(text[i..]);
    NewlineIsSpace();
    AheadIsScan(text, start, i);
    assert s[i - start..] == text[i..];
    if i == start {
      AfterCut(text, start, i + b, list, starts);
    } else {
      assert s[..i - start] == text[start..i] && s[i - start..i - start + b] == text[i..i + b];
      assert s[i - start + b..] == text[i + b..];
      PrependPrepend(list, starts, [text[start..i], text[i..i + b]], [start, i], Rest(text[i + b..], i + b));
      assert list + [text[start..i], text[i..i + b]] == list + [text[start..i]] + [text[i..i + b]];
      assert starts + [start, i] == starts + [start] + [i];
    }
  }

  lemma PlainAhead(text: string, start: nat, i: nat)
    requires Ordinary(text, start, i) && BoundaryLen(text[i..]) == 0
    ensures i + 1 < |text| && Ahead(text, start, i) == Ahead(text, start, i + 1)
  {
    hide IsSpace, IsDigit, BoundaryLen, Follow, First;
    NewlineIsSpace();
    AheadIsScan(text, start, i);
    assert text[start..][i - start..] == text[i..];
  }

  class Tokenizer {
    const text: string
    var tokenList: seq<string>
    var indexList: seq<nat>
    var i: nat
    var tokenStart: nat
    var startNewToken: bool

    constructor (input: string)
      requires input != []
      ensures text == Line(input) && tokenList == [] && indexList == [] && i == 0 && startNewToken
    {
      text := if input[|input| - 1] != '\n' then input + "\n" else input;
      tokenList, indexList := [], [];
      i, tokenStart, startNewToken := 0, 0, true;
    }

    ghost predicate Standing()
      reads this
    {
      && EndsLine(text) && |tokenList| == |indexList| && i <= |text|
      && (!startNewToken ==> tokenStart <= i < |text| && !IsSpace(text[tokenStart]))
    }

    /** What the whole scan will give, from where it stands now. */
    ghost function Outcome(): Result
      requires Standing()
      reads this
    {
      Prepend(tokenList, indexList, if startNewToken then Rest(text[i..], i) else Ahead(text, tokenStart, i))
    }

    method AddToken(start: nat, end: nat)
      requires start <= end <= |text|
      modifies this`tokenList, this`indexList, this`startNewToken, this`i
      ensures tokenList == old(tokenList) + [text[start..end]] && indexList == old(indexList) + [start]
      ensures startNewToken && i == end
    {
      tokenList, indexList := tokenList + [text[start..end]], indexList + [start];
      startNewToken := true;
      i := end;
    }

    /** Pass the blanks before a token. */
    method BeginToken()
      requires Standing() && startNewToken
      modifies this`i, this`tokenStart, this`startNewToken
      ensures i >= old(i)
      ensures i < |text| ==> Standing() && !startNewToken && tokenStart == i && Outcome() == old(Outcome())
      ensures i >= |text| ==> old(Outcome()) == Tokens(tokenList, indexList)
    {
      hide IsSpace, First, Follow;
      i := IAfterWs(text, i);
      tokenStart := i;
      startNewToken := false;
      assert text[old(i)..][i - old(i)..] == text[i..];
      assert tokenList + [] == tokenList && indexList + [] == indexList;
    }

    /** At the front of a token: a negative number or a string. */
    method AdvanceAtFront() returns (stop: bool, r: Result)
      requires Standing() && !startNewToken && i == tokenStart
      requires (text[i] == '-' && IsDigit(SafeCharAt(text, i + 1))) || text[i] == '"'
      modifies this
      ensures stop ==> r == old(Outcome())
      ensures !stop ==> Standing() && Outcome() == old(Outcome()) && i > old(i)
    {
      hide IsSpace, IsDigit, First, Scan, Follow, Rest, BoundaryLen, NumberLen, QuoteLen, SafeCharAt, Prepend, Ahead;
      stop, r := false, Tokens([], []);
      if text[i] == '-' && IsDigit(SafeCharAt(text, i + 1)) {
        var numLitEnd := IAfterNumLiteral(text, i + 1);
        NumberAhead(text, i, tokenList, indexList);
        AddToken(tokenStart, numLitEnd);
      } else {
        var found, k := AfterQuote(text, i + 1);
        QuoteAhead(text, i, tokenList, indexList);
        if !found {
          return true, Failed(i, UnmatchedQuote);
        }
        AddToken(tokenStart, k);
      }
    }

    /** Look at one character. */
    method Advance() returns (stop: bool, r: Result)
      requires Standing() && !startNewToken
      modifies this
      ensures stop ==> r == old(Outcome())
      ensures !stop ==> Standing() && Outcome() == old(Outcome())
      ensures !stop ==> i > old(i) || (i == old(i) > old(tokenStart) && startNewToken)
    {
      hide IsSpace, IsDigit, First, Scan, Follow, Rest, BoundaryLen, NumberLen, QuoteLen, DigitLen, AllDigits,
          SafeCharAt, Prepend, Ahead;
      var c := text[i];
      stop, r := false, Tokens([], []);
      if c == '\n' {
        NewlineAhead(text, tokenStart, i, tokenList, indexList);
        AddToken(tokenStart, i);
        return true, Tokens(tokenList, indexList);
      }
      if IsSpace(c) {
        BlankAhead(text, tokenStart, i, tokenList, indexList);
        AddToken(tokenStart, i);
        return;
      }
      if i == tokenStart && ((c == '-' && IsDigit(SafeCharAt(text, i + 1))) || c == '"') {
        stop, r := AdvanceAtFront();
        return;
      }
      if c == '.' && IsDigit(SafeCharAt(text, i + 1)) {
        var digits := IsAllDigits(text, tokenStart, i);
        DotAhead(text, tokenStart, i, tokenList, indexList);
        if !digits {
          return true, Failed(i + 1, MemberBeginsWithDigit);
        }
        var k := AfterDigits(text, i + 1);
        AddToken(tokenStart, k);
        return;
      }
      var b := MatchBoundary(text, i);
      if b > 0 {
        BoundaryAhead(text, tokenStart, i, tokenList, indexList);
        if i == tokenStart {
          AddToken(tokenStart, tokenStart + b);
        } else {
          AddToken(tokenStart, i);
          AddToken(i, i + b);
        }
        return;
      }
      PlainAhead(text, tokenStart, i);
      i := i + 1;
    }

    lemma AtStart()
      requires EndsLine(text) && startNewToken && tokenList == [] && indexList == [] && i == 0
      ensures Standing() && Outcome() == Rest(text, 0)
    {
      hide Rest;
      assert text[0..] == text;
      PrependNothing(Rest(text, 0));
    }

    method Tokenize() returns (r: Result)
      requires EndsLine(text) && startNewToken && tokenList == [] && indexList == [] && i == 0
      modifies this
      ensures r == Rest(text, 0)
    {
      hide Rest, Ahead, Outcome;
      AtStart();
      while true
        invariant Standing() && Outcome() == old(Outcome())
        decreases |text| - i, !startNewToken
      {
        if startNewToken {
          BeginToken();
        }
        if i >= |text| {
          break;
        }
        var stop;
        stop, r := Advance();
        if stop {
          return;
        }
      }
      r := Tokens(tokenList, indexList);
    }
  }
}
