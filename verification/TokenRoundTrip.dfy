/** The tokens of a line, written with single blanks between them, are read as the same tokens: none runs on into
    the blank behind it, and none is cut short by it. */
module TokenRoundTrips {
  import opened Tokenizers

  // ----- Tokens come back -----

  /** Followed by any blank, this is read as one token. */
  ghost predicate Whole(t: string) {
    && t != [] && !IsSpace(t[0]) && t[|t| - 1] != '\n'
    && forall tail :: EndsLine(tail) && IsSpace(tail[0]) ==> ReadsAs(t, tail, First(t + tail))
  }

  ghost predicate ReadsAs(t: string, tail: string, p: Piece) {
    p.Cut? && p.word == |t| && p.boundary == 0
  }

  /** No boundary has a blank or begins like a string, and none goes on with a digit. */
  predicate Tidy(e: string) {
    && 1 <= |e| <= 2 && !IsSpace(e[0]) && e[0] != '"'
    && (|e| == 2 ==> !IsSpace(e[1]) && !IsDigit(e[1]))
  }

  lemma BoundariesTidy()
    ensures forall e :: e in BOUNDARIES ==> Tidy(e)
  {
    hide Tidy;
    forall e | e in BOUNDARIES ensures Tidy(e) {
      var k :| 0 <= k < |BOUNDARIES| && BOUNDARIES[k] == e;
      TidyAt(k);
    }
  }

  lemma TidyAt(k: nat)
    requires k < |BOUNDARIES|
    ensures Tidy(BOUNDARIES[k])
  {
  }

  /** What has no blank and is no front of s is no front of a front of s and a blank either. */
  lemma NotThrough(e: string, s: string, t: string, tail: string)
    requires t <= s && tail != [] && IsSpace(tail[0]) && !(e <= s) && Tidy(e)
    ensures !(e <= t + tail)
  {
    assert (t + tail)[|t|] == tail[0];
    assert e <= t + tail && |e| <= |t| ==> e <= t;
  }

  lemma {:induction false} FrontStays(s: string, t: string, tail: string, table: seq<string>)
    requires t <= s && tail != [] && IsSpace(tail[0]) && forall e :: e in table ==> Tidy(e)
    requires FrontLen(s, table) == 0 || FrontLen(s, table) == |t|
    ensures FrontLen(t + tail, table) == FrontLen(s, table)
    ensures FrontLen(s, table) > 0 ==> Tidy(t)
  {
    hide IsSpace, IsDigit;
    if table != [] {
      assert table[0] in table;
      if table[0] <= s {
        assert table[0] == t;
        assert t <= t + tail;
      } else {
        FrontStays(s, t, tail, table[1..]);
        NotThrough(table[0], s, t, tail);
      }
    }
  }

  /** Whether a boundary stands at the front does not depend on what comes after a front that ends in a blank. */
  lemma BoundaryStays(s: string, t: string, tail: string)
    requires t <= s && tail != [] && IsSpace(tail[0])
    requires BoundaryLen(s) == 0 || BoundaryLen(s) == |t|
    ensures BoundaryLen(t + tail) == BoundaryLen(s)
    ensures BoundaryLen(s) > 0 ==> Tidy(t)
  {
    BoundariesTidy();
    FrontStays(s, t, tail, BOUNDARIES);
  }

  lemma {:induction false} DigitsStay(s: string, tail: string)
    requires tail != [] && IsSpace(tail[0])
    ensures var n := DigitLen(s); DigitLen(s[..n] + tail) == n && (n > 0 ==> !IsSpace(s[n - 1]))
  {
    var n := DigitLen(s);
    if n > 0 {
      DigitsStay(s[1..], tail);
      assert (s[..n] + tail)[1..] == s[1..][..n - 1] + tail;
    }
  }

  lemma SpaceIsNoDigit(c: char)
    ensures IsSpace(c) ==> !IsDigit(c)
  {
  }

  lemma DotIsNoSpace()
    ensures !IsSpace('.')
  {
  }

  lemma {:induction false} NumberStays(s: string, seenDot: bool, tail: string)
    requires tail != [] && IsSpace(tail[0])
    ensures var n := NumberLen(s, seenDot); NumberLen(s[..n] + tail, seenDot) == n && (n > 0 ==> !IsSpace(s[n - 1]))
  {
    hide IsSpace, IsDigit;
    SpaceIsNoDigit(tail[0]);
    DotIsNoSpace();
    var n := NumberLen(s, seenDot);
    if n > 0 {
      SpaceIsNoDigit(s[0]);
      NumberStays(s[1..], seenDot || s[0] == '.', tail);
      assert (s[..n] + tail)[1..] == s[1..][..n - 1] + tail;
    }
  }

  lemma {:induction false} QuoteStays(s: string, tail: string)
    requires QuoteLen(s) > 0
    ensures var n := QuoteLen(s); QuoteLen(s[..n] + tail) == n && s[n - 1] == '"'
    decreases |s|
  {
    var n := QuoteLen(s);
    var u := s[..n] + tail;
    if s[0] == '\\' {
      QuoteStays(s[2..], tail);
      assert u[2..] == s[2..][..n - 2] + tail;
    } else if s[0] != '"' {
      QuoteStays(s[1..], tail);
      assert u[1..] == s[1..][..n - 1] + tail;
    }
  }

  /** A text that agrees with s on its first w characters and then has a blank. */
  ghost predicate Agrees(s: string, w: nat, u: string) {
    && 0 < w < |u| && w <= |s| && EndsLine(u) && IsSpace(u[w]) && !IsDigit(u[w])
    && forall k :: 0 <= k < w ==> u[k] == s[k]
  }

  lemma ScanStaysAtDot(s: string, i: nat, u: string)
    requires EndsLine(s) && i < |s| && s[i] == '.' && IsDigit(s[i + 1]) && AllDigits(s[..i])
    requires Agrees(s, i + 1 + DigitLen(s[i + 1..]), u)
    ensures AllDigits(u[..i]) && DigitLen(u[i + 1..]) == DigitLen(s[i + 1..]) > 0
    ensures !IsSpace(s[i + DigitLen(s[i + 1..])])
  {
    var n := DigitLen(s[i + 1..]);
    var w := i + 1 + n;
    DigitsStay(s[i + 1..], u[w..]);
    assert u[..i] == s[..i];
    assert u[i + 1..] == s[i + 1..][..n] + u[w..];
  }

  lemma BoundaryStaysAt(s: string, i: nat, w: nat, u: string)
    requires i < w && Agrees(s, w, u) && (BoundaryLen(s[i..]) == 0 || BoundaryLen(s[i..]) == w - i)
    ensures BoundaryLen(u[i..]) == BoundaryLen(s[i..])
    ensures BoundaryLen(s[i..]) > 0 ==> !IsSpace(s[w - 1])
  {
    hide BoundaryLen;
    assert u[i..] == s[i..w] + u[w..] && s[i..w] <= s[i..];
    BoundaryStays(s[i..], s[i..w], u[w..]);
  }

  lemma {:induction false} ScanStays(s: string, i: nat, u: string)
    requires EndsLine(s) && i < |s| && !IsSpace(s[0]) && (i > 0 ==> !IsSpace(s[i - 1])) && Scan(s, i).Cut?
    requires Agrees(s, Scan(s, i).word, u)
    ensures var p := Scan(u, i); p.Cut? && p.word == Scan(s, i).word && p.boundary == 0
    ensures !IsSpace(s[Scan(s, i).word - 1])
    decreases |s| - i
  {
    hide BoundaryLen, IsSpace, IsDigit, DigitLen, AllDigits;
    var w := Scan(s, i).word;
    if i < w {
      assert u[i] == s[i] && u[0] == s[0];
      assert IsDigit(u[i + 1]) ==> IsDigit(s[i + 1]);
      if s[i] == '.' && IsDigit(s[i + 1]) {
        ScanStaysAtDot(s, i, u);
      } else if BoundaryLen(s[i..]) > 0 {
        BoundaryStaysAt(s, i, w, u);
      } else {
        BoundaryStaysAt(s, i, w, u);
        ScanStays(s, i + 1, u);
      }
    }
  }

  lemma FirstIsWhole(s: string)
    requires EndsLine(s) && !IsSpace(s[0]) && First(s).Cut?
    ensures Whole(s[..First(s).word])
  {
    var w := First(s).word;
    var t := s[..w];
    forall tail | EndsLine(tail) && IsSpace(tail[0])
      ensures ReadsAs(t, tail, First(t + tail)) && t[|t| - 1] != '\n'
    {
      FirstStays(s, tail);
    }
    assert EndsLine("\n") && IsSpace("\n"[0]);
  }

  lemma FirstStays(s: string, tail: string)
    requires EndsLine(s) && !IsSpace(s[0]) && First(s).Cut?
    requires EndsLine(tail) && IsSpace(tail[0])
    ensures var t := s[..First(s).word]; !IsSpace(t[|t| - 1]) && ReadsAs(t, tail, First(t + tail))
  {
    hide IsSpace, IsDigit, QuoteLen, Scan;
    var w := First(s).word;
    var t := s[..w];
    var u := t + tail;
    SpaceIsNoDigit(tail[0]);
    NewlineIsSpace();
    assert u[0] == s[0] && Agrees(s, w, u);
    assert u[1] == if 1 < w then s[1] else tail[0];
    if s[0] == '-' && IsDigit(s[1]) {
      NumberStays(s[1..], false, tail);
      assert u[1..] == s[1..][..w - 1] + tail;
    } else if s[0] == '"' {
      QuoteStays(s[1..], tail);
      QuoteIsNoSpace();
      assert u[1..] == s[1..][..w - 1] + tail;
    } else {
      ScanStays(s, 0, u);
    }
  }

  lemma QuoteIsNoSpace()
    ensures !IsSpace('"') && !IsSpace('-')
  {
  }

  lemma BoundaryIsWhole(s: string)
    requires EndsLine(s) && BoundaryLen(s) > 0
    ensures Whole(s[..BoundaryLen(s)])
  {
    hide BoundaryLen;
    var t := s[..BoundaryLen(s)];
    BoundaryStays(s, t, "\n");
    forall tail | EndsLine(tail) && IsSpace(tail[0])
      ensures ReadsAs(t, tail, First(t + tail))
    {
      BoundaryReads(s, t, tail, t + tail);
    }
  }

  lemma BoundaryReads(s: string, t: string, tail: string, u: string)
    requires EndsLine(s) && BoundaryLen(s) > 0 && t == s[..BoundaryLen(s)]
    requires EndsLine(tail) && IsSpace(tail[0]) && u == t + tail
    ensures EndsLine(u) && !IsSpace(u[0]) && ReadsAs(t, tail, First(u))
  {
    hide BoundaryLen, NumberLen, QuoteLen, IsSpace, IsDigit;
    BoundaryStays(s, t, tail);
    SpaceIsNoDigit(tail[0]);
    NewlineIsSpace();
    assert u[0] == t[0] && u[1] == if 1 < |t| then t[1] else tail[0];
    assert u[0..] == u;
  }

  lemma {:induction false} RestWhole(s: string, at: nat)
    requires s == [] || EndsLine(s)
    ensures var r := Rest(s, at); r.Tokens? ==> AllWhole(r.list)
    decreases |s|, 1
  {
    hide Follow, First, IsSpace, Whole;
    var n := SpaceLen(s);
    if n < |s| {
      FollowWhole(s[n..], at + n);
    }
  }

  ghost predicate AllWhole(list: seq<string>) {
    forall t :: t in list ==> Whole(t)
  }

  lemma {:induction false} FollowWhole(s: string, at: nat)
    requires EndsLine(s) && !IsSpace(s[0])
    ensures var r := Follow(s, at, First(s)); r.Tokens? ==> AllWhole(r.list)
    decreases |s|, 0
  {
    hide First, IsSpace, Whole, Rest, BoundaryLen;
    var p := First(s);
    if p.Cut? {
      var w, b := p.word, p.boundary;
      FirstIsWhole(s);
      if b > 0 {
        FirstBoundary(s);
        BoundaryIsWhole(s[w..]);
        assert s[w..][..b] == s[w..w + b];
        RestWhole(s[w + b..], at + w + b);
      } else if !p.atNewline {
        RestWhole(s[w..], at + w);
      }
    }
  }

  /** Tokens with one blank between each two. */
  function Joined(list: seq<string>): string
    requires list != []
  {
    if |list| == 1 then list[0] else list[0] + " " + Joined(list[1..])
  }

  lemma {:induction false} JoinedReads(list: seq<string>, at: nat)
    requires list != [] && AllWhole(list)
    ensures var r := Rest(Joined(list) + "\n", at); r.Tokens? && r.list == list
    ensures Joined(list) != [] && Joined(list)[|Joined(list)| - 1] != '\n' && !IsSpace(Joined(list)[0])
  {
    hide First, IsSpace, Rest, Follow, ReadsAs;
    var t := list[0];
    assert t in list;
    if |list| == 1 {
      LastReads(t, at);
      assert list == [t];
    } else {
      var more := Joined(list[1..]);
      JoinedReads(list[1..], at + |t| + 1);
      OneReads(t, more + "\n", at);
      JoinedStep(t, more, Joined(list));
      assert [t] + list[1..] == list;
    }
  }

  lemma JoinedStep(t: string, more: string, all: string)
    requires all == t + " " + more && t != [] && more != []
    ensures all + "\n" == t + (" " + (more + "\n")) && all[0] == t[0] && all[|all| - 1] == more[|more| - 1]
  {
  }

  lemma WholeReads(t: string, tail: string, s: string, at: nat)
    requires Whole(t) && EndsLine(tail) && IsSpace(tail[0]) && s == t + tail
    ensures EndsLine(s) && !IsSpace(s[0])
    ensures Rest(s, at) == Follow(s, at, First(s)) && ReadsAs(t, tail, First(s))
    ensures First(s).atNewline ==> tail[0] == '\n'
  {
    hide First, Follow, IsSpace;
    assert s[0] == t[0] && ReadsAs(t, tail, First(t + tail));
    assert s[0..] == s && s[|t|] == tail[0];
  }

  lemma FollowReads(t: string, tail: string, at: nat, p: Piece)
    requires EndsLine(t + tail) && t != [] && ReadsAs(t, tail, p) && (tail == [] || EndsLine(tail))
    ensures Follow(t + tail, at, p) == if p.atNewline then Tokens([t], [at])
        else Prepend([t], [at], Rest(tail, at + |t|))
  {
    hide Rest;
    var s := t + tail;
    assert s[..|t|] == t && s[|t|..] == tail;
  }

  lemma LastReads(t: string, at: nat)
    requires Whole(t)
    ensures var r := Rest(t + "\n", at); r.Tokens? && r.list == [t]
  {
    hide First, Follow, Whole, Rest, IsSpace;
    var tail := "\n";
    NewlineIsSpace();
    WholeReads(t, tail, t + tail, at);
    FollowReads(t, tail, at, First(t + tail));
    LineEnd(at + |t|);
    assert [t] + [] == [t];
  }

  lemma LineEnd(at: nat)
    ensures Rest("\n", at) == Tokens([], [])
  {
    hide First, Follow;
    NewlineIsSpace();
    assert SpaceLen("\n") == 1;
  }

  lemma OneReads(t: string, more: string, at: nat)
    requires Whole(t) && EndsLine(more) && !IsSpace(more[0])
    ensures Rest(t + (" " + more), at) == Prepend([t], [at], Rest(more, at + |t| + 1))
  {
    hide First, Follow, Whole, Rest, Prepend;
    var tail := " " + more;
    WholeReads(t, tail, t + tail, at);
    FollowReads(t, tail, at, First(t + tail));
    BlankFirst(more, at + |t|);
  }

  lemma BlankFirst(more: string, at: nat)
    requires EndsLine(more) && !IsSpace(more[0])
    ensures Rest(" " + more, at) == Rest(more, at + 1)
  {
    hide First, Follow;
    var tail := " " + more;
    assert tail[1..] == more && more[0..] == more;
    assert SpaceLen(tail) == 1;
  }

  /** Writing the tokens with single blanks between them and cutting that line gives the same tokens. */
  lemma JoinedTokensComeBack(input: string)
    requires input != [] && Tokenized(input).Tokens? && Tokenized(input).list != []
    ensures var again := Joined(Tokenized(input).list);
      again != [] && Tokenized(again).Tokens? && Tokenized(again).list == Tokenized(input).list
  {
    hide Rest, First, IsSpace;
    RestWhole(Line(input), 0);
    JoinedReads(Tokenized(input).list, 0);
  }
}
