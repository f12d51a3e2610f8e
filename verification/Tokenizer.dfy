/**
  * Cutting a line into tokens. A character stands for a byte: the one with the same code.
  */
module Tokenizers {

  // ----- Characters -----

  predicate IsSpace(c: char) {
    c == ' ' || '\t' <= c <= '\r' || c == '\U{85}' || c == '\U{a0}'
  }

  predicate IsDigit(c: char) {
    '0' <= c <= '9'
  }

  /** Tried from first to last, so a longer one stands before those it begins with. */
  const BOUNDARIES: seq<string> := [
    "//", "->", "+=", "-=", "==", "+", "<=", "<", ">=", "!=", "&&", "||", ":=", "::", "..", ".", ">", "-", "*", "/",
    "#", "&", "^", "%", "$", "|", "@", "(", ")", ",", "=", "!", "[", "]", "{", "}"
  ]

  // ----- How far things reach from the front of a text -----

  function SpaceLen(s: string): (n: nat)
    ensures n <= |s| && (n < |s| ==> !IsSpace(s[n]))
    ensures forall k :: 0 <= k < n ==> IsSpace(s[k])
  {
    if s == [] || !IsSpace(s[0]) then 0 else SpaceLen(s[1..]) + 1
  }

  function DigitLen(s: string): (n: nat)
    ensures n <= |s|
  {
    if s == [] || !IsDigit(s[0]) then 0 else DigitLen(s[1..]) + 1
  }

  /** Digits with at most one dot among them. */
  function NumberLen(s: string, seenDot: bool): (n: nat)
    ensures n <= |s|
  {
    if s == [] then 0
    else if s[0] == '.' then (if seenDot then 0 else NumberLen(s[1..], true) + 1)
    else if !IsDigit(s[0]) then 0
    else NumberLen(s[1..], seenDot) + 1
  }

  /** Up to and with the closing quote; 0 when there is none. A backslash takes the next character with it. */
  function QuoteLen(s: string): (n: nat)
    ensures n <= |s|
    decreases |s|
  {
    if s == [] then 0
    else if s[0] == '\\' then
      if |s| < 2 || QuoteLen(s[2..]) == 0 then 0 else QuoteLen(s[2..]) + 2
    else if s[0] == '"' then 1
    else if QuoteLen(s[1..]) == 0 then 0
    else QuoteLen(s[1..]) + 1
  }

  /** The first of these boundaries that the text begins with; 0 when there is none. */
  function FrontLen(s: string, table: seq<string>): (n: nat)
    ensures n <= |s|
  {
    if table == [] then 0
    else if table[0] <= s then |table[0]|
    else FrontLen(s, table[1..])
  }

  function BoundaryLen(s: string): (n: nat)
    ensures n <= |s|
  {
    FrontLen(s, BOUNDARIES)
  }

  // ----- Tokens -----

  datatype Problem = UnmatchedQuote | MemberBeginsWithDigit

  /** How a token that starts at the front ends: its length, that of a boundary cut off with it, or what is wrong. */
  datatype Piece = Cut(word: nat, boundary: nat, atNewline: bool) | Wrong(at: nat, problem: Problem)

  predicate EndsLine(s: string) {
    s != [] && s[|s| - 1] == '\n'
  }

  predicate AllDigits(s: string) {
    forall c :: c in s ==> IsDigit(c)
  }

  /** The end of a token of which i characters have been passed. */
  function Scan(s: string, i: nat): (p: Piece)
    requires EndsLine(s) && i < |s| && (i == 0 ==> !IsSpace(s[0]))
    ensures p.Cut? ==> 0 < p.word && i <= p.word && p.word + p.boundary <= |s|
    ensures p.Cut? && p.atNewline ==> p.boundary == 0 && p.word < |s| && s[p.word] == '\n'
    ensures p.Cut? && p.boundary > 0 ==> !IsSpace(s[p.word])
    decreases |s| - i
  {
    if s[i] == '\n' then Cut(i, 0, true)
    else if IsSpace(s[i]) then Cut(i, 0, false)
    else if s[i] == '.' && IsDigit(s[i + 1]) then
      if AllDigits(s[..i]) then Cut(i + 1 + DigitLen(s[i + 1..]), 0, false) else Wrong(i + 1, MemberBeginsWithDigit)
    else
      var b := BoundaryLen(s[i..]);
      if b > 0 then (if i == 0 then Cut(b, 0, false) else Cut(i, b, false))
      else Scan(s, i + 1)
  }

  /** The end of the token at the front: negative numbers and strings are seen only here. */
  function First(s: string): (p: Piece)
    requires EndsLine(s) && !IsSpace(s[0])
    ensures p.Cut? ==> 0 < p.word && p.word + p.boundary <= |s|
    ensures p.Cut? && p.atNewline ==> p.boundary == 0 && p.word < |s| && s[p.word] == '\n'
    ensures p.Cut? && p.boundary > 0 ==> !IsSpace(s[p.word])
  {
    if s[0] == '-' && IsDigit(s[1]) then Cut(1 + NumberLen(s[1..], false), 0, false)
    else if s[0] == '"' then
      var q := QuoteLen(s[1..]);
      if q == 0 then Wrong(0, UnmatchedQuote) else Cut(1 + q, 0, false)
    else Scan(s, 0)
  }

  datatype Result = Tokens(list: seq<string>, starts: seq<nat>) | Failed(at: nat, problem: Problem)

  function Prepend(list: seq<string>, starts: seq<nat>, r: Result): Result {
    if r.Tokens? then Tokens(list + r.list, starts + r.starts) else r
  }

  /** The tokens of a text, all from its first token on, which starts at `at` in the line. */
  function Follow(s: string, at: nat, p: Piece): Result
    requires EndsLine(s) && (p.Cut? ==> 0 < p.word && p.word + p.boundary <= |s|)
    decreases |s|, 0
  {
    match p
    case Wrong(k, problem) => Failed(at + k, problem)
    case Cut(w, b, atNewline) =>
      if atNewline then Tokens([s[..w]], [at])
      else if b == 0 then Prepend([s[..w]], [at], Rest(s[w..], at + w))
      else Prepend([s[..w], s[w..w + b]], [at, at + w], Rest(s[w + b..], at + w + b))
  }

  /** The tokens of a text between tokens. */
  function Rest(s: string, at: nat): Result
    requires s == [] || EndsLine(s)
    decreases |s|, 1
  {
    var n := SpaceLen(s);
    if n == |s| then Tokens([], []) else Follow(s[n..], at + n, First(s[n..]))
  }

  function Line(input: string): string
    requires input != []
    ensures EndsLine(Line(input))
  {
    if input[|input| - 1] != '\n' then input + "\n" else input
  }

  function Tokenized(input: string): Result
    requires input != []
  {
    Rest(Line(input), 0)
  }

  // ----- Where tokens end -----

  /** Characters that are neither blank nor the front of a boundary. */
  ghost predicate Plain(s: string, n: nat)
    requires n <= |s|
  {
    forall k :: 0 <= k < n ==> !IsSpace(s[k]) && BoundaryLen(s[k..]) == 0
  }

  /** Plain characters up to a blank or a boundary. */
  ghost predicate IsWord(s: string, n: nat) {
    0 < n < |s| && Plain(s, n) && (IsSpace(s[n]) || BoundaryLen(s[n..]) > 0)
  }

  /** Digits, perhaps none, then a dot and all the digits after it. */
  ghost predicate IsDecimal(s: string, n: nat) {
    exists i ::
        0 <= i < |s| && AllDigits(s[..i]) && s[i] == '.' && i + 1 < |s| && IsDigit(s[i + 1])
        && n == i + 1 + DigitLen(s[i + 1..])
  }

  /** The first n characters make one token of the five kinds, and it could not have been longer. */
  ghost predicate WellCut(s: string, n: nat) {
    || n == BoundaryLen(s) > 0
    || IsWord(s, n)
    || IsDecimal(s, n)
    || (|s| > 1 && s[0] == '-' && IsDigit(s[1]) && n == 1 + NumberLen(s[1..], false))
    || (|s| > 1 && s[0] == '"' && n == 1 + QuoteLen(s[1..]) > 1)
  }

  lemma {:induction false} ScanCutsWell(s: string, i: nat)
    requires EndsLine(s) && i < |s| && (i == 0 ==> !IsSpace(s[0])) && Plain(s, i)
    ensures var p := Scan(s, i); p.Cut? ==> WellCut(s, p.word)
    decreases |s| - i
  {
    hide IsSpace, IsDigit, BoundaryLen, DigitLen, AllDigits;
    if i == 0 {
      assert s[0..] == s;
    }
    NewlineIsSpace();
    if !IsSpace(s[i]) && !(s[i] == '.' && IsDigit(s[i + 1])) && BoundaryLen(s[i..]) == 0 {
      ScanCutsWell(s, i + 1);
    }
  }

  lemma NewlineIsSpace()
    ensures IsSpace('\n')
  {
  }

  lemma FirstBoundary(s: string)
    requires EndsLine(s) && !IsSpace(s[0])
    ensures var p := First(s);
        p.Cut? && p.boundary > 0 ==> BoundaryLen(s[p.word..]) == p.boundary && EndsLine(s[p.word..])
  {
    hide BoundaryLen;
    ScanBoundary(s, 0);
  }

  lemma {:induction false} ScanBoundary(s: string, i: nat)
    requires EndsLine(s) && i < |s| && (i == 0 ==> !IsSpace(s[0]))
    ensures var p := Scan(s, i); p.Cut? && p.boundary > 0 ==> BoundaryLen(s[p.word..]) == p.boundary
    decreases |s| - i
  {
    hide BoundaryLen, IsSpace, IsDigit, DigitLen, AllDigits;
    if s[i] != '\n' && BoundaryLen(s[i..]) == 0 {
      ScanBoundary(s, i + 1);
    }
  }

  lemma FirstCutsWell(s: string)
    requires EndsLine(s) && !IsSpace(s[0])
    ensures var p := First(s); p.Cut? ==> WellCut(s, p.word) && (p.boundary > 0 ==> WellCut(s[p.word..], p.boundary))
  {
    hide IsSpace, IsDigit, BoundaryLen, DigitLen, NumberLen, QuoteLen;
    FirstBoundary(s);
    ScanCutsWell(s, 0);
  }

  /** No boundary stands before a longer one that it begins. */
  ghost predicate LongerFirst(table: seq<string>) {
    forall i, j :: 0 <= i < j < |table| && table[i] <= table[j] ==> |table[j]| <= |table[i]|
  }

  lemma ShortAndLong(i: nat)
    requires i < |BOUNDARIES|
    ensures i >= 15 ==> |BOUNDARIES[i]| == 1
    ensures i < 15 && i != 5 && i != 7 ==> |BOUNDARIES[i]| == 2
    ensures i == 5 ==> BOUNDARIES[i] == "+"
    ensures i == 7 ==> BOUNDARIES[i] == "<"
    ensures 5 < i ==> BOUNDARIES[i][0] != '+'
    ensures 7 < i ==> BOUNDARIES[i][0] != '<'
    ensures 1 <= |BOUNDARIES[i]| <= 2
  {
  }

  lemma TableIsLongerFirst()
    ensures LongerFirst(BOUNDARIES)
  {
    var table := BOUNDARIES;
    forall i, j | 0 <= i < j < |table| && table[i] <= table[j] ensures |table[j]| <= |table[i]| {
      ShortAndLong(i);
      ShortAndLong(j);
      assert table[j][0] == table[i][0];
    }
  }

  lemma {:induction false} FrontIsLongest(s: string, table: seq<string>, e: string)
    requires LongerFirst(table) && e in table && e <= s
    ensures |e| <= FrontLen(s, table)
  {
    var j :| 0 <= j < |table| && table[j] == e;
    if table[0] <= s {
      assert |table[0]| <= |e| ==> table[0] <= table[j];
    } else {
      assert table[1..][j - 1] == e;
      FrontIsLongest(s, table[1..], e);
    }
  }

  /** The first boundary found is the longest one that stands there. */
  lemma BoundaryIsLongest(s: string, e: string)
    requires e in BOUNDARIES && e <= s
    ensures |e| <= BoundaryLen(s) && s[..BoundaryLen(s)] in BOUNDARIES
  {
    TableIsLongerFirst();
    FrontIsLongest(s, BOUNDARIES, e);
    FrontInTable(s, BOUNDARIES);
  }

  lemma {:induction false} FrontInTable(s: string, table: seq<string>)
    ensures FrontLen(s, table) > 0 ==> s[..FrontLen(s, table)] in table
  {
    if table != [] {
      if table[0] <= s {
        assert s[..|table[0]|] == table[0];
      } else {
        FrontInTable(s, table[1..]);
      }
    }
  }
}
