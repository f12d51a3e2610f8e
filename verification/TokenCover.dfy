/** The tokens of a line are all of it but blanks, each as long as it can be: where each of them lies, and what is
    left after the last one. */
module TokenCovers {
  import opened Tokenizers

  // ----- Tokens cover the line -----

  ghost predicate Blank(s: string) {
    forall c :: c in s ==> IsSpace(c)
  }

  /** A well-cut piece of the text. */
  ghost predicate TokenAt(text: string, start: nat, t: string) {
    && t != [] && start + |t| <= |text| && text[start..start + |t|] == t
    && !IsSpace(text[start]) && WellCut(text[start..], |t|)
  }

  /**
    * The tokens are well-cut pieces of the text at their starts, in order, with blanks only in between.
    * After the last one there are blanks, or a newline that ends the line.
    */
  ghost predicate Covers(text: string, from: nat, list: seq<string>, starts: seq<nat>)
    requires from <= |text|
    decreases |list|
  {
    && |list| == |starts|
    && if list == [] then Blank(text[from..]) || text[from] == '\n' else
       && from <= starts[0] && TokenAt(text, starts[0], list[0]) && Blank(text[from..starts[0]])
       && Covers(text, starts[0] + |list[0]|, list[1..], starts[1..])
  }

  lemma {:induction false} RestCovers(text: string, at: nat)
    requires EndsLine(text) && at <= |text|
    ensures var r := Rest(text[at..], at); r.Tokens? ==> Covers(text, at, r.list, r.starts)
    decreases |text| - at, 1
  {
    hide WellCut, Follow, First, IsSpace;
    var s := text[at..];
    var n := SpaceLen(s);
    assert Blank(s[..n]);
    if n == |s| {
      assert s[..n] == s;
    } else {
      assert s[n..] == text[at + n..];
      FollowCovers(text, at + n);
      assert text[at..at + n] == s[..n];
      CoversEarlier(text, at, at + n, Rest(s, at));
    }
  }

  lemma CoversEarlier(text: string, from: nat, start: nat, r: Result)
    requires from <= start <= |text| && Blank(text[from..start])
    requires r.Tokens? ==>
        r.list != [] && r.starts != [] && r.starts[0] == start && Covers(text, start, r.list, r.starts)
    ensures r.Tokens? ==> Covers(text, from, r.list, r.starts)
  {
  }

  lemma {:induction false} FollowCovers(text: string, at: nat)
    requires EndsLine(text) && at < |text| && !IsSpace(text[at])
    ensures var r := Follow(text[at..], at, First(text[at..]));
      r.Tokens? ==> r.list != [] && r.starts != [] && r.starts[0] == at && Covers(text, at, r.list, r.starts)
    decreases |text| - at, 0
  {
    hide First, IsSpace, Covers, Rest, TokenAt;
    var s := text[at..];
    var p := First(s);
    if p.Cut? {
      var w, b := p.word, p.boundary;
      PieceIsThere(text, at);
      if p.atNewline {
        CoversNewline(text, at + w);
        CoversMore(text, at, s[..w], Tokens([], []));
        assert [s[..w]] + [] == [s[..w]] && [at] + [] == [at];
      } else if b == 0 {
        RestCovers(text, at + w);
        CoversMore(text, at, s[..w], Rest(s[w..], at + w));
      } else {
        RestCovers(text, at + w + b);
        CoversTwo(text, at, s[..w], s[w..w + b], Rest(s[w + b..], at + w + b));
      }
    }
  }

  lemma PieceIsThere(text: string, at: nat)
    requires EndsLine(text) && at < |text| && !IsSpace(text[at]) && First(text[at..]).Cut?
    ensures var s, p := text[at..], First(text[at..]);
      && TokenAt(text, at, s[..p.word])
      && (p.boundary > 0 ==> TokenAt(text, at + p.word, s[p.word..p.word + p.boundary]))
      && (p.atNewline ==> at + p.word < |text| && text[at + p.word] == '\n')
      && s[p.word..] == text[at + p.word..] && s[p.word + p.boundary..] == text[at + p.word + p.boundary..]
  {
    hide First, WellCut, IsSpace;
    var s, p := text[at..], First(text[at..]);
    FirstCutsWell(s);
    assert text[at..at + p.word] == s[..p.word];
    assert s[p.word..] == text[at + p.word..];
    assert s[p.word..p.word + p.boundary] == text[at + p.word..at + p.word + p.boundary];
  }

  lemma CoversTwo(text: string, at: nat, t: string, u: string, r: Result)
    requires at + |t| + |u| <= |text| && TokenAt(text, at, t) && TokenAt(text, at + |t|, u)
    requires r.Tokens? ==> Covers(text, at + |t| + |u|, r.list, r.starts)
    ensures var q := Prepend([t, u], [at, at + |t|], r);
        q.Tokens? ==> q.list != [] && Covers(text, at, q.list, q.starts)
  {
    hide TokenAt, Covers;
    CoversMore(text, at + |t|, u, r);
    CoversMore(text, at, t, Prepend([u], [at + |t|], r));
    PrependTwice(t, u, at, at + |t|, r);
  }

  lemma PrependTwice(t: string, u: string, at: nat, next: nat, r: Result)
    ensures Prepend([t], [at], Prepend([u], [next], r)) == Prepend([t, u], [at, next], r)
  {
    if r.Tokens? {
      assert [t] + ([u] + r.list) == [t, u] + r.list;
      assert [at] + ([next] + r.starts) == [at, next] + r.starts;
    }
  }

  lemma CoversNewline(text: string, at: nat)
    requires at < |text| && text[at] == '\n'
    ensures Covers(text, at, [], [])
  {
  }

  lemma CoversMore(text: string, at: nat, t: string, r: Result)
    requires at + |t| <= |text| && TokenAt(text, at, t)
    requires r.Tokens? ==> Covers(text, at + |t|, r.list, r.starts)
    ensures var q := Prepend([t], [at], r); q.Tokens? ==> q.list != [] && Covers(text, at, q.list, q.starts)
  {
    hide TokenAt, Covers;
    if r.Tokens? {
      CoversStep(text, at, t, r.list, r.starts, [t] + r.list, [at] + r.starts);
    }
  }

  lemma CoversStep(text: string, at: nat, t: string, list: seq<string>, starts: seq<nat>, list': seq<string>,
    starts': seq<nat>)
    requires at + |t| <= |text| && TokenAt(text, at, t) && Covers(text, at + |t|, list, starts)
    requires list' == [t] + list && starts' == [at] + starts
    ensures Covers(text, at, list', starts')
  {
    hide TokenAt;
    assert list'[1..] == list && starts'[1..] == starts;
    assert text[at..at] == [];
    assert Blank([]);
  }

  /** Every token is a piece of the line; only blanks are left out. */
  lemma TokensCoverLine(input: string)
    requires input != []
    ensures var r := Tokenized(input); r.Tokens? ==> Covers(Line(input), 0, r.list, r.starts)
  {
    hide Rest, Covers;
    assert Line(input)[0..] == Line(input);
    RestCovers(Line(input), 0);
  }

  /** In a line with no newline inside there are only blanks after the last token. */
  lemma {:induction false} NothingLeft(text: string, from: nat, list: seq<string>, starts: seq<nat>)
    requires EndsLine(text) && from <= |text| && Covers(text, from, list, starts)
    requires forall k :: 0 <= k < |text| - 1 ==> text[k] != '\n'
    ensures var end := if list == [] then from else starts[|list| - 1] + |list[|list| - 1]|;
      end <= |text| && Blank(text[end..])
    decreases |list|
  {
    hide IsSpace, WellCut;
    if list == [] {
      NewlineEnds(text, from);
    } else {
      NothingLeft(text, starts[0] + |list[0]|, list[1..], starts[1..]);
    }
  }

  lemma NewlineEnds(text: string, from: nat)
    requires from <= |text| && (Blank(text[from..]) || text[from] == '\n')
    requires forall k :: 0 <= k < |text| - 1 ==> text[k] != '\n'
    ensures Blank(text[from..])
  {
    if from < |text| && text[from] == '\n' {
      assert text[from..] == ['\n'];
    }
  }
}
