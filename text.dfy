/** The string operations of Python that the interpreter relies on:
    `str.strip`, `str.splitlines`, `"\n".join` and prefix tests, restricted
    to ASCII (non-ASCII whitespace and line separators are not modelled). */
module Text {

  /** ASCII whitespace as `str.isspace` and the regular-expression class `\s` see it. */
  predicate IsSpace(c: char) {
    c == ' ' || c == '\t' || c == '\n' || c == '\r' || c == '\U{B}' || c == '\U{C}'
    || ('\U{1C}' <= c <= '\U{1F}')
  }

  /** ASCII line boundaries of `str.splitlines`. */
  predicate IsBreak(c: char) {
    c == '\n' || c == '\r' || c == '\U{B}' || c == '\U{C}' || ('\U{1C}' <= c <= '\U{1E}')
  }

  predicate NotBreak(c: char) { !IsBreak(c) }

  predicate AllSpace(s: string) { forall k :: 0 <= k < |s| ==> IsSpace(s[k]) }

  predicate NoBreak(s: string) { forall k :: 0 <= k < |s| ==> !IsBreak(s[k]) }

  /** Every line of a list is free of line boundaries (as `splitlines` produces them). */
  predicate BreakFree(ls: seq<string>) { forall k :: 0 <= k < |ls| ==> NoBreak(ls[k]) }

  predicate StartsWith(s: string, prefix: string) {
    |prefix| <= |s| && s[..|prefix|] == prefix
  }

  /** A text that differs from `p` at some position inside both does not
      start with `p`. */
  lemma {:induction false} CharDiffers(s: string, p: string, k: nat)
    requires k < |p| && k < |s| && s[k] != p[k]
    ensures !StartsWith(s, p)
  {
    if |p| <= |s| {
      assert s[..|p|][k] == s[k];
    }
  }

  /** Length of the longest prefix of `s` whose characters all satisfy `p`. */
  function Span(s: string, p: char -> bool): (n: nat)
    ensures n <= |s|
    ensures forall k :: 0 <= k < n ==> p(s[k])
    ensures n < |s| ==> !p(s[n])
  {
    if s != [] && p(s[0]) then 1 + Span(s[1..], p) else 0
  }

  /** Length of the longest suffix of `s` whose characters all satisfy `p`. */
  function SpanBack(s: string, p: char -> bool): (n: nat)
    ensures n <= |s|
    ensures forall k :: |s| - n <= k < |s| ==> p(s[k])
    ensures n < |s| ==> !p(s[|s| - n - 1])
  {
    if s != [] && p(s[|s| - 1]) then 1 + SpanBack(s[..|s| - 1], p) else 0
  }

  lemma {:induction false} SpanUnique(s: string, p: char -> bool, n: nat)
    requires n <= |s|
    requires forall k :: 0 <= k < n ==> p(s[k])
    requires n < |s| ==> !p(s[n])
    ensures Span(s, p) == n
  {
    if n > 0 {
      SpanUnique(s[1..], p, n - 1);
    }
  }

  lemma {:induction false} SpanBackUnique(s: string, p: char -> bool, n: nat)
    requires n <= |s|
    requires forall k :: |s| - n <= k < |s| ==> p(s[k])
    requires n < |s| ==> !p(s[|s| - n - 1])
    ensures SpanBack(s, p) == n
  {
    if n > 0 {
      SpanBackUnique(s[..|s| - 1], p, n - 1);
    }
  }

  /** `s.lstrip()` */
  function StripLeft(s: string): string {
    s[Span(s, IsSpace)..]
  }

  /** `s.rstrip()` */
  function StripRight(s: string): string {
    s[..|s| - SpanBack(s, IsSpace)]
  }

  /** `s.strip()`: the text between the leading and the trailing whitespace. */
  function Strip(s: string): (r: string)
    ensures |r| <= |s|
    ensures r == [] || (!IsSpace(r[0]) && !IsSpace(r[|r| - 1]))
    ensures r == [] <==> AllSpace(s)
  {
    StripLeftRightCommute(s);
    StripRight(StripLeft(s))
  }

  /** `strip()` removes exactly the whitespace at both ends: nothing is left
      of a blank text, and of any other text exactly what lies between its
      leading and its trailing whitespace. */
  lemma {:induction false} StripExact(s: string)
    ensures AllSpace(s) ==> Strip(s) == []
    ensures !AllSpace(s) ==> Strip(s) == s[Span(s, IsSpace)..|s| - SpanBack(s, IsSpace)]
  {
    StripLeftRightCommute(s);
  }

  lemma {:induction false} StripLeftRightCommute(s: string)
    ensures StripLeft(StripRight(s)) == StripRight(StripLeft(s))
    ensures AllSpace(s) ==> StripRight(StripLeft(s)) == []
    ensures !AllSpace(s) ==> var r := StripRight(StripLeft(s));
              r != [] && !IsSpace(r[0]) && !IsSpace(r[|r| - 1])
              && r == s[Span(s, IsSpace)..|s| - SpanBack(s, IsSpace)]
  {
    if Span(s, IsSpace) == |s| {
      StripBlank(s);
    } else {
      StripInner(s);
    }
  }

  /** A text of blanks strips to nothing from either side. */
  lemma {:induction false} StripBlank(s: string)
    requires Span(s, IsSpace) == |s|
    ensures AllSpace(s)
    ensures StripLeft(StripRight(s)) == [] && StripRight(StripLeft(s)) == []
  {
    SpanBackUnique(s, IsSpace, |s|);
    SpanUnique([], IsSpace, 0);
    SpanBackUnique([], IsSpace, 0);
  }

  /** A text with a non-blank keeps what lies between its first and last
      non-blank, whichever side is stripped first. */
  lemma {:induction false} StripInner(s: string)
    requires Span(s, IsSpace) < |s|
    ensures !AllSpace(s)
    ensures var a, b := Span(s, IsSpace), |s| - SpanBack(s, IsSpace);
              a < b && StripLeft(StripRight(s)) == s[a..b] && StripRight(StripLeft(s)) == s[a..b]
              && !IsSpace(s[a]) && !IsSpace(s[b - 1])
  {
    StripLeftOfRight(s);
    StripRightOfLeft(s);
  }

  lemma {:induction false} SpanPrefix(s: string, p: char -> bool, m: nat)
    requires Span(s, p) < m <= |s|
    ensures Span(s[..m], p) == Span(s, p)
  {
    var n := Span(s, p);
    assert forall k :: 0 <= k <= n ==> s[..m][k] == s[k];
    SpanUnique(s[..m], p, n);
  }

  lemma {:induction false} SpanBackSuffix(s: string, p: char -> bool, m: nat)
    requires m <= |s| && SpanBack(s, p) < |s| - m
    ensures SpanBack(s[m..], p) == SpanBack(s, p)
  {
    var n := SpanBack(s, p);
    var t := s[m..];
    forall k | |t| - n <= k < |t|
      ensures p(t[k])
    {
      assert t[k] == s[m + k];
    }
    assert t[|t| - n - 1] == s[|s| - n - 1];
    SpanBackUnique(t, p, n);
  }

  lemma {:induction false} StripLeftOfRight(s: string)
    requires Span(s, IsSpace) < |s|
    ensures Span(s, IsSpace) < |s| - SpanBack(s, IsSpace)
    ensures StripLeft(StripRight(s)) == s[Span(s, IsSpace)..|s| - SpanBack(s, IsSpace)]
  {
    InnerBounds(s);
    var a, b := Span(s, IsSpace), |s| - SpanBack(s, IsSpace);
    SpanPrefix(s, IsSpace, b);
    StripLeftOfPrefix(s, a, b);
  }

  lemma {:induction false} StripRightOfLeft(s: string)
    requires Span(s, IsSpace) < |s|
    ensures Span(s, IsSpace) < |s| - SpanBack(s, IsSpace)
    ensures StripRight(StripLeft(s)) == s[Span(s, IsSpace)..|s| - SpanBack(s, IsSpace)]
  {
    InnerBounds(s);
    var a, n := Span(s, IsSpace), SpanBack(s, IsSpace);
    SpanBackSuffix(s, IsSpace, a);
    StripRightOfSuffix(s, a, n);
  }

  lemma {:induction false} InnerBounds(s: string)
    requires Span(s, IsSpace) < |s|
    ensures Span(s, IsSpace) < |s| - SpanBack(s, IsSpace)
  {
    assert !IsSpace(s[Span(s, IsSpace)]);
  }

  lemma {:induction false} StripLeftOfPrefix(s: string, a: nat, b: nat)
    requires a < b <= |s|
    requires Span(s[..b], IsSpace) == a
    ensures StripLeft(s[..b]) == s[a..b]
  {
    assert s[..b][a..] == s[a..b];
  }

  lemma {:induction false} StripRightOfSuffix(s: string, a: nat, n: nat)
    requires a < |s| - n
    requires SpanBack(s[a..], IsSpace) == n
    ensures StripRight(s[a..]) == s[a..|s| - n]
  {
    assert s[a..][..|s| - a - n] == s[a..|s| - n];
  }

  /** `"\n".join(ls)` */
  function Join(ls: seq<string>): string {
    if |ls| == 0 then []
    else if |ls| == 1 then ls[0]
    else ls[0] + "\n" + Join(ls[1..])
  }

  /** Width of the line boundary at `s[k]`: `\r\n` counts as one boundary. */
  function BreakWidth(s: string, k: nat): nat
    requires k < |s|
  {
    if s[k] == '\r' && k + 1 < |s| && s[k + 1] == '\n' then 2 else 1
  }

  /** `s.splitlines()`: the lines between boundaries; a final boundary
      does not start an empty last line. */
  function SplitLines(s: string): (ls: seq<string>)
    ensures BreakFree(ls)
    decreases |s|
  {
    if s == [] then []
    else
      var n := Span(s, NotBreak);
      if n == |s| then [s]
      else [s[..n]] + SplitLines(s[n + BreakWidth(s, n)..])
  }

  // ---------------------------------------------------------------------
  // Stripping across a concatenation

  lemma {:induction false} SpanAppend(a: string, b: string, p: char -> bool)
    ensures Span(a + b, p) == if Span(a, p) == |a| then |a| + Span(b, p) else Span(a, p)
  {
    if a == [] {
      assert a + b == b;
    } else if p(a[0]) {
      SpanAppend(a[1..], b, p);
      assert (a + b)[1..] == a[1..] + b;
    }
  }

  lemma {:induction false} SpanBackAppend(a: string, b: string, p: char -> bool)
    ensures SpanBack(a + b, p) == if SpanBack(b, p) == |b| then |b| + SpanBack(a, p) else SpanBack(b, p)
  {
    if b == [] {
      assert a + b == a;
    } else if p(b[|b| - 1]) {
      SpanBackAppend(a, b[..|b| - 1], p);
      assert (a + b)[..|a + b| - 1] == a + b[..|b| - 1];
    }
  }

  lemma {:induction false} AllSpaceSpan(s: string)
    ensures AllSpace(s) <==> Span(s, IsSpace) == |s|
    ensures AllSpace(s) <==> SpanBack(s, IsSpace) == |s|
  {
    if !AllSpace(s) {
      var k :| 0 <= k < |s| && !IsSpace(s[k]);
      assert Span(s, IsSpace) <= k;
    }
  }

  lemma {:induction false} StripLeftAppend(a: string, b: string)
    ensures StripLeft(a + b) == if AllSpace(a) then StripLeft(b) else StripLeft(a) + b
  {
    SpanAppend(a, b, IsSpace);
    AllSpaceSpan(a);
    var n := Span(a, IsSpace);
    if AllSpace(a) {
      assert (a + b)[|a| + Span(b, IsSpace)..] == b[Span(b, IsSpace)..];
    } else {
      assert (a + b)[n..] == a[n..] + b;
    }
  }

  lemma {:induction false} StripRightAppend(a: string, b: string)
    ensures StripRight(a + b) == if AllSpace(b) then StripRight(a) else a + StripRight(b)
  {
    SpanBackAppend(a, b, IsSpace);
    AllSpaceSpan(b);
    var n := SpanBack(b, IsSpace);
    if AllSpace(b) {
      assert (a + b)[..|a + b| - (|b| + SpanBack(a, IsSpace))] == a[..|a| - SpanBack(a, IsSpace)];
    } else {
      assert (a + b)[..|a + b| - n] == a + b[..|b| - n];
    }
  }

  lemma {:induction false} StripLeftIdempotent(s: string)
    ensures StripLeft(StripLeft(s)) == StripLeft(s)
  {
    SpanUnique(StripLeft(s), IsSpace, 0);
  }

  lemma {:induction false} StripRightIdempotent(s: string)
    ensures StripRight(StripRight(s)) == StripRight(s)
  {
    SpanBackUnique(StripRight(s), IsSpace, 0);
  }

  /** Stripping one side first does not change what `strip` returns. */
  lemma {:induction false} StripOneSide(s: string)
    ensures Strip(StripLeft(s)) == Strip(s)
    ensures Strip(StripRight(s)) == Strip(s)
  {
    StripLeftIdempotent(s);
    StripLeftRightCommute(s);
    StripRightIdempotent(StripLeft(s));
  }

  /** Surrounding a text with blanks does not change what `strip` returns. */
  lemma {:induction false} StripPadded(s: string)
    ensures Strip(" " + s + " ") == Strip(s)
  {
    assert " " + s + " " == " " + (s + " ");
    assert AllSpace(" ");
    StripLeftAppend(" ", s + " ");
    StripLeftAppend(s, " ");
    assert StripLeft(" ") == [] by { SpanUnique(" ", IsSpace, 1); }
    if AllSpace(s) {
      assert StripLeft(s) == [] by { AllSpaceSpan(s); }
      assert StripRight([]) == [] by { SpanBackUnique([], IsSpace, 0); }
    } else {
      StripRightAppend(StripLeft(s), " ");
    }
  }

  // ---------------------------------------------------------------------
  // Lines: joining, trimming blank lines at the ends, splitting again

  /** Drops the blank lines at the start and strips the first kept line on the left. */
  function TrimLeftLines(ls: seq<string>): seq<string> {
    if ls == [] then []
    else if AllSpace(ls[0]) then TrimLeftLines(ls[1..])
    else [StripLeft(ls[0])] + ls[1..]
  }

  /** Drops the blank lines at the end and strips the last kept line on the right. */
  function TrimRightLines(ls: seq<string>): (r: seq<string>)
    ensures r == [] || !AllSpace(r[|r| - 1])
  {
    if ls == [] then []
    else if AllSpace(ls[|ls| - 1]) then TrimRightLines(ls[..|ls| - 1])
    else
      var last := ls[|ls| - 1];
      AllSpaceSpan(last);
      assert !IsSpace(last[|last| - SpanBack(last, IsSpace) - 1]);
      ls[..|ls| - 1] + [StripRight(last)]
  }

  /** What `strip` followed by `splitlines` makes of a joined list of lines. */
  function TrimLines(ls: seq<string>): (r: seq<string>)
    ensures |r| <= |ls|
  {
    TrimLeftLinesShorter(ls);
    TrimRightLinesShorter(TrimLeftLines(ls));
    TrimRightLines(TrimLeftLines(ls))
  }

  lemma {:induction false} TrimLeftLinesShorter(ls: seq<string>)
    ensures |TrimLeftLines(ls)| <= |ls|
  {
    if ls != [] && AllSpace(ls[0]) {
      TrimLeftLinesShorter(ls[1..]);
    }
  }

  lemma {:induction false} TrimRightLinesShorter(ls: seq<string>)
    ensures |TrimRightLines(ls)| <= |ls|
  {
    if ls != [] && AllSpace(ls[|ls| - 1]) {
      TrimRightLinesShorter(ls[..|ls| - 1]);
    }
  }

  lemma {:induction false} TrimLeftLinesBreakFree(ls: seq<string>)
    requires BreakFree(ls)
    ensures BreakFree(TrimLeftLines(ls))
  {
    if ls != [] {
      TrimLeftLinesBreakFree(ls[1..]);
      assert NoBreak(StripLeft(ls[0]));
    }
  }

  lemma {:induction false} TrimRightLinesBreakFree(ls: seq<string>)
    requires BreakFree(ls)
    ensures BreakFree(TrimRightLines(ls))
  {
    if ls != [] {
      TrimRightLinesBreakFree(ls[..|ls| - 1]);
      assert NoBreak(StripRight(ls[|ls| - 1]));
    }
  }

  lemma {:induction false} TrimLinesBreakFree(ls: seq<string>)
    requires BreakFree(ls)
    ensures BreakFree(TrimLines(ls))
  {
    TrimLeftLinesBreakFree(ls);
    TrimRightLinesBreakFree(TrimLeftLines(ls));
  }

  lemma {:induction false} JoinSnoc(ls: seq<string>, x: string)
    ensures Join(ls + [x]) == if ls == [] then x else Join(ls) + "\n" + x
  {
    if |ls| >= 2 {
      JoinSnoc(ls[1..], x);
      assert (ls + [x])[1..] == ls[1..] + [x];
    } else if |ls| == 1 {
      assert (ls + [x])[1..] == [x];
    }
  }

  /** Left-stripping a joined text drops its blank first lines. */
  lemma {:induction false} JoinStripLeft(ls: seq<string>)
    ensures StripLeft(Join(ls)) == Join(TrimLeftLines(ls))
  {
    if ls == [] {
      SpanUnique([], IsSpace, 0);
    } else if |ls| == 1 {
      if AllSpace(ls[0]) {
        AllSpaceSpan(ls[0]);
      }
    } else {
      var rest := "\n" + Join(ls[1..]);
      assert Join(ls) == ls[0] + rest;
      StripLeftAppend(ls[0], rest);
      if AllSpace(ls[0]) {
        assert AllSpace("\n");
        StripLeftAppend("\n", Join(ls[1..]));
        JoinStripLeft(ls[1..]);
      } else {
        assert Join([StripLeft(ls[0])] + ls[1..]) == StripLeft(ls[0]) + "\n" + Join(ls[1..]);
      }
    }
  }

  lemma {:induction false} StripRightBlankLast(init: seq<string>, last: string)
    requires AllSpace(last)
    ensures StripRight(Join(init + [last])) == StripRight(Join(init))
  {
    JoinSnoc(init, last);
    if init == [] {
      AllSpaceSpan(last);
      SpanBackUnique([], IsSpace, 0);
    } else {
      StripRightAppend(Join(init) + "\n", last);
      assert AllSpace("\n");
      StripRightAppend(Join(init), "\n");
    }
  }

  lemma {:induction false} StripRightKeptLast(init: seq<string>, last: string)
    requires !AllSpace(last)
    ensures StripRight(Join(init + [last])) == Join(init + [StripRight(last)])
  {
    JoinSnoc(init, last);
    JoinSnoc(init, StripRight(last));
    if init != [] {
      StripRightAppend(Join(init) + "\n", last);
    }
  }

  /** Right-stripping a joined text drops its blank last lines. */
  lemma {:induction false} JoinStripRight(ls: seq<string>)
    ensures StripRight(Join(ls)) == Join(TrimRightLines(ls))
  {
    if ls == [] {
      SpanBackUnique([], IsSpace, 0);
    } else {
      var init, last := ls[..|ls| - 1], ls[|ls| - 1];
      assert ls == init + [last];
      if AllSpace(last) {
        JoinStripRight(init);
        StripRightBlankLast(init, last);
      } else {
        StripRightKeptLast(init, last);
      }
    }
  }

  /** A line without a boundary, then a newline, is split off as one line. */
  lemma {:induction false} SplitLinesCons(l: string, rest: string)
    requires NoBreak(l)
    ensures SplitLines(l + "\n" + rest) == [l] + SplitLines(rest)
  {
    var s := l + "\n" + rest;
    assert s[|l|] == '\n';
    SpanUnique(s, NotBreak, |l|);
    assert s[..|l|] == l;
    assert s[|l| + 1..] == rest;
  }

  /** A non-empty line without a boundary is one line. */
  lemma {:induction false} SplitLinesSingle(l: string)
    requires NoBreak(l) && l != []
    ensures SplitLines(l) == [l]
  {
    SpanUnique(l, NotBreak, |l|);
  }

  lemma {:induction false} SplitJoinCons(l: string, rest: seq<string>)
    requires NoBreak(l) && rest != [] && SplitLines(Join(rest)) == rest
    ensures SplitLines(Join([l] + rest)) == [l] + rest
  {
    assert ([l] + rest)[1..] == rest;
    SplitLinesCons(l, Join(rest));
  }

  /** Splitting a joined list of lines gives the lines back, as long as
      none holds a line boundary and the last one is not empty. */
  lemma {:induction false} SplitJoin(ls: seq<string>)
    requires BreakFree(ls)
    requires ls == [] || ls[|ls| - 1] != []
    ensures SplitLines(Join(ls)) == ls
  {
    if |ls| == 1 {
      SplitLinesSingle(ls[0]);
    } else if |ls| >= 2 {
      SplitJoin(ls[1..]);
      SplitJoinCons(ls[0], ls[1..]);
      assert ls == [ls[0]] + ls[1..];
    }
  }

  /** `strip` then `splitlines` of `"\n".join(ls)` gives the trimmed lines. */
  lemma {:induction false} StripJoinSplit(ls: seq<string>)
    requires BreakFree(ls)
    ensures SplitLines(Strip(Join(ls))) == TrimLines(ls)
  {
    JoinStripLeft(ls);
    JoinStripRight(TrimLeftLines(ls));
    TrimLinesBreakFree(ls);
    var t := TrimLines(ls);
    assert t == [] || t[|t| - 1] != [];
    SplitJoin(t);
  }
}
