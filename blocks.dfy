/** Block extraction: finding the `when project start { ... }` entry point,
    re-wrapping a captured nested block in that marker, and the shallow
    capture of a nested block (up to the first line holding a `}`). */
module Blocks {
  import opened Wrappers
  import opened Text
  import opened Patterns

  const Marker := "when project start"

  /** `"when project start { " + "\n".join(block) + " }"`: how a nested block
      is handed back to the interpreter. */
  function Wrap(block: seq<string>): string {
    Marker + " { " + Join(block) + " }"
  }

  /** Position of the last occurrence of `c` in `s`. */
  function LastIndexOf(s: string, c: char): (r: Option<nat>)
    ensures r.Some? ==> r.value < |s| && s[r.value] == c
    ensures r.Some? ==> forall k :: r.value < k < |s| ==> s[k] != c
    ensures r.None? <==> c !in s
  {
    if s == [] then None
    else if s[|s| - 1] == c then Some(|s| - 1)
    else
      assert s == s[..|s| - 1] + [s[|s| - 1]];
      LastIndexOf(s[..|s| - 1], c)
  }

  /** `when project start\s*{([\s\S]*)}` matched at position `p`: the group
      runs from after the `{` to the last `}` of the whole text. */
  function EntryAt(code: string, p: nat): Option<string>
    requires p <= |code|
  {
    if !StartsWith(code[p..], Marker) then None
    else
      var q := SkipSpace(code, p + |Marker|);
      if !CharAt(code, q, '{') then None
      else
        match LastIndexOf(code, '}')
        case Some(c) => if c > q then Some(code[q + 1..c]) else None
        case None => None
  }

  /** `re.search` of the entry pattern from position `p` on. */
  function FindEntry(code: string, p: nat): Option<string>
    decreases |code| - p
  {
    if p > |code| then None
    else
      match EntryAt(code, p)
      case Some(g) => Some(g)
      case None => FindEntry(code, p + 1)
  }

  /** `match.group(1).strip().splitlines()`, or None when there is no entry point. */
  function Extract(code: string): (r: Option<seq<string>>)
    ensures r.Some? ==> BreakFree(r.value)
  {
    match FindEntry(code, 0)
    case None => None
    case Some(g) => Some(SplitLines(Strip(g)))
  }

  /** Number of lines the entry point's body has: the measure that every
      nested run makes smaller. */
  function BodySize(code: string): nat {
    match Extract(code)
    case None => 0
    case Some(body) => |body|
  }

  /** Where the shallow capture that starts at line `j` stops: the first line
      at or after `j` that contains a `}`, or the end of the body. */
  function CaptureEnd(body: seq<string>, j: nat): (e: nat)
    requires j <= |body|
    ensures j <= e <= |body|
    decreases |body| - j
  {
    if j == |body| || '}' in body[j] then j else CaptureEnd(body, j + 1)
  }

  /** The captured lines hold no `}`, and the line the capture stops at does. */
  lemma {:induction false} CaptureEndCloses(body: seq<string>, j: nat)
    requires j <= |body|
    ensures forall k :: j <= k < CaptureEnd(body, j) ==> '}' !in body[k]
    ensures CaptureEnd(body, j) < |body| ==> '}' in body[CaptureEnd(body, j)]
    decreases |body| - j
  {
    if j < |body| && '}' !in body[j] {
      CaptureEndCloses(body, j + 1);
    }
  }

  // ---------------------------------------------------------------------
  // Re-extracting a wrapped block

  lemma {:induction false} WrappedEntry(block: seq<string>)
    ensures FindEntry(Wrap(block), 0) == Some(" " + Join(block) + " ")
  {
    var code := Wrap(block);
    var m := |Marker|;
    assert code[0..] == code;
    assert code[..m] == Marker;
    WrappedOpen(block);
    WrappedClose(block);
    EntryAtFrom(code, 0, m + 1, |code| - 1);
    assert code[m + 2..|code| - 1] == " " + Join(block) + " ";
  }

  /** After the marker of a wrapped block come one blank and the `{`. */
  lemma {:induction false} WrappedOpen(block: seq<string>)
    ensures var code := Wrap(block);
              |Marker| + 1 < |code| && SkipSpace(code, |Marker|) == |Marker| + 1 && code[|Marker| + 1] == '{'
  {
    var code := Wrap(block);
    var m := |Marker|;
    assert code[m] == ' ' && code[m + 1] == '{';
    SpanUnique(code[m..], IsSpace, 1);
  }

  /** The last `}` of a wrapped block is its last character. */
  lemma {:induction false} WrappedClose(block: seq<string>)
    ensures var code := Wrap(block); LastIndexOf(code, '}') == Some(|code| - 1)
  {
    var code := Wrap(block);
    assert code[|code| - 1] == '}';
  }

  lemma {:induction false} EntryAtFrom(code: string, p: nat, q: nat, c: nat)
    requires p <= |code| && StartsWith(code[p..], Marker)
    requires SkipSpace(code, p + |Marker|) == q && CharAt(code, q, '{')
    requires LastIndexOf(code, '}') == Some(c) && c > q
    ensures FindEntry(code, p) == Some(code[q + 1..c])
  {
    assert EntryAt(code, p) == Some(code[q + 1..c]);
  }

  /** Wrapping a block and extracting it again gives the block without its
      blank first and last lines, and with its outer blanks stripped. */
  lemma {:induction false} ExtractWrap(block: seq<string>)
    requires BreakFree(block)
    ensures Extract(Wrap(block)) == Some(TrimLines(block))
  {
    WrappedEntry(block);
    StripPadded(Join(block));
    StripJoinSplit(block);
  }

  /** A nested run has no more lines than the captured block. */
  lemma {:induction false} WrapShrinks(block: seq<string>)
    requires BreakFree(block)
    ensures BodySize(Wrap(block)) <= |block|
  {
    ExtractWrap(block);
  }

  /** A captured block is strictly shorter than the body it was cut from. */
  lemma {:induction false} CaptureShrinks(body: seq<string>, j: nat)
    requires BreakFree(body) && 1 <= j <= |body|
    ensures BreakFree(body[j..CaptureEnd(body, j)])
    ensures BodySize(Wrap(body[j..CaptureEnd(body, j)])) < |body|
  {
    WrapShrinks(body[j..CaptureEnd(body, j)]);
  }

  /** What one line contributes to the statements: nothing when blank,
      otherwise the line stripped. */
  function Statement(l: string): seq<string> {
    if AllSpace(l) then [] else [Strip(l)]
  }

  /** The statements of a list of lines: its non-blank lines, stripped, as
      the dispatcher sees them. */
  function Statements(ls: seq<string>): seq<string> {
    if ls == [] then [] else Statement(ls[0]) + Statements(ls[1..])
  }

  lemma {:induction false} StatementsCons(l: string, rest: seq<string>)
    ensures Statements([l] + rest) == Statement(l) + Statements(rest)
  {
    assert ([l] + rest)[0] == l && ([l] + rest)[1..] == rest;
  }

  lemma {:induction false} StatementsAppend(a: seq<string>, b: seq<string>)
    ensures Statements(a + b) == Statements(a) + Statements(b)
  {
    if a == [] {
      assert a + b == b;
    } else {
      var l, rest := a[0], a[1..];
      assert a == [l] + rest;
      assert a + b == [l] + (rest + b);
      StatementsAppend(rest, b);
      StatementsCons(l, rest + b);
      StatementsCons(l, rest);
    }
  }

  lemma {:induction false} StripKeepsLine(l: string)
    requires !AllSpace(l)
    ensures !AllSpace(StripLeft(l)) && Strip(StripLeft(l)) == Strip(l)
    ensures !AllSpace(StripRight(l)) && Strip(StripRight(l)) == Strip(l)
  {
    StripOneSide(l);
  }

  lemma {:induction false} TrimLeftKeepsStatements(ls: seq<string>)
    ensures Statements(TrimLeftLines(ls)) == Statements(ls)
  {
    if ls != [] {
      if AllSpace(ls[0]) {
        TrimLeftKeepsStatements(ls[1..]);
      } else {
        StripKeepsLine(ls[0]);
        var t := [StripLeft(ls[0])] + ls[1..];
        assert t[0] == StripLeft(ls[0]) && t[1..] == ls[1..];
      }
    }
  }

  lemma {:induction false} TrimRightKeepsStatements(ls: seq<string>)
    ensures Statements(TrimRightLines(ls)) == Statements(ls)
  {
    if ls != [] {
      var init, last := ls[..|ls| - 1], ls[|ls| - 1];
      assert ls == init + [last];
      StatementsAppend(init, [last]);
      if AllSpace(last) {
        TrimRightKeepsStatements(init);
      } else {
        StripKeepsLine(last);
        StatementsAppend(init, [StripRight(last)]);
      }
    }
  }

  /** Re-extracting a wrapped block gives back exactly its statements:
      the same non-blank lines, stripped, in the same order. */
  lemma {:induction false} RewrapKeepsStatements(block: seq<string>)
    requires BreakFree(block)
    ensures Extract(Wrap(block)).Some?
    ensures Statements(Extract(Wrap(block)).value) == Statements(block)
  {
    ExtractWrap(block);
    TrimLeftKeepsStatements(block);
    TrimRightKeepsStatements(TrimLeftLines(block));
  }

  // ---------------------------------------------------------------------
  // Texts without an entry point

  lemma {:induction false} NoMarkerFrom(code: string, p: nat)
    requires forall q :: p <= q <= |code| ==> !StartsWith(code[q..], Marker)
    ensures FindEntry(code, p) == None
    decreases |code| - p
  {
    if p <= |code| {
      NoMarkerFrom(code, p + 1);
    }
  }

  /** A text in which the marker does not occur has no entry point. */
  lemma {:induction false} NoMarkerNoEntry(code: string)
    requires forall q :: 0 <= q <= |code| ==> !StartsWith(code[q..], Marker)
    ensures Extract(code) == None
  {
    NoMarkerFrom(code, 0);
  }

  lemma {:induction false} NoBraceFrom(code: string, p: nat)
    requires '}' !in code
    ensures FindEntry(code, p) == None
    decreases |code| - p
  {
    if p <= |code| {
      NoBraceFrom(code, p + 1);
    }
  }

  /** A text without any `}` has no entry point. */
  lemma {:induction false} NoBraceNoEntry(code: string)
    requires '}' !in code
    ensures Extract(code) == None
  {
    NoBraceFrom(code, 0);
  }
}
