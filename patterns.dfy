/** The regular expressions of interpreter.py, each written out as the
    match Python's `re` module finds for it (ASCII classes only). A greedy
    group `(.*)` followed by a closing pattern ends at the LAST position
    where the closing pattern matches on the same line; `re.search` tries
    the start positions from left to right, `re.match` only position 0. */
module Patterns {
  import opened Wrappers
  import opened Text

  predicate IsDigit(c: char) { '0' <= c <= '9' }

  predicate IsLetter(c: char) { 'A' <= c <= 'Z' || 'a' <= c <= 'z' }

  /** `[A-Za-z_]` */
  predicate IsIdentStart(c: char) { IsLetter(c) || c == '_' }

  /** `[A-Za-z0-9_]`, which is also `\w` on ASCII text. */
  predicate IsWordChar(c: char) { IsIdentStart(c) || IsDigit(c) }

  predicate NotNewline(c: char) { c != '\n' }

  /** `^[A-Za-z_][A-Za-z0-9_]*$`: the names an assignment may bind. */
  predicate IsIdentifier(s: string) {
    |s| >= 1 && IsIdentStart(s[0]) && forall k :: 1 <= k < |s| ==> IsWordChar(s[k])
  }

  /** `int(ds)` for a run of ASCII digits. */
  function DigitsValue(ds: string): nat {
    if ds == [] then 0
    else 10 * DigitsValue(ds[..|ds| - 1]) + ((ds[|ds| - 1] as int - '0' as int) % 10)
  }

  /** Index of the first non-blank character at or after `j` (what `\s*` consumes). */
  function SkipSpace(s: string, j: nat): (r: nat)
    requires j <= |s|
    ensures j <= r <= |s|
    decreases |s| - j
  {
    if j < |s| && IsSpace(s[j]) then SkipSpace(s, j + 1) else j
  }

  /** `\s*` consumes exactly the leading blanks of the rest of the text. */
  lemma {:induction false} SkipSpaceSpan(s: string, j: nat)
    requires j <= |s|
    ensures SkipSpace(s, j) == j + Span(s[j..], IsSpace)
    decreases |s| - j
  {
    if j < |s| && IsSpace(s[j]) {
      SkipSpaceSpan(s, j + 1);
      assert s[j..][1..] == s[j + 1..];
    }
  }

  /** What may follow a greedy group `(.*)`. */
  datatype Closer =
    | QuoteParen  // `"\s*\)`
    | ParenBrace  // `\)\s*{`
    | Paren       // `\s*\)`

  predicate CharAt(s: string, j: nat, c: char) { j < |s| && s[j] == c }

  /** The closing pattern `c` matches `s` at position `k`. */
  predicate ClosesAt(s: string, k: nat, c: Closer)
    requires k <= |s|
  {
    match c
    case QuoteParen => CharAt(s, k, '"') && CharAt(s, SkipSpace(s, k + 1), ')')
    case ParenBrace => CharAt(s, k, ')') && CharAt(s, SkipSpace(s, k + 1), '{')
    case Paren => CharAt(s, SkipSpace(s, k), ')')
  }

  /** The largest position in `[lo, k]` where `c` matches (`LastCloseIsLast`). */
  function LastClose(s: string, lo: nat, k: nat, c: Closer): (r: Option<nat>)
    requires lo <= k <= |s|
    ensures r.Some? ==> lo <= r.value <= k
    decreases k - lo
  {
    if ClosesAt(s, k, c) then Some(k)
    else if k == lo then None
    else LastClose(s, lo, k - 1, c)
  }

  /** End of the greedy group `(.*)` that starts at `lo` and is followed by `c`:
      `.` stops at a newline, and the group is as long as it can be. */
  function GroupEnd(s: string, lo: nat, c: Closer): (r: Option<nat>)
    requires lo <= |s|
    ensures r.Some? ==> lo <= r.value <= |s|
  {
    LastClose(s, lo, lo + Span(s[lo..], NotNewline), c)
  }

  /** `re.match(r'in\s*\(\s*"(.*)"\s*\)', s)`: the prompt of an input form. */
  function InputForm(s: string): Option<string> {
    if !StartsWith(s, "in") then None
    else
      var a := SkipSpace(s, 2);
      if !CharAt(s, a, '(') then None
      else
        var b := SkipSpace(s, a + 1);
        if !CharAt(s, b, '"') then None
        else
          match GroupEnd(s, b + 1, QuoteParen)
          case Some(k) => Some(s[b + 1..k])
          case None => None
  }

  /** `re.match(r"out\s*\(\s*(.*)\s*\)", s)`: the argument of an output statement. */
  function OutArgument(s: string): Option<string> {
    if !StartsWith(s, "out") then None
    else
      var a := SkipSpace(s, 3);
      if !CharAt(s, a, '(') then None
      else
        var lo := SkipSpace(s, a + 1);
        match GroupEnd(s, lo, Paren)
        case Some(k) => Some(s[lo..k])
        case None => None
  }

  /** `kw\s*\((.*)\)\s*{` matched at position `p` of `s`. */
  function ConditionAt(s: string, kw: string, p: nat): Option<string>
    requires p <= |s|
  {
    if !StartsWith(s[p..], kw) then None
    else
      var a := SkipSpace(s, p + |kw|);
      if !CharAt(s, a, '(') then None
      else
        match GroupEnd(s, a + 1, ParenBrace)
        case Some(k) => Some(s[a + 1..k])
        case None => None
  }

  function SearchCondition(s: string, kw: string, p: nat): Option<string>
    decreases |s| - p
  {
    if p > |s| then None
    else
      match ConditionAt(s, kw, p)
      case Some(g) => Some(g)
      case None => SearchCondition(s, kw, p + 1)
  }

  /** Without a `(` no condition can be found. */
  lemma {:induction false} NoParenNoCondition(s: string, kw: string, p: nat)
    requires '(' !in s
    ensures SearchCondition(s, kw, p) == None
    decreases |s| - p
  {
    if p <= |s| {
      NoParenNoCondition(s, kw, p + 1);
    }
  }

  /** Without a `{` the closing `)\s*{` of a condition matches nowhere. */
  lemma {:induction false} NoBraceNoClose(s: string, lo: nat, k: nat)
    requires lo <= k <= |s| && '{' !in s
    ensures LastClose(s, lo, k, ParenBrace) == None
    decreases k - lo
  {
    if k > lo {
      NoBraceNoClose(s, lo, k - 1);
    }
  }

  /** Without a `{` no condition can be found. */
  lemma {:induction false} NoBraceNoCondition(s: string, kw: string, p: nat)
    requires '{' !in s
    ensures SearchCondition(s, kw, p) == None
    decreases |s| - p
  {
    if p <= |s| {
      if StartsWith(s[p..], kw) {
        var a := SkipSpace(s, p + |kw|);
        if CharAt(s, a, '(') {
          NoBraceNoClose(s, a + 1, a + 1 + Span(s[a + 1..], NotNewline));
        }
      }
      NoBraceNoCondition(s, kw, p + 1);
    }
  }

  /** `re.search(r"if\s*\((.*)\)\s*{", s)`: the condition of an if statement. */
  function IfCondition(s: string): Option<string> {
    SearchCondition(s, "if", 0)
  }

  /** `re.search(r"else if\s*\((.*)\)\s*{", s)`: the condition of an else-if line. */
  function ElseIfCondition(s: string): Option<string> {
    SearchCondition(s, "else if", 0)
  }

  /** `rep\s+(\d+)\s*{` matched at position `p` of `s`. */
  function RepeatAt(s: string, p: nat): Option<nat>
    requires p <= |s|
  {
    if !StartsWith(s[p..], "rep") then None
    else
      var d := SkipSpace(s, p + 3);
      if d == p + 3 then None
      else
        var n := Span(s[d..], IsDigit);
        if n == 0 then None
        else if CharAt(s, SkipSpace(s, d + n), '{') then Some(DigitsValue(s[d..d + n]))
        else None
  }

  function SearchRepeat(s: string, p: nat): Option<nat>
    decreases |s| - p
  {
    if p > |s| then None
    else
      match RepeatAt(s, p)
      case Some(n) => Some(n)
      case None => SearchRepeat(s, p + 1)
  }

  /** Without a `{` no repeat count can be found. */
  lemma {:induction false} NoBraceNoRepeat(s: string, p: nat)
    requires '{' !in s
    ensures SearchRepeat(s, p) == None
    decreases |s| - p
  {
    if p <= |s| {
      NoBraceNoRepeat(s, p + 1);
    }
  }

  /** `re.search(r"rep\s+(\d+)\s*{", s)`: the count of a repeat statement. */
  function RepeatCount(s: string): Option<nat> {
    SearchRepeat(s, 0)
  }

  /** `re.match(r"wait\.(\w+)\((\d+)\)", s)`: the unit and the amount of a wait. */
  function WaitForm(s: string): Option<(string, nat)> {
    if !StartsWith(s, "wait.") then None
    else
      var u := Span(s[5..], IsWordChar);
      if u == 0 || !CharAt(s, 5 + u, '(') then None
      else
        var n := Span(s[6 + u..], IsDigit);
        if n == 0 || !CharAt(s, 6 + u + n, ')') then None
        else Some((s[5..5 + u], DigitsValue(s[6 + u..6 + u + n])))
  }

  /** Milliseconds a wait of `amount` in `unit` sleeps, or None for an unknown unit. */
  function WaitMillis(unit: string, amount: nat): (r: Option<nat>)
    ensures r.Some? <==> unit in {"milsec", "sec", "min", "hrs"}
    ensures unit == "milsec" ==> r == Some(amount)
    ensures r.Some? && amount > 0 ==> r.value >= amount
  {
    if unit == "milsec" then Some(amount)
    else if unit == "sec" then Some(1000 * amount)
    else if unit == "min" then Some(60 * 1000 * amount)
    else if unit == "hrs" then Some(60 * 60 * 1000 * amount)
    else None
  }

  // ---------------------------------------------------------------------
  // Round trips: each statement form, written out, parses back

  /** The units agree with each other: an hour is sixty minutes, a minute sixty seconds. */
  lemma {:induction false} WaitUnitsAgree(amount: nat)
    ensures WaitMillis("hrs", amount) == WaitMillis("min", 60 * amount)
    ensures WaitMillis("min", amount) == WaitMillis("sec", 60 * amount)
    ensures WaitMillis("sec", amount) == WaitMillis("milsec", 1000 * amount)
  {
  }

  lemma {:induction false} NoCloseBeyondEnd(s: string, c: Closer)
    ensures !ClosesAt(s, |s|, c)
  {
  }

  lemma {:induction false} SpanAll(s: string, p: char -> bool)
    requires forall k :: 0 <= k < |s| ==> p(s[k])
    ensures Span(s, p) == |s|
  {
    SpanUnique(s, p, |s|);
  }

  /** The search for a closer finds the last position where it matches, and
      finds none only when it matches nowhere. */
  lemma {:induction false} LastCloseIsLast(s: string, lo: nat, k: nat, c: Closer)
    requires lo <= k <= |s|
    ensures var r := LastClose(s, lo, k, c);
              && (r.Some? ==> ClosesAt(s, r.value, c) && forall j :: r.value < j <= k ==> !ClosesAt(s, j, c))
              && (r.None? ==> forall j :: lo <= j <= k ==> !ClosesAt(s, j, c))
  {
    if LastClose(s, lo, k, c).Some? {
      LastCloseFound(s, lo, k, c);
    } else {
      LastCloseMissing(s, lo, k, c);
    }
  }

  lemma {:induction false} LastCloseFound(s: string, lo: nat, k: nat, c: Closer)
    requires lo <= k <= |s| && LastClose(s, lo, k, c).Some?
    ensures var m := LastClose(s, lo, k, c).value;
              ClosesAt(s, m, c) && forall j :: m < j <= k ==> !ClosesAt(s, j, c)
    decreases k - lo
  {
    if !ClosesAt(s, k, c) {
      LastCloseFound(s, lo, k - 1, c);
      var m := LastClose(s, lo, k, c).value;
      assert m == LastClose(s, lo, k - 1, c).value;
      forall j | m < j <= k
        ensures !ClosesAt(s, j, c)
      {
      }
    }
  }

  lemma {:induction false} LastCloseMissing(s: string, lo: nat, k: nat, c: Closer)
    requires lo <= k <= |s| && LastClose(s, lo, k, c).None?
    ensures forall j :: lo <= j <= k ==> !ClosesAt(s, j, c)
    decreases k - lo
  {
    if k > lo {
      LastCloseMissing(s, lo, k - 1, c);
    }
  }

  /** A position where the closer matches, with no match after it up to `k`,
      is what the search returns. */
  lemma {:induction false} LastCloseAt(s: string, lo: nat, k: nat, c: Closer, m: nat)
    requires lo <= m <= k <= |s|
    requires ClosesAt(s, m, c) && forall j :: m < j <= k ==> !ClosesAt(s, j, c)
    ensures LastClose(s, lo, k, c) == Some(m)
    decreases k - m
  {
    if k > m {
      LastCloseAt(s, lo, k - 1, c, m);
    }
  }

  /** A greedy group followed by `")` at the end of the text ends at that quote. */
  lemma {:induction false} QuoteParenGroupEnd(s: string, lo: nat)
    requires 2 <= lo + 2 <= |s| && '\n' !in s[lo..]
    requires s[|s| - 2..] == "\")"
    ensures GroupEnd(s, lo, QuoteParen) == Some(|s| - 2)
  {
    SpanAll(s[lo..], NotNewline);
    var k := |s| - 2;
    assert s[k] == '"' && s[k + 1] == ')';
    SpanUnique(s[k + 1..], IsSpace, 0);
    forall j | k < j <= |s|
      ensures !ClosesAt(s, j, QuoteParen)
    {
      NoCloseBeyondEnd(s, QuoteParen);
    }
    LastCloseAt(s, lo, |s|, QuoteParen, k);
  }

  /** `wait.` + unit + `(` + digits + `)` is read back as the unit and the
      decimal value of the digits. */
  lemma {:induction false} WaitFormRoundTrip(unit: string, ds: string)
    requires unit != [] && forall k :: 0 <= k < |unit| ==> IsWordChar(unit[k])
    requires ds != [] && forall k :: 0 <= k < |ds| ==> IsDigit(ds[k])
    ensures WaitForm("wait." + unit + "(" + ds + ")") == Some((unit, DigitsValue(ds)))
  {
    var s := "wait." + unit + "(" + ds + ")";
    var u, n := |unit|, |ds|;
    assert s[..5] == "wait.";
    WaitUnitSpan(unit, ds);
    WaitDigitSpan(unit, ds);
    assert s[5 + u] == '(' && s[6 + u + n] == ')';
    assert s[5..5 + u] == unit && s[6 + u..6 + u + n] == ds;
    WaitFormAt(s, u, n);
  }

  lemma {:induction false} WaitUnitSpan(unit: string, ds: string)
    requires forall k :: 0 <= k < |unit| ==> IsWordChar(unit[k])
    ensures Span(("wait." + unit + "(" + ds + ")")[5..], IsWordChar) == |unit|
  {
    assert ("wait." + unit + "(" + ds + ")")[5..] == unit + ("(" + ds + ")");
    SpanAll(unit, IsWordChar);
    SpanUnique("(" + ds + ")", IsWordChar, 0);
    SpanAppend(unit, "(" + ds + ")", IsWordChar);
  }

  lemma {:induction false} WaitDigitSpan(unit: string, ds: string)
    requires forall k :: 0 <= k < |ds| ==> IsDigit(ds[k])
    ensures Span(("wait." + unit + "(" + ds + ")")[6 + |unit|..], IsDigit) == |ds|
  {
    assert ("wait." + unit + "(" + ds + ")")[6 + |unit|..] == ds + ")";
    SpanAll(ds, IsDigit);
    SpanUnique(")", IsDigit, 0);
    SpanAppend(ds, ")", IsDigit);
  }

  /** The wait pattern matches once its pieces are found where it expects them. */
  lemma {:induction false} WaitFormAt(s: string, u: nat, n: nat)
    requires StartsWith(s, "wait.") && 0 < u && 0 < n && 6 + u + n < |s|
    requires Span(s[5..], IsWordChar) == u && s[5 + u] == '('
    requires Span(s[6 + u..], IsDigit) == n && s[6 + u + n] == ')'
    ensures WaitForm(s) == Some((s[5..5 + u], DigitsValue(s[6 + u..6 + u + n])))
  {
  }

  /** `in("` + prompt + `")` is read back as the prompt, whatever the prompt holds. */
  lemma {:induction false} InputFormRoundTrip(prompt: string)
    requires '\n' !in prompt
    ensures InputForm("in(\"" + prompt + "\")") == Some(prompt)
  {
    var s := "in(\"" + prompt + "\")";
    assert s[..2] == "in";
    assert s[2] == '(' && s[3] == '"';
    SpanUnique(s[2..], IsSpace, 0);
    SpanUnique(s[3..], IsSpace, 0);
    assert s[4..] == prompt + "\")";
    assert s[|s| - 2..] == "\")";
    QuoteParenGroupEnd(s, 4);
    assert s[4..|s| - 2] == prompt;
  }

  /** A greedy group followed by `)` at the end of the text ends at that `)`. */
  lemma {:induction false} ParenGroupEnd(s: string, lo: nat)
    requires 1 <= lo + 1 <= |s| && '\n' !in s[lo..]
    requires s[|s| - 1] == ')'
    ensures GroupEnd(s, lo, Paren) == Some(|s| - 1)
  {
    SpanAll(s[lo..], NotNewline);
    var k := |s| - 1;
    SpanUnique(s[k..], IsSpace, 0);
    NoCloseBeyondEnd(s, Paren);
    LastCloseAt(s, lo, |s|, Paren, k);
  }

  /** The blanks after `out(` are those that open the argument. */
  lemma {:induction false} OutArgumentStart(e: string)
    ensures var s := "out(" + e + ")";
              SkipSpace(s, 4) == 4 + Span(e, IsSpace) && s[4 + Span(e, IsSpace)..] == StripLeft(e) + ")"
  {
    var s := "out(" + e + ")";
    SkipSpaceSpan(s, 4);
    assert s[4..] == e + ")";
    SpanAppend(e, ")", IsSpace);
    SpanUnique(")", IsSpace, 0);
    AllSpaceSpan(e);
  }

  /** `out(` + e + `)` is read back as e, less its leading blanks. */
  lemma {:induction false} OutArgumentRoundTrip(e: string)
    requires '\n' !in e
    ensures OutArgument("out(" + e + ")") == Some(StripLeft(e))
  {
    var s := "out(" + e + ")";
    assert s[..3] == "out";
    assert s[3] == '(';
    SpanUnique(s[3..], IsSpace, 0);
    OutArgumentStart(e);
    var lo := 4 + Span(e, IsSpace);
    var t := StripLeft(e);
    assert '\n' !in t by {
      assert t == e[Span(e, IsSpace)..];
    }
    assert s[lo..] == t + ")";
    ParenGroupEnd(s, lo);
    assert s[lo..|s| - 1] == t;
    OutArgumentFrom(s, lo, |s| - 1);
  }

  lemma {:induction false} OutArgumentFrom(s: string, lo: nat, k: nat)
    requires StartsWith(s, "out") && SkipSpace(s, 3) == 3 && CharAt(s, 3, '(')
    requires SkipSpace(s, 4) == lo && GroupEnd(s, lo, Paren) == Some(k)
    ensures OutArgument(s) == Some(s[lo..k])
  {
  }

  /** A greedy group followed by `) {` at the end of the text ends at that `)`. */
  lemma {:induction false} ParenBraceGroupEnd(s: string, lo: nat)
    requires 3 <= lo + 3 <= |s| && '\n' !in s[lo..]
    requires s[|s| - 3..] == ") {"
    ensures GroupEnd(s, lo, ParenBrace) == Some(|s| - 3)
  {
    SpanAll(s[lo..], NotNewline);
    var k := |s| - 3;
    assert s[k] == ')' && s[k + 1] == ' ' && s[k + 2] == '{';
    SpanUnique(s[k + 1..], IsSpace, 1);
    forall j | k < j <= |s|
      ensures !ClosesAt(s, j, ParenBrace)
    {
      NoCloseBeyondEnd(s, ParenBrace);
    }
    LastCloseAt(s, lo, |s|, ParenBrace, k);
  }

  lemma {:induction false} ConditionAtRoundTrip(kw: string, c: string)
    requires '\n' !in c && '\n' !in kw
    ensures ConditionAt(kw + " (" + c + ") {", kw, 0) == Some(c)
  {
    var s := kw + " (" + c + ") {";
    assert s[0..] == s;
    assert s[..|kw|] == kw;
    var a := |kw| + 1;
    assert s[|kw|] == ' ' && s[a] == '(';
    SpanUnique(s[|kw|..], IsSpace, 1);
    assert SkipSpace(s, |kw|) == a;
    assert s[a + 1..] == c + ") {";
    assert s[|s| - 3..] == ") {";
    ParenBraceGroupEnd(s, a + 1);
    assert s[a + 1..|s| - 3] == c;
  }

  /** `kw (` + c + `) {` is read back as the condition c, at the first position. */
  lemma {:induction false} ConditionRoundTrip(kw: string, c: string)
    requires '\n' !in c
    requires kw == "if" || kw == "else if"
    ensures SearchCondition(kw + " (" + c + ") {", kw, 0) == Some(c)
  {
    ConditionAtRoundTrip(kw, c);
  }

  /** `rep ` + digits + ` {` is read back as the number the digits spell. */
  lemma {:induction false} RepeatRoundTrip(ds: string)
    requires ds != [] && forall k :: 0 <= k < |ds| ==> IsDigit(ds[k])
    ensures RepeatCount("rep " + ds + " {") == Some(DigitsValue(ds))
  {
    var s := "rep " + ds + " {";
    assert s[0..] == s;
    assert s[..3] == "rep";
    var d := 4;
    assert SkipSpace(s, 3) == d by {
      assert s[3] == ' ' && s[4] == ds[0];
      SpanUnique(s[3..], IsSpace, 1);
    }
    var t := d + |ds|;
    assert Span(s[d..], IsDigit) == |ds| by {
      assert s[d..] == ds + " {";
      SpanUnique(s[d..], IsDigit, |ds|);
    }
    assert CharAt(s, SkipSpace(s, t), '{') by {
      assert s[t] == ' ' && s[t + 1] == '{';
      SpanUnique(s[t..], IsSpace, 1);
    }
    assert s[d..t] == ds;
    assert RepeatAt(s, 0) == Some(DigitsValue(ds));
  }

  /** An identifier is one maximal run of word characters. */
  lemma {:induction false} IdentifierIsWord(s: string)
    requires IsIdentifier(s)
    ensures Span(s, IsWordChar) == |s|
  {
    SpanUnique(s, IsWordChar, |s|);
  }
}
