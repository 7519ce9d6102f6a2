/** `eval_expr`: the literal shortcut, the `in("...")` form, whole-token
    identifier substitution, and the host evaluator (Python's `eval`, which
    stays a parameter). */
module Expressions {
  import opened Wrappers
  import opened Text
  import opened Patterns
  import opened State

  predicate IsQuote(c: char) { c == '"' || c == '\'' }

  /** The text starts and ends with the same quote character. */
  predicate IsQuoted(e: string) {
    |e| >= 1 && IsQuote(e[0]) && e[|e| - 1] == e[0]
  }

  /** `e[1:-1]`: the text without its first and last characters. */
  function Unquote(e: string): string {
    if |e| < 2 then [] else e[1..|e| - 1]
  }

  /** `re.sub(r'\b[A-Za-z_][A-Za-z0-9_]*\b', replacer, s)`: every maximal run of
      word characters that starts with a letter or an underscore and is bound
      in `env` is replaced by the rendering of its value; everything else stays. */
  function Substitute(s: string, env: map<string, Value>): string
    decreases |s|
  {
    if s == [] then []
    else if IsWordChar(s[0]) then
      var n := Span(s, IsWordChar);
      Replacement(s[..n], env) + Substitute(s[n..], env)
    else [s[0]] + Substitute(s[1..], env)
  }

  /** What the replacer returns for one run of word characters. */
  function Replacement(w: string, env: map<string, Value>): string
    requires w != []
  {
    if IsIdentStart(w[0]) && w in env then Render(env[w]) else w
  }

  /** A value of `eval_expr` together with the state it leaves behind. */
  datatype Evaluated = Evaluated(value: Value, st: State)

  /** `eval_expr(expr)`. Evaluation never changes the environment; it reads
      at most one line of input and only appends to the trace. */
  function Eval(h: Host, expr: string, st: State): (r: Evaluated)
    ensures r.st.env == st.env
    ensures r.st.input == st.input || (st.input != [] && r.st.input == st.input[1..])
    ensures st.trace <= r.st.trace
  {
    var e := Strip(expr);
    if IsQuoted(e) then Evaluated(Str(Unquote(e)), st)
    else
      match InputForm(e)
      case Some(prompt) =>
        var asked := st.Emit(Prompted(prompt + " "));
        if st.input == [] then Evaluated(Nil, asked.Report(EvaluationFailed(e)))
        else Evaluated(Str(st.input[0]), asked.(input := st.input[1..]))
      case None =>
        var s := Substitute(e, st.env);
        match h(s)
        case Some(v) => Evaluated(v, st)
        case None => Evaluated(Nil, st.Report(EvaluationFailed(s)))
  }

  /** `eval_expr('in("p")')` writes the prompt `p` and a blank, then returns
      the first input line and consumes it; on an exhausted input the
      `EOFError` is caught: the value is None and the expression is reported. */
  lemma {:induction false} EvalInputForm(h: Host, p: string, st: State)
    requires '\n' !in p
    ensures var e := "in(\"" + p + "\")";
            var asked := st.Emit(Prompted(p + " "));
            Eval(h, e, st)
            == if st.input == [] then Evaluated(Nil, asked.Report(EvaluationFailed(e)))
               else Evaluated(Str(st.input[0]), asked.(input := st.input[1..]))
  {
    var e := "in(\"" + p + "\")";
    assert Strip(e) == e by {
      assert [] + e + [] == e;
      StripQuoted([], e, []);
    }
    assert !IsQuoted(e);
    InputFormRoundTrip(p);
  }

  /** Any other expression has its bound names substituted and goes to
      `eval`: its value is what `eval` gives, with input and output
      untouched, or None and the report of the substituted text when `eval`
      raises. */
  lemma {:induction false} EvalHost(h: Host, expr: string, st: State)
    requires !IsQuoted(Strip(expr)) && InputForm(Strip(expr)).None?
    ensures var s := Substitute(Strip(expr), st.env);
            Eval(h, expr, st)
            == match h(s)
               case Some(v) => Evaluated(v, st)
               case None => Evaluated(Nil, st.Report(EvaluationFailed(s)))
  {
  }

  // ---------------------------------------------------------------------
  // Substitution works token by token

  /** With nothing bound, substitution leaves the text as it is. */
  lemma {:induction false} SubstituteEmpty(s: string)
    ensures Substitute(s, map[]) == s
    decreases |s|
  {
    if s != [] {
      if IsWordChar(s[0]) {
        var n := Span(s, IsWordChar);
        SubstituteEmpty(s[n..]);
        assert s[..n] + s[n..] == s;
      } else {
        SubstituteEmpty(s[1..]);
        assert [s[0]] + s[1..] == s;
      }
    }
  }

  /** Substitution splits at every token boundary: cutting the text between a
      word character and a non-word character (or at either end) and
      substituting the parts gives the same result. */
  lemma {:induction false} SubstituteAppend(a: string, b: string, env: map<string, Value>)
    requires a == [] || b == [] || !IsWordChar(a[|a| - 1]) || !IsWordChar(b[0])
    ensures Substitute(a + b, env) == Substitute(a, env) + Substitute(b, env)
    decreases |a|, 1
  {
    if a == [] {
      assert a + b == b;
    } else if !IsWordChar(a[0]) {
      SubstituteAppendChar(a, b, env);
    } else if Span(a, IsWordChar) == |a| {
      SubstituteWholeWord(a, b, env);
    } else {
      SubstituteAppendWord(a, b, env);
    }
  }

  lemma {:induction false} SubstituteAppendChar(a: string, b: string, env: map<string, Value>)
    requires a != [] && !IsWordChar(a[0])
    requires b == [] || !IsWordChar(a[|a| - 1]) || !IsWordChar(b[0])
    ensures Substitute(a + b, env) == Substitute(a, env) + Substitute(b, env)
    decreases |a|, 0
  {
    assert (a + b)[0] == a[0];
    assert (a + b)[1..] == a[1..] + b;
    SubstituteAppend(a[1..], b, env);
  }

  lemma {:induction false} SubstituteAppendWord(a: string, b: string, env: map<string, Value>)
    requires a != [] && IsWordChar(a[0]) && Span(a, IsWordChar) < |a|
    requires b == [] || !IsWordChar(a[|a| - 1]) || !IsWordChar(b[0])
    ensures Substitute(a + b, env) == Substitute(a, env) + Substitute(b, env)
    decreases |a|, 0
  {
    var n := Span(a, IsWordChar);
    var rest := a[n..];
    WordRunAppend(a, b);
    assert (a + b)[..n] == a[..n];
    assert (a + b)[n..] == rest + b;
    SubstituteWordHead(a + b, n, env);
    SubstituteWordHead(a, n, env);
    assert rest[|rest| - 1] == a[|a| - 1];
    SubstituteAppend(rest, b, env);
    calc {
      Substitute(a + b, env);
      Replacement(a[..n], env) + Substitute(rest + b, env);
      Replacement(a[..n], env) + (Substitute(rest, env) + Substitute(b, env));
      (Replacement(a[..n], env) + Substitute(rest, env)) + Substitute(b, env);
      Substitute(a, env) + Substitute(b, env);
    }
  }

  /** A run of word characters that ends inside `a` ends at the same place in `a + b`. */
  lemma {:induction false} WordRunAppend(a: string, b: string)
    requires a != [] && IsWordChar(a[0]) && Span(a, IsWordChar) < |a|
    ensures Span(a + b, IsWordChar) == Span(a, IsWordChar)
    ensures (a + b)[0] == a[0]
  {
    SpanAppend(a, b, IsWordChar);
  }

  /** A text that starts with a word character: its first run of word
      characters is replaced, then the rest is substituted. */
  lemma {:induction false} SubstituteWordHead(s: string, n: nat, env: map<string, Value>)
    requires s != [] && IsWordChar(s[0]) && n == Span(s, IsWordChar)
    ensures n > 0 && Substitute(s, env) == Replacement(s[..n], env) + Substitute(s[n..], env)
  {
  }

  lemma {:induction false} SubstituteWholeWord(a: string, b: string, env: map<string, Value>)
    requires a != [] && Span(a, IsWordChar) == |a|
    requires b == [] || !IsWordChar(b[0])
    ensures Substitute(a + b, env) == Substitute(a, env) + Substitute(b, env)
  {
    var n := |a|;
    SpanAppend(a, b, IsWordChar);
    SpanUnique(b, IsWordChar, 0);
    assert Span(a + b, IsWordChar) == n;
    assert (a + b)[..n] == a && (a + b)[n..] == b;
    assert a[..n] == a && a[n..] == [];
    assert Substitute(a, env) == Replacement(a, env) + Substitute([], env);
  }

  /** A single identifier is replaced by the rendering of its value when it is
      bound, and kept when it is not. */
  lemma {:induction false} SubstituteIdentifier(w: string, env: map<string, Value>)
    requires IsIdentifier(w)
    ensures Substitute(w, env) == if w in env then Render(env[w]) else w
  {
    IdentifierIsWord(w);
    assert w[..|w|] == w && w[|w|..] == [];
  }

  /** A character that cannot be part of an identifier is never replaced. */
  lemma {:induction false} SubstituteNonWord(c: char, env: map<string, Value>)
    requires !IsWordChar(c)
    ensures Substitute([c], env) == [c]
  {
  }

  /** A run of word characters that starts with a digit is never replaced,
      even when a name equal to it, or to its tail, is bound. */
  lemma {:induction false} SubstituteNumberWord(w: string, env: map<string, Value>)
    requires w != [] && IsDigit(w[0]) && forall k :: 0 <= k < |w| ==> IsWordChar(w[k])
    ensures Substitute(w, env) == w
  {
    SpanUnique(w, IsWordChar, |w|);
    assert w[..|w|] == w && w[|w|..] == [];
  }

  // ---------------------------------------------------------------------
  // The literal shortcut

  lemma {:induction false} StripQuoted(pre: string, x: string, post: string)
    requires AllSpace(pre) && AllSpace(post)
    requires x != [] && !IsSpace(x[0]) && !IsSpace(x[|x| - 1])
    ensures Strip(pre + x + post) == x
  {
    StripLeftPadded(pre, x, post);
    StripRightPadded(x, post);
  }

  lemma {:induction false} StripLeftPadded(pre: string, x: string, post: string)
    requires AllSpace(pre)
    requires x != [] && !IsSpace(x[0])
    ensures StripLeft(pre + x + post) == x + post
  {
    assert pre + x + post == pre + (x + post);
    StripLeftAppend(pre, x + post);
    assert (x + post)[0] == x[0];
    SpanUnique(x + post, IsSpace, 0);
  }

  lemma {:induction false} StripRightPadded(x: string, post: string)
    requires AllSpace(post)
    requires x != [] && !IsSpace(x[|x| - 1])
    ensures StripRight(x + post) == x
  {
    StripRightAppend(x, post);
    SpanBackUnique(x, IsSpace, 0);
  }

  /** A quoted text, with blanks around it, evaluates to the text between the
      quotes: no substitution, no input, no host evaluation, no output. */
  lemma {:induction false} QuotedLiteral(h: Host, pre: string, q: char, t: string, post: string, st: State)
    requires IsQuote(q) && AllSpace(pre) && AllSpace(post)
    ensures Eval(h, pre + [q] + t + [q] + post, st) == Evaluated(Str(t), st)
  {
    var x := [q] + t + [q];
    assert pre + [q] + t + [q] + post == pre + x + post;
    StripQuoted(pre, x, post);
    assert IsQuoted(x);
    assert x[1..|x| - 1] == t;
  }

  /** Evaluating an expression that reads no input twice under the same
      environment gives the same value. */
  lemma {:induction false} EvalRepeatable(h: Host, expr: string, st: State, st': State)
    requires st'.env == st.env
    requires IsQuoted(Strip(expr)) || InputForm(Strip(expr)).None?
    ensures Eval(h, expr, st').value == Eval(h, expr, st).value
  {
  }
}
