/** What `run_relief` does in the situations its users meet: a text without
    an entry point, `rep n`, the scan after a false `if`, `stop()` inside
    nested blocks, and the quirks of its line classification. */
module Behaviour {
  import opened Wrappers
  import opened Text
  import opened Patterns
  import opened State
  import opened Expressions
  import opened Blocks
  import opened Semantics
  import opened Properties

  // ---------------------------------------------------------------------
  // Entry point

  /** A text without the marker, or without any `}`, is reported as having
      no entry point; no statement runs and the environment is unchanged. */
  lemma {:induction false} NoEntryPoint(h: Host, code: string, st: State)
    requires '}' !in code || forall q :: 0 <= q <= |code| ==> !StartsWith(code[q..], Marker)
    ensures RunCode(h, code, st) == Run(st.Report(EntryPointNotFound), Done)
    ensures RunCode(h, code, st).st.env == st.env
  {
    if '}' !in code {
      NoBraceNoEntry(code);
    } else {
      NoMarkerNoEntry(code);
    }
  }

  /** Running a captured block is running its re-wrapped text from the top. */
  lemma {:induction false} RunBlockIsRunCode(h: Host, block: seq<string>, st: State)
    requires BreakFree(block)
    ensures RunCode(h, Wrap(block), st) == RunBlock(h, block, st)
  {
    ExtractWrap(block);
  }

  // ---------------------------------------------------------------------
  // One line of the loop

  /** A blank line does nothing; the loop goes on at the next line. */
  lemma {:induction false} BlankStep(h: Host, body: seq<string>, i: nat, st: State)
    requires i < |body| && AllSpace(body[i])
    ensures ExecFrom(h, body, i, st) == ExecFrom(h, body, i + 1, st)
  {
    assert Strip(body[i]) == [];
    assert Classify(Strip(body[i])) == Blank;
    assert ExecLine(h, body, i, st) == ExecSimple(h, body, i, st);
  }

  /** A line that holds a one-line statement (or nothing) is run, and the
      loop goes on at the next line unless the statement aborted. */
  lemma {:induction false} SimpleLineStep(h: Host, body: seq<string>, i: nat, st: State)
    requires i < |body| && Classify(Strip(body[i])) !in {StopLine, RepLine, IfLine}
    ensures ExecFrom(h, body, i, st) == AfterBlock(h, body, i, SimpleStep(h, Strip(body[i]), st))
  {
    assert ExecFrom(h, body, i, st) == ExecLine(h, body, i, st);
    assert ExecLine(h, body, i, st) == ExecSimple(h, body, i, st);
  }

  /** A line that is no statement the loop knows is skipped without any
      report. */
  lemma {:induction false} IgnoredStep(h: Host, body: seq<string>, i: nat, st: State)
    requires i < |body| && Classify(Strip(body[i])) == Ignored
    ensures ExecFrom(h, body, i, st) == ExecFrom(h, body, i + 1, st)
  {
    assert ExecLine(h, body, i, st) == ExecSimple(h, body, i, st);
    assert SimpleStep(h, Strip(body[i]), st) == Run(st, Done);
    assert ExecSimple(h, body, i, st) == AfterBlock(h, body, i, Run(st, Done));
  }

  /** There is no function definition or call: a `defy(<name>) {` line and
      a `<name>()` line are both ignored, so the lines of the would-be
      function body run in place, once. */
  lemma {:induction false} DefyIgnored()
    ensures Classify("defy(greet) {") == Ignored
    ensures Classify("greet()") == Ignored
  {
    var d := "defy(greet) {";
    var g := "greet()";
    assert forall k :: 0 <= k < |d| ==> d[k] != '=';
    assert forall k :: 0 <= k < |g| ==> g[k] != '=';
    CharDiffers(d, "stop()", 0); CharDiffers(d, "wait.", 0); CharDiffers(d, "out", 0);
    CharDiffers(d, "in", 0); CharDiffers(d, "rep", 0); CharDiffers(d, "if", 0);
    CharDiffers(g, "stop()", 0); CharDiffers(g, "wait.", 0); CharDiffers(g, "out", 0);
    CharDiffers(g, "in", 0); CharDiffers(g, "rep", 0); CharDiffers(g, "if", 0);
  }

  // ---------------------------------------------------------------------
  // rep n

  /** A `rep` line with a count hands over to the repetition of its block. */
  lemma {:induction false} RepLineStep(h: Host, body: seq<string>, i: nat, n: nat, st: State)
    requires i < |body| && Classify(Strip(body[i])) == RepLine && RepeatCount(Strip(body[i])) == Some(n)
    ensures ExecFrom(h, body, i, st) == RepBranch(h, body, i, n, st)
  {
    assert ExecFrom(h, body, i, st) == ExecRep(h, body, i, st) by {
      assert ExecFrom(h, body, i, st) == ExecLine(h, body, i, st);
    }
  }

  /** `rep <n> {` at line `i` runs the captured block `n` times and goes on
      after the block's closing line, unless a run stopped or aborted. */
  lemma {:induction false} RepStep(h: Host, body: seq<string>, i: nat, n: nat, st: State)
    requires i < |body| && Classify(Strip(body[i])) == RepLine && RepeatCount(Strip(body[i])) == Some(n)
    ensures var e := CaptureEnd(body, i + 1);
            var r := Repeat(h, body[i + 1..e], n, st);
            ExecFrom(h, body, i, st) == if r.outcome != Done then r else ExecFrom(h, body, e + 1, r.st)
  {
    var e := CaptureEnd(body, i + 1);
    var r := Repeat(h, body[i + 1..e], n, st);
    calc {
      ExecFrom(h, body, i, st);
      { RepLineStep(h, body, i, n, st); }
      RepBranch(h, body, i, n, st);
      { RepBranchUnfold(h, body, i, n, st); }
      AfterBlock(h, body, e, r);
      { AfterBlockUnfold(h, body, e, r); }
      if r.outcome != Done then r else ExecFrom(h, body, e + 1, r.st);
    }
  }

  lemma {:induction false} RepBranchUnfold(h: Host, body: seq<string>, i: nat, n: nat, st: State)
    requires i < |body|
    ensures var e := CaptureEnd(body, i + 1);
            RepBranch(h, body, i, n, st) == AfterBlock(h, body, e, Repeat(h, body[i + 1..e], n, st))
  {
  }

  lemma {:induction false} AfterBlockUnfold(h: Host, body: seq<string>, e: nat, r: Run)
    requires e <= |body| + 1
    ensures AfterBlock(h, body, e, r) == if r.outcome != Done then r else ExecFrom(h, body, e + 1, r.st)
  {
  }

  /** A `rep` line without a count is reported and the loop goes on at the
      next line, so the block after it runs once, as ordinary lines. */
  lemma {:induction false} RepMalformed(h: Host, body: seq<string>, i: nat, st: State)
    requires i < |body| && Classify(Strip(body[i])) == RepLine && RepeatCount(Strip(body[i])) == None
    ensures ExecFrom(h, body, i, st)
         == ExecFrom(h, body, i + 1, st.Report(InvalidRepSyntax(Strip(body[i]))))
  {
    assert ExecLine(h, body, i, st) == ExecRep(h, body, i, st);
  }

  /** `rep 0 { ... }` runs nothing and goes on after the captured block. */
  lemma {:induction false} RepZeroSkipsBlock(h: Host, body: seq<string>, i: nat, st: State)
    requires i < |body| && Classify(Strip(body[i])) == RepLine && RepeatCount(Strip(body[i])) == Some(0)
    ensures ExecFrom(h, body, i, st) == ExecFrom(h, body, CaptureEnd(body, i + 1) + 1, st)
  {
    RepStep(h, body, i, 0, st);
  }

  /** `n` repetitions followed by `m` more are `n + m` repetitions: each run
      starts from the state the previous one left, so changes accumulate. */
  lemma {:induction false} RepeatAdd(h: Host, block: seq<string>, n: nat, m: nat, st: State)
    ensures Repeat(h, block, n + m, st)
         == (var r := Repeat(h, block, n, st);
             if r.outcome != Done then r else Repeat(h, block, m, r.st))
    decreases n
  {
    if n > 0 {
      var r := RunBlock(h, block, st);
      if r.outcome == Done {
        RepeatAdd(h, block, n - 1, m, r.st);
      }
    }
  }

  /** The last of `n + 1` repetitions runs the block once more on the state
      the first `n` left. */
  lemma {:induction false} RepeatSnoc(h: Host, block: seq<string>, n: nat, st: State)
    ensures Repeat(h, block, n + 1, st)
         == (var r := Repeat(h, block, n, st);
             if r.outcome != Done then r else RunBlock(h, block, r.st))
  {
    RepeatAdd(h, block, n, 1, st);
    var r := Repeat(h, block, n, st);
    if r.outcome == Done {
      assert Repeat(h, block, 0, RunBlock(h, block, r.st).st) == Run(RunBlock(h, block, r.st).st, Done);
    }
  }

  // ---------------------------------------------------------------------
  // if / else if / else

  /** An `if` line with a condition evaluates it and hands over to the
      branch that the value selects. */
  lemma {:induction false} IfLineStep(h: Host, body: seq<string>, i: nat, c: string, st: State)
    requires i < |body| && Classify(Strip(body[i])) == IfLine && IfCondition(Strip(body[i])) == Some(c)
    ensures ExecFrom(h, body, i, st) == IfBranch(h, body, i, Eval(h, c, st))
  {
    assert ExecFrom(h, body, i, st) == ExecIf(h, body, i, st) by {
      assert ExecFrom(h, body, i, st) == ExecLine(h, body, i, st);
    }
  }

  /** A true `if` runs its block and goes on at the line after the block's
      closing line. With the usual layout that line is the body of the
      `} else {` that closed the block, which therefore runs as well. */
  lemma {:induction false} IfTrueStep(h: Host, body: seq<string>, i: nat, c: string, st: State)
    requires i < |body| && Classify(Strip(body[i])) == IfLine && IfCondition(Strip(body[i])) == Some(c)
    requires Truthy(Eval(h, c, st).value)
    ensures var ev := Eval(h, c, st);
            var e := CaptureEnd(body, i + 1);
            var r := RunBlock(h, body[i + 1..e], ev.st);
            ExecFrom(h, body, i, st) == if r.outcome != Done then r else ExecFrom(h, body, e + 1, r.st)
  {
    var ev := Eval(h, c, st);
    var e := CaptureEnd(body, i + 1);
    IfLineStep(h, body, i, c, st);
    IfTrueUnfold(h, body, i, ev);
    AfterBlockUnfold(h, body, e, RunBlock(h, body[i + 1..e], ev.st));
  }

  lemma {:induction false} IfTrueUnfold(h: Host, body: seq<string>, i: nat, ev: Evaluated)
    requires i < |body| && Truthy(ev.value)
    ensures var e := CaptureEnd(body, i + 1);
            IfBranch(h, body, i, ev) == AfterBlock(h, body, e, RunBlock(h, body[i + 1..e], ev.st))
  {
  }

  /** A false `if` scans for its `else if` / `else` after the block and goes
      on after the line where the scan ended. */
  lemma {:induction false} IfFalseStep(h: Host, body: seq<string>, i: nat, c: string, st: State)
    requires i < |body| && Classify(Strip(body[i])) == IfLine && IfCondition(Strip(body[i])) == Some(c)
    requires !Truthy(Eval(h, c, st).value)
    ensures var ev := Eval(h, c, st);
            var s := ScanElse(h, body, CaptureEnd(body, i + 1) + 1, ev.st);
            ExecFrom(h, body, i, st) == if s.run.outcome != Done then s.run else ExecFrom(h, body, s.at + 1, s.run.st)
  {
    var ev := Eval(h, c, st);
    var s := ScanElse(h, body, CaptureEnd(body, i + 1) + 1, ev.st);
    IfLineStep(h, body, i, c, st);
    IfFalseUnfold(h, body, i, ev);
    AfterBlockUnfold(h, body, s.at, s.run);
  }

  /** An `if` line without a parenthesised condition (`ifx = 1`, which is
      not taken for an assignment) is reported and the loop goes on. */
  lemma {:induction false} IfMalformed(h: Host, body: seq<string>, i: nat, st: State)
    requires i < |body| && Classify(Strip(body[i])) == IfLine && IfCondition(Strip(body[i])) == None
    ensures ExecFrom(h, body, i, st)
         == ExecFrom(h, body, i + 1, st.Report(InvalidIfSyntax(Strip(body[i]))))
  {
    assert ExecLine(h, body, i, st) == ExecIf(h, body, i, st);
  }

  /** No line in `[j, m)` starts with `else` (which includes `else if`). */
  predicate NoElseBetween(body: seq<string>, j: nat, m: nat) {
    forall k :: j <= k < m && k < |body| ==> !StartsWith(Strip(body[k]), "else")
  }

  lemma {:induction false} ElseIfStartsElse(s: string)
    ensures StartsWith(s, "else if") ==> StartsWith(s, "else")
  {
    if StartsWith(s, "else if") {
      assert s[..4] == s[..7][..4];
    }
  }

  /** The scan passes over a line that does not start with `else`. */
  lemma {:induction false} ElseStep(h: Host, body: seq<string>, j: nat, st: State)
    requires j < |body| && !StartsWith(Strip(body[j]), "else")
    ensures ScanElse(h, body, j, st) == ScanElse(h, body, j + 1, st)
  {
    ElseIfStartsElse(Strip(body[j]));
    assert ScanElse(h, body, j, st) == ScanLine(h, body, j, st);
  }

  /** Lines that do not start with `else` are skipped by the scan without
      being run, whatever they are. */
  lemma {:induction false} ScanSkips(h: Host, body: seq<string>, j: nat, m: nat, st: State)
    requires j <= m <= |body| && NoElseBetween(body, j, m)
    ensures ScanElse(h, body, j, st) == ScanElse(h, body, m, st)
    decreases m - j
  {
    if j < m {
      ElseStep(h, body, j, st);
      ScanSkips(h, body, j + 1, m, st);
    }
  }

  /** With no `else` line left, the scan runs nothing and reaches the end. */
  lemma {:induction false} ScanToEnd(h: Host, body: seq<string>, j: nat, st: State)
    requires j <= |body| + 1 && NoElseBetween(body, j, |body|)
    ensures ScanElse(h, body, j, st).run == Run(st, Done)
    ensures ScanElse(h, body, j, st).at >= |body|
  {
    if j <= |body| {
      ScanSkips(h, body, j, |body|, st);
    }
  }

  /** Going on after a line at or past the end of the body runs nothing. */
  lemma {:induction false} AfterBlockAtEnd(h: Host, body: seq<string>, e: nat, r: Run)
    requires |body| <= e <= |body| + 1
    ensures AfterBlock(h, body, e, r) == r
  {
    if r.outcome == Done {
      assert ExecFrom(h, body, e + 1, r.st) == Run(r.st, Done);
    }
  }

  /** A false condition with no `else` line after its block ends the body. */
  lemma {:induction false} FalseIfEndsBody(h: Host, body: seq<string>, i: nat, ev: Evaluated)
    requires i < |body| && !Truthy(ev.value)
    requires NoElseBetween(body, CaptureEnd(body, i + 1) + 1, |body|)
    ensures IfBranch(h, body, i, ev) == Run(ev.st, Done)
  {
    var j := CaptureEnd(body, i + 1) + 1;
    var s := ScanElse(h, body, j, ev.st);
    IfFalseUnfold(h, body, i, ev);
    ScanToEnd(h, body, j, ev.st);
    AfterBlockAtEnd(h, body, s.at, s.run);
  }

  /** A false `if` with no `else` line after its block skips the whole rest of
      the body: nothing after it runs. */
  lemma {:induction false} FalseIfSkipsRest(h: Host, body: seq<string>, i: nat, c: string, st: State)
    requires i < |body| && Classify(Strip(body[i])) == IfLine && IfCondition(Strip(body[i])) == Some(c)
    requires !Truthy(Eval(h, c, st).value)
    requires NoElseBetween(body, CaptureEnd(body, i + 1) + 1, |body|)
    ensures ExecFrom(h, body, i, st) == Run(Eval(h, c, st).st, Done)
  {
    IfLineStep(h, body, i, c, st);
    FalseIfEndsBody(h, body, i, Eval(h, c, st));
  }

  /** When the first `else`-line after a false condition is a plain `else`,
      its block runs, on the state the condition left, and the scan ends at
      that block's closing line. */
  lemma {:induction false} FirstElseRuns(h: Host, body: seq<string>, j: nat, m: nat, st: State)
    requires j <= m < |body| && NoElseBetween(body, j, m)
    requires StartsWith(Strip(body[m]), "else") && !StartsWith(Strip(body[m]), "else if")
    ensures var e := CaptureEnd(body, m + 1);
            ScanElse(h, body, j, st) == Scan(RunBlock(h, body[m + 1..e], st), e)
  {
    ScanSkips(h, body, j, m, st);
    ElseLineStep(h, body, m, st);
  }

  lemma {:induction false} ElseIfLine(h: Host, body: seq<string>, m: nat, c: string, st: State)
    requires m < |body| && StartsWith(Strip(body[m]), "else if") && ElseIfCondition(Strip(body[m])) == Some(c)
    ensures ScanElse(h, body, m, st) == ElseIfBranch(h, body, m, Eval(h, c, st))
  {
    assert ScanElse(h, body, m, st) == ScanLine(h, body, m, st);
  }

  lemma {:induction false} ElseIfMalformedStep(h: Host, body: seq<string>, m: nat, st: State)
    requires m < |body| && StartsWith(Strip(body[m]), "else if") && ElseIfCondition(Strip(body[m])) == None
    ensures ScanElse(h, body, m, st) == ScanElse(h, body, m + 1, st)
  {
    assert ScanElse(h, body, m, st) == ScanLine(h, body, m, st);
  }

  /** A plain `else` line runs its block and ends the scan at the block's
      closing line. */
  lemma {:induction false} ElseLineStep(h: Host, body: seq<string>, m: nat, st: State)
    requires m < |body| && StartsWith(Strip(body[m]), "else") && !StartsWith(Strip(body[m]), "else if")
    ensures var e := CaptureEnd(body, m + 1);
            ScanElse(h, body, m, st) == Scan(RunBlock(h, body[m + 1..e], st), e)
  {
    assert ScanElse(h, body, m, st) == ScanLine(h, body, m, st);
  }

  lemma {:induction false} ElseIfBranchUnfold(h: Host, body: seq<string>, m: nat, ev: Evaluated)
    requires m < |body|
    ensures var e := CaptureEnd(body, m + 1);
            ElseIfBranch(h, body, m, ev)
            == if Truthy(ev.value) then Scan(RunBlock(h, body[m + 1..e], ev.st), e)
               else ScanElse(h, body, e + 1, ev.st)
  {
  }

  /** When the first `else`-line is an `else if` with a condition, a true
      condition runs its block and ends the scan; a false one goes on
      scanning after its block. So at most one branch of the chain runs. */
  lemma {:induction false} FirstElseIfDecides(h: Host, body: seq<string>, j: nat, m: nat, c: string, st: State)
    requires j <= m < |body| && NoElseBetween(body, j, m)
    requires StartsWith(Strip(body[m]), "else if") && ElseIfCondition(Strip(body[m])) == Some(c)
    ensures var ev := Eval(h, c, st);
            var e := CaptureEnd(body, m + 1);
            ScanElse(h, body, j, st)
            == if Truthy(ev.value) then Scan(RunBlock(h, body[m + 1..e], ev.st), e)
               else ScanElse(h, body, e + 1, ev.st)
  {
    assert ScanElse(h, body, j, st) == ElseIfBranch(h, body, m, Eval(h, c, st)) by {
      ScanSkips(h, body, j, m, st);
      ElseIfLine(h, body, m, c, st);
    }
    ElseIfBranchUnfold(h, body, m, Eval(h, c, st));
  }

  /** An `else if` line without a parenthesised condition is skipped without
      evaluating anything, and the scan goes on. */
  lemma {:induction false} ElseIfMalformed(h: Host, body: seq<string>, j: nat, m: nat, st: State)
    requires j <= m < |body| && NoElseBetween(body, j, m)
    requires StartsWith(Strip(body[m]), "else if") && ElseIfCondition(Strip(body[m])) == None
    ensures ScanElse(h, body, j, st) == ScanElse(h, body, m + 1, st)
  {
    assert ScanElse(h, body, j, st) == ScanElse(h, body, m, st) by {
      ScanSkips(h, body, j, m, st);
    }
    ElseIfMalformedStep(h, body, m, st);
  }

  // ---------------------------------------------------------------------
  // stop()

  /** Where the first statement of `ls` is, and that every line before it is blank. */
  lemma {:induction false} FirstStatement(ls: seq<string>) returns (m: nat)
    requires Statements(ls) != []
    ensures m < |ls| && !AllSpace(ls[m]) && Strip(ls[m]) == Statements(ls)[0]
    ensures forall k :: 0 <= k < m ==> AllSpace(ls[k])
  {
    if AllSpace(ls[0]) {
      var m' := FirstStatement(ls[1..]);
      m := m' + 1;
      forall k | 0 <= k < m ensures AllSpace(ls[k]) {
        if k > 0 {
          assert ls[k] == ls[1..][k - 1];
        }
      }
    } else {
      m := 0;
    }
  }

  /** A `stop()` line stops the run on the spot, changing nothing. */
  lemma {:induction false} StopStep(h: Host, body: seq<string>, i: nat, st: State)
    requires i < |body| && StartsWith(Strip(body[i]), "stop()")
    ensures ExecFrom(h, body, i, st) == Run(st, Stopped)
  {
    assert Classify(Strip(body[i])) == StopLine;
    assert ExecFrom(h, body, i, st) == ExecLine(h, body, i, st);
  }

  /** Blank lines are passed over. */
  lemma {:induction false} BlanksSkip(h: Host, body: seq<string>, i: nat, m: nat, st: State)
    requires i <= m <= |body|
    requires forall k :: i <= k < m ==> AllSpace(body[k])
    ensures ExecFrom(h, body, i, st) == ExecFrom(h, body, m, st)
    decreases m - i
  {
    if i < m {
      assert ExecFrom(h, body, i, st) == ExecFrom(h, body, i + 1, st) by {
        BlankStep(h, body, i, st);
      }
      assert ExecFrom(h, body, i + 1, st) == ExecFrom(h, body, m, st) by {
        BlanksSkip(h, body, i + 1, m, st);
      }
    }
  }

  /** A block whose first statement is `stop()` stops as soon as it is run,
      without changing anything. */
  lemma {:induction false} StopFirst(h: Host, block: seq<string>, st: State)
    requires Statements(block) != [] && StartsWith(Statements(block)[0], "stop()")
    ensures RunBlock(h, block, st) == Run(st, Stopped)
  {
    TrimLeftKeepsStatements(block);
    TrimRightKeepsStatements(TrimLeftLines(block));
    var body := TrimLines(block);
    var m := FirstStatement(body);
    BlanksSkip(h, body, 0, m, st);
    StopStep(h, body, m, st);
  }

  /** A `rep` with a positive count whose block stops ends the enclosing
      block too, in the state the stop left: no later line of it runs. */
  lemma {:induction false} StopInsideRep(h: Host, body: seq<string>, i: nat, n: nat, st: State)
    requires i < |body|
    requires Classify(Strip(body[i])) == RepLine && RepeatCount(Strip(body[i])) == Some(n) && n >= 1
    requires RunBlock(h, body[i + 1..CaptureEnd(body, i + 1)], st).outcome == Stopped
    ensures ExecFrom(h, body, i, st) == RunBlock(h, body[i + 1..CaptureEnd(body, i + 1)], st)
  {
    RepStep(h, body, i, n, st);
  }

  /** A true `if` whose block stops ends the enclosing block too. */
  lemma {:induction false} StopInsideIf(h: Host, body: seq<string>, i: nat, c: string, st: State)
    requires i < |body| && Classify(Strip(body[i])) == IfLine && IfCondition(Strip(body[i])) == Some(c)
    requires Truthy(Eval(h, c, st).value)
    requires RunBlock(h, body[i + 1..CaptureEnd(body, i + 1)], Eval(h, c, st).st).outcome == Stopped
    ensures ExecFrom(h, body, i, st) == RunBlock(h, body[i + 1..CaptureEnd(body, i + 1)], Eval(h, c, st).st)
  {
    IfTrueStep(h, body, i, c, st);
  }

  /** At the top level the stop is reported, not raised. */
  lemma {:induction false} ProgramStops(h: Host, block: seq<string>, st: State)
    requires BreakFree(block) && Statements(block) != [] && StartsWith(Statements(block)[0], "stop()")
    ensures Program(h, Wrap(block), st) == Run(st.Emit(StopNotice), Stopped)
  {
    RunBlockIsRunCode(h, block, st);
    StopFirst(h, block, st);
  }

  // ---------------------------------------------------------------------
  // Classification quirks

  /** An `out` line that holds a `=` anywhere (a comparison `out(a == b)`,
      say) is taken for an assignment, never for an output statement. */
  lemma {:induction false} OutWithEqualsIsAssignment(line: string)
    requires StartsWith(line, "out") && '=' in line
    ensures Classify(line) == AssignLine
  {
    assert line[..3][0] == 'o';
    CharDiffers(line, "stop()", 0); CharDiffers(line, "wait.", 0); CharDiffers(line, "if", 0);
  }

  /** The name such an assignment binds is the text before the first `=`:
      for `out(a == b)` that is `out(a`. */
  lemma {:induction false} OutComparisonTarget()
    ensures AssignTarget("out(a == b)") == "out(a"
  {
    OutComparisonSpan();
    OutComparisonPrefix();
    OutComparisonStrip();
  }

  /** `out(a` is not a valid name, so by the contract of `AssignStep` the
      assignment is reported and no binding changes. */
  lemma {:induction false} OutComparisonTargetInvalid()
    ensures !IsIdentifier("out(a")
  {
    assert !IsWordChar("out(a"[3]);
  }

  lemma {:induction false} OutComparisonSpan()
    ensures Span("out(a == b)", NotEquals) == 6
  {
    var line := "out(a == b)";
    assert forall k :: 0 <= k < 6 ==> NotEquals(line[k]);
    assert !NotEquals(line[6]);
    SpanUnique(line, NotEquals, 6);
  }

  lemma {:induction false} OutComparisonPrefix()
    ensures "out(a == b)"[..6] == "out(a "
  {
  }

  lemma {:induction false} OutComparisonStrip()
    ensures Strip("out(a ") == "out(a"
  {
    assert [] + "out(a" + " " == "out(a ";
    StripQuoted([], "out(a", " ");
  }

  /** An assignment splits at its first `=`: the name is the stripped text
      before it and the expression everything after it, further `=` included. */
  lemma {:induction false} AssignSplit(pre: string, post: string)
    requires '=' !in pre
    ensures AssignTarget(pre + "=" + post) == Strip(pre)
    ensures AssignSource(pre + "=" + post) == post
  {
    var line := pre + "=" + post;
    assert forall k :: 0 <= k < |pre| ==> NotEquals(line[k]) by {
      forall k | 0 <= k < |pre| ensures NotEquals(line[k]) {
        assert line[k] == pre[k];
      }
    }
    SpanUnique(line, NotEquals, |pre|);
    assert line[..|pre|] == pre;
    assert line[|pre| + 1..] == post;
  }

  /** With the closing brace on a line of its own, neither that line nor an
      `else {` line is a statement: both are ignored where the loop meets them. */
  lemma {:induction false} ElseLayoutIgnored()
    ensures Classify("}") == Ignored
    ensures Classify("else {") == Ignored
  {
    var c := "}";
    var e := "else {";
    assert forall k :: 0 <= k < |e| ==> e[k] != '=';
    CharDiffers(c, "stop()", 0); CharDiffers(c, "wait.", 0); CharDiffers(c, "out", 0);
    CharDiffers(c, "in", 0); CharDiffers(c, "rep", 0); CharDiffers(c, "if", 0);
    CharDiffers(e, "stop()", 0); CharDiffers(e, "wait.", 0); CharDiffers(e, "out", 0);
    CharDiffers(e, "in", 0); CharDiffers(e, "rep", 0); CharDiffers(e, "if", 0);
  }

  /** A call is ignored only when the dispatch claims no prefix of its name:
      `report()` is taken for a `rep` line and `iffy()` for an `if` line, and
      both are reported as malformed, having no `{`. */
  lemma {:induction false} CallsClaimedByPrefix()
    ensures Classify("report()") == RepLine && RepeatCount("report()") == None
    ensures Classify("iffy()") == IfLine && IfCondition("iffy()") == None
  {
    var r := "report()";
    var f := "iffy()";
    assert forall k :: 0 <= k < |r| ==> r[k] != '=' && r[k] != '{';
    assert forall k :: 0 <= k < |f| ==> f[k] != '=' && f[k] != '{';
    assert r[..3] == "rep";
    assert f[..2] == "if";
    CharDiffers(r, "stop()", 0); CharDiffers(r, "wait.", 0); CharDiffers(r, "out", 0);
    CharDiffers(r, "in", 0);
    CharDiffers(f, "stop()", 0); CharDiffers(f, "wait.", 0); CharDiffers(f, "out", 0);
    CharDiffers(f, "in", 1); CharDiffers(f, "rep", 0);
    NoBraceNoRepeat(r, 0);
    NoBraceNoCondition(f, "if", 0);
  }

  /** `ifx = 1` starts with `if`, so it is not an assignment; having no
      parenthesised condition it is reported as an invalid `if`. */
  lemma {:induction false} IfxIsInvalidIf()
    ensures Classify("ifx = 1") == IfLine
    ensures IfCondition("ifx = 1") == None
  {
    var l := "ifx = 1";
    assert l[4] == '=';
    assert l[..2] == "if";
    CharDiffers(l, "stop()", 0); CharDiffers(l, "wait.", 0); CharDiffers(l, "out", 0);
    CharDiffers(l, "in", 1); CharDiffers(l, "rep", 0);
    assert forall k :: 0 <= k < |l| ==> l[k] != '(';
    NoParenNoCondition(l, "if", 0);
  }

  /** An assignment whose evaluation fails binds the name to None. */
  lemma {:induction false} FailedEvalBindsNil(h: Host, line: string, st: State)
    requires '=' in line && IsIdentifier(AssignTarget(line))
    requires var e := Strip(AssignSource(line));
             !IsQuoted(e) && InputForm(e).None? && h(Substitute(e, st.env)).None?
    ensures AssignStep(h, line, st).env[AssignTarget(line)] == Nil
  {
  }

  // ---------------------------------------------------------------------
  // wait, out and in, written out

  /** `wait.<unit>(<digits>)` sleeps the amount in milliseconds when the
      unit is known and reports the unit otherwise; nothing else changes. */
  lemma {:induction false} WaitSleeps(unit: string, ds: string, st: State)
    requires unit != [] && forall k :: 0 <= k < |unit| ==> IsWordChar(unit[k])
    requires ds != [] && forall k :: 0 <= k < |ds| ==> IsDigit(ds[k])
    ensures WaitStep("wait." + unit + "(" + ds + ")", st)
            == match WaitMillis(unit, DigitsValue(ds))
               case Some(ms) => st.Emit(Slept(ms))
               case None => st.Report(UnknownWaitUnit(unit))
  {
    WaitFormRoundTrip(unit, ds);
  }

  /** `out(<e>)` evaluates `e` without its leading blanks and prints `str()`
      of the value exactly when the value is not None; a failed evaluation
      leaves only its own report. */
  lemma {:induction false} OutPrints(h: Host, e: string, st: State)
    requires '\n' !in e
    ensures var ev := Eval(h, StripLeft(e), st);
            OutStep(h, "out(" + e + ")", st)
            == if ev.value == Nil then ev.st else ev.st.Emit(Printed(Display(ev.value)))
  {
    OutArgumentRoundTrip(e);
  }

  /** `in("<p>")` writes the prompt `p` and a blank, then binds the first
      input line to `_last_input` and consumes it; on an exhausted input the
      run aborts after the prompt, with no binding made. */
  lemma {:induction false} InReads(p: string, st: State)
    requires '\n' !in p
    ensures var r := InStep("in(\"" + p + "\")", st);
            r.st.trace == st.trace + [Prompted(p + " ")]
            && (st.input == [] ==> r.outcome == Aborted && r.st.env == st.env && r.st.input == [])
            && (st.input != [] ==> r.outcome == Done && r.st.input == st.input[1..]
                                   && r.st.env == st.env[LastInput := Str(st.input[0])])
  {
    InputFormRoundTrip(p);
  }
}
