/** What `run_relief` guarantees about every run: the state only grows,
    a missing entry point runs nothing, a re-wrapped block runs as its lines,
    `rep n` is `n` runs in sequence, the scan after a false `if` runs at most
    one branch, and `stop()` ends every enclosing block. */
module Properties {
  import opened Wrappers
  import opened Text
  import opened Patterns
  import opened State
  import opened Expressions
  import opened Blocks
  import opened Semantics

  // ---------------------------------------------------------------------
  // A run only extends the state

  /** Every name bound in the environment is an identifier. */
  predicate ValidEnv(env: map<string, Value>) {
    forall k :: k in env ==> IsIdentifier(k)
  }

  /** `b` is a state a run can reach from `a`: more has been printed, some
      input lines have been consumed from the front, no binding has been
      removed, and no name that is not an identifier has been bound. */
  predicate Follows(a: State, b: State) {
    && a.trace <= b.trace
    && |b.input| <= |a.input| && b.input == a.input[|a.input| - |b.input|..]
    && a.env.Keys <= b.env.Keys
    && (ValidEnv(a.env) ==> ValidEnv(b.env))
  }

  lemma {:induction false} FollowsTrans(a: State, b: State, c: State)
    requires Follows(a, b) && Follows(b, c)
    ensures Follows(a, c)
  {
    assert c.input == a.input[|a.input| - |c.input|..] by {
      assert b.input[|b.input| - |c.input|..] == a.input[|a.input| - |c.input|..];
    }
  }

  lemma {:induction false} FollowsRefl(a: State)
    ensures Follows(a, a)
  {
    assert a.input == a.input[0..];
  }

  /** Printing, prompting, sleeping or reporting only extends the trace. */
  lemma {:induction false} EmitFollows(a: State, e: Event)
    ensures Follows(a, a.Emit(e))
  {
    assert a.input == a.input[0..];
  }

  /** Binding an identifier, possibly consuming the next input line. */
  lemma {:induction false} BindFollows(a: State, name: string, v: Value, input: seq<string>)
    requires IsIdentifier(name)
    requires input == a.input || (a.input != [] && input == a.input[1..])
    ensures Follows(a, a.(env := a.env[name := v], input := input))
  {
    if input == a.input {
      assert a.input == a.input[0..];
    } else {
      assert a.input[1..] == a.input[|a.input| - |input|..];
    }
  }

  lemma {:induction false} EvalFollows(h: Host, expr: string, st: State)
    ensures Follows(st, Eval(h, expr, st).st)
  {
    var r := Eval(h, expr, st).st;
    if r.input != st.input {
      assert st.input[1..] == st.input[|st.input| - |r.input|..];
    } else {
      FollowsRefl(st);
    }
  }

  lemma {:induction false} LastInputIsIdentifier()
    ensures IsIdentifier(LastInput)
  {
    assert forall k :: 1 <= k < |LastInput| ==> IsWordChar(LastInput[k]);
  }

  lemma {:induction false} WaitFollows(line: string, st: State)
    ensures Follows(st, WaitStep(line, st))
  {
    match WaitForm(line)
    case None => FollowsRefl(st);
    case Some((unit, amount)) =>
      match WaitMillis(unit, amount)
      case Some(ms) => EmitFollows(st, Slept(ms));
      case None => EmitFollows(st, Reported(UnknownWaitUnit(unit)));
  }

  lemma {:induction false} AssignFollows(h: Host, line: string, st: State)
    requires '=' in line
    ensures Follows(st, AssignStep(h, line, st))
  {
    var name := AssignTarget(line);
    if !IsIdentifier(name) {
      EmitFollows(st, Reported(InvalidVariableName(name)));
    } else {
      var ev := Eval(h, AssignSource(line), st);
      EvalFollows(h, AssignSource(line), st);
      BindFollows(ev.st, name, ev.value, ev.st.input);
      FollowsTrans(st, ev.st, AssignStep(h, line, st));
    }
  }

  lemma {:induction false} OutFollows(h: Host, line: string, st: State)
    ensures Follows(st, OutStep(h, line, st))
  {
    match OutArgument(line)
    case None => FollowsRefl(st);
    case Some(arg) =>
      var ev := Eval(h, arg, st);
      EvalFollows(h, arg, st);
      if ev.value == Nil {
      } else {
        EmitFollows(ev.st, Printed(Display(ev.value)));
        FollowsTrans(st, ev.st, OutStep(h, line, st));
      }
  }

  lemma {:induction false} InFollows(line: string, st: State)
    ensures Follows(st, InStep(line, st).st)
  {
    match InputForm(line)
    case None => FollowsRefl(st);
    case Some(prompt) =>
      var asked := st.Emit(Prompted(prompt + " "));
      EmitFollows(st, Prompted(prompt + " "));
      if st.input != [] {
        LastInputIsIdentifier();
        BindFollows(asked, LastInput, Str(st.input[0]), st.input[1..]);
        FollowsTrans(st, asked, InStep(line, st).st);
      }
  }

  /** Every one-line statement only extends the state. */
  lemma {:induction false} SimpleFollows(h: Host, line: string, st: State)
    ensures Follows(st, SimpleStep(h, line, st).st)
  {
    match Classify(line)
    case WaitLine => WaitFollows(line, st);
    case AssignLine => AssignFollows(h, line, st);
    case OutLine => OutFollows(h, line, st);
    case InLine => InFollows(line, st);
    case _ => FollowsRefl(st);
  }

  /** A whole run only extends the state, whatever the program does. */
  lemma {:induction false} RunCodeFollows(h: Host, code: string, st: State)
    ensures Follows(st, RunCode(h, code, st).st)
  {
    match Extract(code)
    case None => EmitFollows(st, Reported(EntryPointNotFound));
    case Some(body) => ExecFromFollows(h, body, 0, st);
  }

  lemma {:induction false} RunBlockFollows(h: Host, block: seq<string>, st: State)
    ensures Follows(st, RunBlock(h, block, st).st)
    decreases |block|, 3, 0, 0
  {
    ExecFromFollows(h, TrimLines(block), 0, st);
  }

  lemma {:induction false} ExecFromFollows(h: Host, body: seq<string>, i: nat, st: State)
    ensures Follows(st, ExecFrom(h, body, i, st).st)
    decreases |body|, 2, |body| + 1 - i, 4
  {
    if i < |body| {
      ExecLineFollows(h, body, i, st);
    } else {
      FollowsRefl(st);
    }
  }

  lemma {:induction false} ExecLineFollows(h: Host, body: seq<string>, i: nat, st: State)
    requires i < |body|
    ensures Follows(st, ExecLine(h, body, i, st).st)
    decreases |body|, 2, |body| + 1 - i, 3
  {
    match Classify(Strip(body[i]))
    case StopLine => FollowsRefl(st);
    case RepLine => ExecRepFollows(h, body, i, st);
    case IfLine => ExecIfFollows(h, body, i, st);
    case _ => ExecSimpleFollows(h, body, i, st);
  }

  lemma {:induction false} AfterBlockFollows(h: Host, body: seq<string>, e: nat, r: Run)
    requires e <= |body| + 1
    ensures Follows(r.st, AfterBlock(h, body, e, r).st)
    decreases |body|, 2, |body| + 1 - e, 0
  {
    if r.outcome == Done {
      ExecFromFollows(h, body, e + 1, r.st);
    } else {
      FollowsRefl(r.st);
    }
  }

  lemma {:induction false} ExecSimpleFollows(h: Host, body: seq<string>, i: nat, st: State)
    requires i < |body|
    ensures Follows(st, ExecSimple(h, body, i, st).st)
    decreases |body|, 2, |body| + 1 - i, 2
  {
    var r := SimpleStep(h, Strip(body[i]), st);
    SimpleFollows(h, Strip(body[i]), st);
    AfterBlockFollows(h, body, i, r);
    FollowsTrans(st, r.st, AfterBlock(h, body, i, r).st);
  }

  lemma {:induction false} ExecRepFollows(h: Host, body: seq<string>, i: nat, st: State)
    requires i < |body|
    ensures Follows(st, ExecRep(h, body, i, st).st)
    decreases |body|, 2, |body| + 1 - i, 2
  {
    var line := Strip(body[i]);
    match RepeatCount(line)
    case None =>
      var s := st.Report(InvalidRepSyntax(line));
      EmitFollows(st, Reported(InvalidRepSyntax(line)));
      ExecFromFollows(h, body, i + 1, s);
      FollowsTrans(st, s, ExecFrom(h, body, i + 1, s).st);
    case Some(n) => RepBranchFollows(h, body, i, n, st);
  }

  lemma {:induction false} RepBranchFollows(h: Host, body: seq<string>, i: nat, n: nat, st: State)
    requires i < |body|
    ensures Follows(st, RepBranch(h, body, i, n, st).st)
    decreases |body|, 2, |body| + 1 - i, 1
  {
    var e := CaptureEnd(body, i + 1);
    var r := Repeat(h, body[i + 1..e], n, st);
    RepeatFollows(h, body[i + 1..e], n, st);
    AfterBlockFollows(h, body, e, r);
    FollowsTrans(st, r.st, AfterBlock(h, body, e, r).st);
  }

  lemma {:induction false} ExecIfFollows(h: Host, body: seq<string>, i: nat, st: State)
    requires i < |body|
    ensures Follows(st, ExecIf(h, body, i, st).st)
    decreases |body|, 2, |body| + 1 - i, 2
  {
    var line := Strip(body[i]);
    match IfCondition(line)
    case None =>
      var s := st.Report(InvalidIfSyntax(line));
      EmitFollows(st, Reported(InvalidIfSyntax(line)));
      ExecFromFollows(h, body, i + 1, s);
      FollowsTrans(st, s, ExecFrom(h, body, i + 1, s).st);
    case Some(c) =>
      var ev := Eval(h, c, st);
      EvalFollows(h, c, st);
      IfBranchFollows(h, body, i, ev);
      FollowsTrans(st, ev.st, IfBranch(h, body, i, ev).st);
  }

  lemma {:induction false} IfBranchFollows(h: Host, body: seq<string>, i: nat, ev: Evaluated)
    requires i < |body|
    ensures Follows(ev.st, IfBranch(h, body, i, ev).st)
    decreases |body|, 2, |body| + 1 - i, 1
  {
    if Truthy(ev.value) {
      IfTrueFollows(h, body, i, ev);
    } else {
      IfFalseFollows(h, body, i, ev);
    }
  }

  lemma {:induction false} IfTrueFollows(h: Host, body: seq<string>, i: nat, ev: Evaluated)
    requires i < |body| && Truthy(ev.value)
    ensures Follows(ev.st, IfBranch(h, body, i, ev).st)
    decreases |body|, 2, |body| + 1 - i, 0
  {
    var e := CaptureEnd(body, i + 1);
    var r := RunBlock(h, body[i + 1..e], ev.st);
    assert IfBranch(h, body, i, ev) == AfterBlock(h, body, e, r);
    RunBlockFollows(h, body[i + 1..e], ev.st);
    AfterBlockFollows(h, body, e, r);
    FollowsTrans(ev.st, r.st, AfterBlock(h, body, e, r).st);
  }

  lemma {:induction false} IfFalseFollows(h: Host, body: seq<string>, i: nat, ev: Evaluated)
    requires i < |body| && !Truthy(ev.value)
    ensures Follows(ev.st, IfBranch(h, body, i, ev).st)
    decreases |body|, 2, |body| + 1 - i, 0
  {
    IfFalseUnfold(h, body, i, ev);
    ScanThenFollows(h, body, CaptureEnd(body, i + 1), ev.st);
  }

  /** A false `if` scans its else-chain, then goes on after the chain. */
  lemma {:induction false} IfFalseUnfold(h: Host, body: seq<string>, i: nat, ev: Evaluated)
    requires i < |body| && !Truthy(ev.value)
    ensures var s := ScanElse(h, body, CaptureEnd(body, i + 1) + 1, ev.st);
      IfBranch(h, body, i, ev) == AfterBlock(h, body, s.at, s.run)
  {
  }

  lemma {:induction false} ScanThenFollows(h: Host, body: seq<string>, e: nat, st: State)
    requires e <= |body|
    ensures var s := ScanElse(h, body, e + 1, st);
      Follows(st, AfterBlock(h, body, s.at, s.run).st)
    decreases |body|, 2, |body| + 1 - e, 1
  {
    var s := ScanElse(h, body, e + 1, st);
    ScanElseFollows(h, body, e + 1, st);
    AfterBlockFollows(h, body, s.at, s.run);
    FollowsTrans(st, s.run.st, AfterBlock(h, body, s.at, s.run).st);
  }

  lemma {:induction false} ScanElseFollows(h: Host, body: seq<string>, j: nat, st: State)
    requires j <= |body| + 1
    ensures Follows(st, ScanElse(h, body, j, st).run.st)
    decreases |body|, 1, |body| + 1 - j, 2
  {
    if j < |body| {
      ScanLineFollows(h, body, j, st);
    } else {
      FollowsRefl(st);
    }
  }

  lemma {:induction false} ScanLineFollows(h: Host, body: seq<string>, j: nat, st: State)
    requires j < |body|
    ensures Follows(st, ScanLine(h, body, j, st).run.st)
    decreases |body|, 1, |body| + 1 - j, 1
  {
    var next := Strip(body[j]);
    if StartsWith(next, "else if") {
      match ElseIfCondition(next)
      case None => ScanElseFollows(h, body, j + 1, st);
      case Some(c) =>
        var ev := Eval(h, c, st);
        EvalFollows(h, c, st);
        ElseIfBranchFollows(h, body, j, ev);
        FollowsTrans(st, ev.st, ElseIfBranch(h, body, j, ev).run.st);
    } else if StartsWith(next, "else") {
      RunBlockFollows(h, body[j + 1..CaptureEnd(body, j + 1)], st);
    } else {
      ScanElseFollows(h, body, j + 1, st);
    }
  }

  lemma {:induction false} ElseIfBranchFollows(h: Host, body: seq<string>, j: nat, ev: Evaluated)
    requires j < |body|
    ensures Follows(ev.st, ElseIfBranch(h, body, j, ev).run.st)
    decreases |body|, 1, |body| + 1 - j, 0
  {
    var e := CaptureEnd(body, j + 1);
    if Truthy(ev.value) {
      RunBlockFollows(h, body[j + 1..e], ev.st);
    } else {
      ScanElseFollows(h, body, e + 1, ev.st);
    }
  }

  lemma {:induction false} RepeatFollows(h: Host, block: seq<string>, n: nat, st: State)
    ensures Follows(st, Repeat(h, block, n, st).st)
    decreases |block|, 4, n, 0
  {
    if n > 0 {
      RunBlockFollows(h, block, st);
      var r := RunBlock(h, block, st);
      if r.outcome == Done {
        RepeatFollows(h, block, n - 1, r.st);
        FollowsTrans(st, r.st, Repeat(h, block, n - 1, r.st).st);
      }
    } else {
      FollowsRefl(st);
    }
  }
}
