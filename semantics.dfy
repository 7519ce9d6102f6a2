/** The meaning of `run_relief`, as functions: how a line is classified,
    what each statement does to the state, and how a body of lines is run,
    with the nested blocks of `rep`, `if`, `else if` and `else` re-wrapped in
    the entry-point marker and run again against the same environment. */
module Semantics {
  import opened Wrappers
  import opened Text
  import opened Patterns
  import opened State
  import opened Expressions
  import opened Blocks

  /** The statement a stripped line is taken for, tested in this order. */
  datatype Kind = Blank | StopLine | WaitLine | AssignLine | OutLine | InLine | RepLine | IfLine | Ignored

  function Classify(line: string): Kind {
    if line == [] then Blank
    else if StartsWith(line, "stop()") then StopLine
    else if StartsWith(line, "wait.") then WaitLine
    else if '=' in line && !StartsWith(line, "if") then AssignLine
    else if StartsWith(line, "out") then OutLine
    else if StartsWith(line, "in") then InLine
    else if StartsWith(line, "rep") then RepLine
    else if StartsWith(line, "if") then IfLine
    else Ignored
  }

  /** The tests are tried in the source's order: only an empty line is
      blank, `stop()` wins over everything, and any line holding `=` is an
      assignment unless it starts with `stop()`, `wait.` or `if`, so that
      `out`, `in` and `rep` lines never hold `=`. */
  lemma {:induction false} ClassifyOrder(line: string)
    ensures Classify(line) == Blank <==> line == []
    ensures Classify(line) == StopLine <==> StartsWith(line, "stop()")
    ensures Classify(line) == WaitLine ==> StartsWith(line, "wait.")
    ensures Classify(line) == AssignLine <==>
              '=' in line && !StartsWith(line, "if") && !StartsWith(line, "stop()") && !StartsWith(line, "wait.")
    ensures Classify(line) == OutLine ==> StartsWith(line, "out") && '=' !in line
    ensures Classify(line) == InLine ==> StartsWith(line, "in") && '=' !in line
    ensures Classify(line) == RepLine ==> StartsWith(line, "rep") && '=' !in line
    ensures Classify(line) == IfLine ==> StartsWith(line, "if")
  {
    if StartsWith(line, "if") {
      assert line[0] == 'i' && line[1] == 'f';
    }
  }

  predicate NotEquals(c: char) { c != '=' }

  /** `line.split("=", 1)[0].strip()`: the name an assignment binds. */
  function AssignTarget(line: string): string {
    Strip(line[..Span(line, NotEquals)])
  }

  /** `line.split("=", 1)[1]`: the expression an assignment evaluates. */
  function AssignSource(line: string): string
    requires '=' in line
  {
    line[Span(line, NotEquals) + 1..]
  }

  /** `wait.<unit>(<n>)`: sleeps, or reports an unknown unit; a line that does
      not have the form does nothing. */
  function WaitStep(line: string, st: State): (r: State)
    ensures r.env == st.env && r.input == st.input
    ensures |r.trace| <= |st.trace| + 1 && st.trace <= r.trace
    ensures WaitForm(line).None? ==> r == st
    ensures WaitForm(line).Some? ==>
              var unit, amount := WaitForm(line).value.0, WaitForm(line).value.1;
              r.trace == st.trace + [if WaitMillis(unit, amount).Some? then Slept(WaitMillis(unit, amount).value)
                                     else Reported(UnknownWaitUnit(unit))]
  {
    match WaitForm(line)
    case None => st
    case Some((unit, amount)) =>
      match WaitMillis(unit, amount)
      case Some(ms) => st.Emit(Slept(ms))
      case None => st.Report(UnknownWaitUnit(unit))
  }

  /** `<name> = <expression>`. An invalid name changes no binding; a valid
      one binds exactly that name, to the value or to None when the
      evaluation failed, and leaves every other binding as it was. */
  function AssignStep(h: Host, line: string, st: State): (r: State)
    requires '=' in line
    ensures !IsIdentifier(AssignTarget(line)) ==>
              r.env == st.env && r.input == st.input && r.trace == st.trace + [Reported(InvalidVariableName(AssignTarget(line)))]
    ensures IsIdentifier(AssignTarget(line)) ==>
              r.env.Keys == st.env.Keys + {AssignTarget(line)}
              && r.env[AssignTarget(line)] == Eval(h, AssignSource(line), st).value
              && r.input == Eval(h, AssignSource(line), st).st.input
              && r.trace == Eval(h, AssignSource(line), st).st.trace
    ensures forall k :: k in st.env && k != AssignTarget(line) ==> k in r.env && r.env[k] == st.env[k]
  {
    var name := AssignTarget(line);
    if !IsIdentifier(name) then st.Report(InvalidVariableName(name))
    else
      var ev := Eval(h, AssignSource(line), st);
      ev.st.(env := ev.st.env[name := ev.value])
  }

  /** `out(<expression>)`: prints the value unless the evaluation gave None. */
  function OutStep(h: Host, line: string, st: State): (r: State)
    ensures r.env == st.env
    ensures OutArgument(line).None? ==> r == st
  {
    match OutArgument(line)
    case None => st
    case Some(arg) =>
      var ev := Eval(h, arg, st);
      if ev.value == Nil then ev.st else ev.st.Emit(Printed(Display(ev.value)))
  }

  /** The binding in which an input statement keeps the line it read. */
  const LastInput := "_last_input"

  /** `in("<prompt>")` as a statement: prompts, then binds the line read; on
      an exhausted input the `EOFError` is not caught and the run aborts. */
  function InStep(line: string, st: State): (r: Run)
    ensures r.outcome != Stopped
    ensures InputForm(line).None? ==> r == Run(st, Done)
    ensures r.outcome == Aborted <==> InputForm(line).Some? && st.input == []
    ensures r.st.env.Keys <= st.env.Keys + {LastInput}
  {
    match InputForm(line)
    case None => Run(st, Done)
    case Some(prompt) =>
      var asked := st.Emit(Prompted(prompt + " "));
      if st.input == [] then Run(asked, Aborted)
      else Run(asked.(env := st.env[LastInput := Str(st.input[0])], input := st.input[1..]), Done)
  }

  /** Where the scan for `else if` / `else` ended, and what it ran. */
  datatype Scan = Scan(run: Run, at: nat)

  /** A statement that occupies one line: wait, assignment, out and in (a
      blank or unrecognised line does nothing). */
  function SimpleStep(h: Host, line: string, st: State): (r: Run)
    ensures r.outcome != Stopped
  {
    match Classify(line)
    case WaitLine => Run(WaitStep(line, st), Done)
    case AssignLine => Run(AssignStep(h, line, st), Done)
    case OutLine => Run(OutStep(h, line, st), Done)
    case InLine => InStep(line, st)
    case _ => Run(st, Done)
  }

  /** `run_relief(code)`: extract the entry point's body and run it. */
  function RunCode(h: Host, code: string, st: State): Run {
    match Extract(code)
    case None => Run(st.Report(EntryPointNotFound), Done)
    case Some(body) => ExecFrom(h, body, 0, st)
  }

  /** A captured block run as `run_relief` runs its re-wrapped text: the
      extracted body is the block without its blank first and last lines and
      with its outer blanks stripped (`RunBlockIsRunCode` proves the two equal). */
  function RunBlock(h: Host, block: seq<string>, st: State): Run
    decreases |block|, 3, 0, 0
  {
    ExecFrom(h, TrimLines(block), 0, st)
  }

  /** The dispatch loop, from line `i` of `body` on. */
  function ExecFrom(h: Host, body: seq<string>, i: nat, st: State): Run
    decreases |body|, 2, |body| + 1 - i, 4
  {
    if i >= |body| then Run(st, Done) else ExecLine(h, body, i, st)
  }

  /** One turn of the loop: the stripped line `i` decides what runs. */
  function ExecLine(h: Host, body: seq<string>, i: nat, st: State): Run
    requires i < |body|
    decreases |body|, 2, |body| + 1 - i, 3
  {
    var line := Strip(body[i]);
    match Classify(line)
    case StopLine => Run(st, Stopped)
    case RepLine => ExecRep(h, body, i, st)
    case IfLine => ExecIf(h, body, i, st)
    case _ => ExecSimple(h, body, i, st)
  }

  /** What was run up to line `e` ended in `r`: unless it stopped or aborted,
      the loop goes on at the line after `e`. */
  function AfterBlock(h: Host, body: seq<string>, e: nat, r: Run): Run
    requires e <= |body| + 1
    decreases |body|, 2, |body| + 1 - e, 0
  {
    if r.outcome != Done then r else ExecFrom(h, body, e + 1, r.st)
  }

  /** A one-line statement at line `i`, then the next line. */
  function ExecSimple(h: Host, body: seq<string>, i: nat, st: State): Run
    requires i < |body|
    decreases |body|, 2, |body| + 1 - i, 2
  {
    AfterBlock(h, body, i, SimpleStep(h, Strip(body[i]), st))
  }

  /** `rep <n> {` at line `i`; a line without a count is reported and skipped. */
  function ExecRep(h: Host, body: seq<string>, i: nat, st: State): Run
    requires i < |body|
    decreases |body|, 2, |body| + 1 - i, 2
  {
    var line := Strip(body[i]);
    match RepeatCount(line)
    case None => ExecFrom(h, body, i + 1, st.Report(InvalidRepSyntax(line)))
    case Some(n) => RepBranch(h, body, i, n, st)
  }

  /** The block after line `i`, up to the first line with a `}`, runs `n`
      times; then the loop goes on after that line. */
  function RepBranch(h: Host, body: seq<string>, i: nat, n: nat, st: State): Run
    requires i < |body|
    decreases |body|, 2, |body| + 1 - i, 1
  {
    var e := CaptureEnd(body, i + 1);
    AfterBlock(h, body, e, Repeat(h, body[i + 1..e], n, st))
  }

  /** `if (<condition>) {` at line `i`; a line without a condition is reported
      and skipped. */
  function ExecIf(h: Host, body: seq<string>, i: nat, st: State): Run
    requires i < |body|
    decreases |body|, 2, |body| + 1 - i, 2
  {
    var line := Strip(body[i]);
    match IfCondition(line)
    case None => ExecFrom(h, body, i + 1, st.Report(InvalidIfSyntax(line)))
    case Some(c) => IfBranch(h, body, i, Eval(h, c, st))
  }

  /** The condition of the `if` at line `i` evaluated to `ev`: a true value
      runs the block and goes on after it; a false one scans for an
      `else if` or `else` and goes on after the line where the scan ended. */
  function IfBranch(h: Host, body: seq<string>, i: nat, ev: Evaluated): Run
    requires i < |body|
    decreases |body|, 2, |body| + 1 - i, 1
  {
    var e := CaptureEnd(body, i + 1);
    if Truthy(ev.value) then AfterBlock(h, body, e, RunBlock(h, body[i + 1..e], ev.st))
    else
      var s := ScanElse(h, body, e + 1, ev.st);
      AfterBlock(h, body, s.at, s.run)
  }

  /** After a false `if`: scan from line `j` for an `else if` whose condition
      holds or an `else`, run that branch and stop scanning; every other line
      on the way is skipped. The scan ends at the last line it used. */
  function ScanElse(h: Host, body: seq<string>, j: nat, st: State): (r: Scan)
    requires j <= |body| + 1
    ensures j <= r.at <= |body| + 1
    decreases |body|, 1, |body| + 1 - j, 2
  {
    if j >= |body| then Scan(Run(st, Done), j) else ScanLine(h, body, j, st)
  }

  /** One turn of the scan, at line `j`. */
  function ScanLine(h: Host, body: seq<string>, j: nat, st: State): (r: Scan)
    requires j < |body|
    ensures j <= r.at <= |body| + 1
    decreases |body|, 1, |body| + 1 - j, 1
  {
    var next := Strip(body[j]);
    if StartsWith(next, "else if") then
      (match ElseIfCondition(next)
       case None => ScanElse(h, body, j + 1, st)
       case Some(c) => ElseIfBranch(h, body, j, Eval(h, c, st)))
    else if StartsWith(next, "else") then
      var e := CaptureEnd(body, j + 1);
      Scan(RunBlock(h, body[j + 1..e], st), e)
    else ScanElse(h, body, j + 1, st)
  }

  /** The condition of the `else if` at line `j` evaluated to `ev`: a true
      value runs its block and ends the scan; a false one scans on after it. */
  function ElseIfBranch(h: Host, body: seq<string>, j: nat, ev: Evaluated): (r: Scan)
    requires j < |body|
    ensures j <= r.at <= |body| + 1
    decreases |body|, 1, |body| + 1 - j, 0
  {
    var e := CaptureEnd(body, j + 1);
    if Truthy(ev.value) then Scan(RunBlock(h, body[j + 1..e], ev.st), e)
    else ScanElse(h, body, e + 1, ev.st)
  }

  /** `for _ in range(n): run_relief(...)` on a captured block, abandoned as
      soon as a run does not end normally. */
  function Repeat(h: Host, block: seq<string>, n: nat, st: State): Run
    decreases |block|, 4, n, 0
  {
    if n == 0 then Run(st, Done)
    else
      var r := RunBlock(h, block, st);
      if r.outcome != Done then r else Repeat(h, block, n - 1, r.st)
  }

  /** The `__main__` block: a run whose stop is reported as such instead of
      escaping as an error (the module starts it with `env = {}`). */
  function Program(h: Host, code: string, st: State): Run {
    var r := RunCode(h, code, st);
    if r.outcome == Stopped then Run(r.st.Emit(StopNotice), Stopped) else r
  }
}
