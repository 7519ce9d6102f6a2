/** `run_relief` as the program runs it: an interpreter object whose fields
    are the global environment, the unread input and the console, and whose
    methods walk the lines of a body with the same loops, captures and
    nested runs as the source. Each method is proved to leave the object in
    the state, and to end with the outcome, that the functions of
    `Semantics` give for the state it started from. The `StopExe` exception
    and the uncaught `EOFError` travel back up as the returned outcome. */
module Interpreter {
  import opened Wrappers
  import opened Text
  import opened Patterns
  import opened State
  import opened Expressions
  import opened Blocks
  import opened Semantics
  import opened Properties
  import opened Behaviour

  class Interpreter {
    /** Python's `eval`, which the expressions are handed to. */
    const host: Host
    /** The module-level `env` dictionary, shared by every nested run. */
    var env: map<string, Value>
    /** The lines standard input has still to deliver. */
    var input: seq<string>
    /** Everything printed, prompted, slept or reported so far. */
    var trace: seq<Event>

    function Now(): State
      reads this
    {
      State(env, input, trace)
    }

    /** A fresh interpreter starts, as the module does, with `env = {}`. */
    constructor (host: Host, input: seq<string>)
      ensures this.host == host
      ensures Now() == State(map[], input, [])
    {
      this.host := host;
      env := map[];
      this.input := input;
      trace := [];
    }

    method SetState(st: State)
      modifies this
      ensures Now() == st
    {
      env, input, trace := st.env, st.input, st.trace;
    }

    method Report(e: Error)
      modifies this
      ensures Now() == old(Now()).Report(e)
    {
      trace := trace + [Reported(e)];
    }

    /** `eval_expr(expr)`. */
    method EvalExpr(expr: string) returns (v: Value)
      modifies this
      ensures Evaluated(v, Now()) == Eval(host, expr, old(Now()))
    {
      var ev := Eval(host, expr, Now());
      SetState(ev.st);
      v := ev.value;
    }

    /** The statements that occupy one line: `wait`, an assignment, `out`
        and `in`; a blank or unrecognised line does nothing. */
    method SimpleStatement(line: string) returns (o: Outcome)
      modifies this
      ensures Run(Now(), o) == SimpleStep(host, line, old(Now()))
    {
      o := Done;
      match Classify(line)
      case WaitLine =>
        SetState(WaitStep(line, Now()));
      case AssignLine =>
        var name := AssignTarget(line);
        if !IsIdentifier(name) {
          Report(InvalidVariableName(name));
        } else {
          var v := EvalExpr(AssignSource(line));
          env := env[name := v];
        }
      case OutLine =>
        match OutArgument(line) {
          case None =>
          case Some(arg) =>
            var v := EvalExpr(arg);
            if v != Nil {
              trace := trace + [Printed(Display(v))];
            }
        }
      case InLine =>
        var r := InStep(line, Now());
        SetState(r.st);
        o := r.outcome;
      case _ =>
    }

    /** The capture loop: the lines from `j` up to the first one holding a
        `}` (or the end of the body), and the index where it stopped. */
    method Capture(body: seq<string>, j: nat) returns (block: seq<string>, e: nat)
      requires j <= |body|
      ensures e == CaptureEnd(body, j) && block == body[j..e]
    {
      block := [];
      e := j;
      while e < |body| && '}' !in body[e]
        invariant j <= e <= |body|
        invariant block == body[j..e]
        invariant CaptureEnd(body, e) == CaptureEnd(body, j)
      {
        block := block + [body[e]];
        e := e + 1;
      }
    }

    /** `run_relief(code)`: extract the entry point's body and run it, or
        report that there is none. */
    method RunRelief(code: string) returns (o: Outcome)
      modifies this
      decreases BodySize(code), 7
      ensures Run(Now(), o) == RunCode(host, code, old(Now()))
    {
      match Extract(code) {
        case None =>
          Report(EntryPointNotFound);
          o := Done;
        case Some(body) =>
          o := RunBody(body);
      }
    }

    /** Runs a captured block by re-wrapping it and running the text. */
    method RunNested(body: seq<string>, block: seq<string>, j: nat) returns (o: Outcome)
      requires BreakFree(body) && 1 <= j <= |body| && block == body[j..CaptureEnd(body, j)]
      modifies this
      decreases |body|, 0
      ensures Run(Now(), o) == RunBlock(host, block, old(Now()))
    {
      CaptureShrinks(body, j);
      RunBlockIsRunCode(host, block, Now());
      o := RunRelief(Wrap(block));
    }

    /** The dispatch loop over the lines of an extracted body. */
    method RunBody(body: seq<string>) returns (o: Outcome)
      requires BreakFree(body)
      modifies this
      decreases |body|, 6
      ensures Run(Now(), o) == ExecFrom(host, body, 0, old(Now()))
    {
      ghost var goal := ExecFrom(host, body, 0, Now());
      var i := 0;
      while i < |body|
        invariant i <= |body| + 2
        invariant ExecFrom(host, body, i, Now()) == goal
        decreases |body| + 2 - i
      {
        var last;
        o, last := Dispatch(body, i);
        AfterBlockUnfold(host, body, last, Run(Now(), o));
        if o != Done {
          return;
        }
        i := last + 1;
      }
      o := Done;
    }

    /** One turn of the loop: the statement at line `i` runs, using the
        lines up to `last`; unless it stopped or aborted, the loop goes on
        after `last`. */
    method Dispatch(body: seq<string>, i: nat) returns (o: Outcome, last: nat)
      requires BreakFree(body) && i < |body|
      modifies this
      decreases |body|, 5
      ensures i <= last <= |body| + 1
      ensures AfterBlock(host, body, last, Run(Now(), o)) == ExecFrom(host, body, i, old(Now()))
    {
      var line := Strip(body[i]);
      var kind := Classify(line);
      if kind == StopLine {
        StopStep(host, body, i, Now());
        o, last := Stopped, i;
      } else if kind == RepLine {
        o, last := RepLineTurn(body, i);
      } else if kind == IfLine {
        o, last := IfLineTurn(body, i);
      } else {
        SimpleLineStep(host, body, i, Now());
        o := SimpleStatement(line);
        last := i;
      }
    }

    /** A `rep` line: a count runs the block that many times, a line
        without one is reported. */
    method RepLineTurn(body: seq<string>, i: nat) returns (o: Outcome, last: nat)
      requires BreakFree(body) && i < |body| && Classify(Strip(body[i])) == RepLine
      modifies this
      decreases |body|, 4
      ensures i <= last <= |body| + 1
      ensures AfterBlock(host, body, last, Run(Now(), o)) == ExecFrom(host, body, i, old(Now()))
    {
      var line := Strip(body[i]);
      ghost var st := Now();
      match RepeatCount(line) {
        case None =>
          RepMalformed(host, body, i, st);
          Report(InvalidRepSyntax(line));
          o, last := Done, i;
          AfterBlockUnfold(host, body, i, Run(Now(), o));
        case Some(n) =>
          RepLineStep(host, body, i, n, st);
          RepBranchUnfold(host, body, i, n, st);
          o, last := Rep(body, i, n);
      }
    }

    /** An `if` line: a condition selects the branch, a line without one is
        reported. */
    method IfLineTurn(body: seq<string>, i: nat) returns (o: Outcome, last: nat)
      requires BreakFree(body) && i < |body| && Classify(Strip(body[i])) == IfLine
      modifies this
      decreases |body|, 4
      ensures i <= last <= |body| + 1
      ensures AfterBlock(host, body, last, Run(Now(), o)) == ExecFrom(host, body, i, old(Now()))
    {
      var line := Strip(body[i]);
      match IfCondition(line) {
        case None =>
          IfMalformed(host, body, i, Now());
          Report(InvalidIfSyntax(line));
          o, last := Done, i;
          AfterBlockUnfold(host, body, i, Run(Now(), o));
        case Some(c) =>
          o, last := If(body, i, c);
      }
    }

    /** `rep <n> {` at line `i`: capture the block, then run it `n` times,
        giving up as soon as one run does not end normally. */
    method Rep(body: seq<string>, i: nat, n: nat) returns (o: Outcome, e: nat)
      requires BreakFree(body) && i < |body|
      modifies this
      decreases |body|, 2
      ensures e == CaptureEnd(body, i + 1)
      ensures Run(Now(), o) == Repeat(host, body[i + 1..e], n, old(Now()))
    {
      var block;
      block, e := Capture(body, i + 1);
      ghost var goal := Repeat(host, block, n, Now());
      o := Done;
      var k := 0;
      while k < n
        invariant k <= n && o == Done
        invariant Repeat(host, block, n - k, Now()) == goal
      {
        o := RunNested(body, block, i + 1);
        if o != Done {
          return;
        }
        k := k + 1;
      }
    }

    /** `if (<c>) {` at line `i`: a true condition runs the block; a false
        one scans on after it for an `else if` or `else`. Returns the last
        line used, after which the loop goes on. */
    method If(body: seq<string>, i: nat, c: string) returns (o: Outcome, last: nat)
      requires BreakFree(body) && i < |body|
      requires Classify(Strip(body[i])) == IfLine && IfCondition(Strip(body[i])) == Some(c)
      modifies this
      decreases |body|, 3
      ensures i < last <= |body| + 1
      ensures AfterBlock(host, body, last, Run(Now(), o)) == ExecFrom(host, body, i, old(Now()))
    {
      IfLineStep(host, body, i, c, Now());
      var v := EvalExpr(c);
      o, last := Branch(body, i, v);
    }

    /** The condition of the `if` at line `i` gave `v`: a true value runs
        the block; a false one scans on after it for an `else if` or
        `else`. Returns the last line used, after which the loop goes on. */
    method Branch(body: seq<string>, i: nat, v: Value) returns (o: Outcome, last: nat)
      requires BreakFree(body) && i < |body|
      modifies this
      decreases |body|, 2
      ensures i < last <= |body| + 1
      ensures AfterBlock(host, body, last, Run(Now(), o)) == IfBranch(host, body, i, Evaluated(v, old(Now())))
    {
      ghost var ev := Evaluated(v, Now());
      var block, e := Capture(body, i + 1);
      if Truthy(v) {
        IfTrueUnfold(host, body, i, ev);
        o := RunNested(body, block, i + 1);
        last := e;
      } else {
        IfFalseUnfold(host, body, i, ev);
        o, last := ScanElseFrom(body, e + 1);
      }
    }

    /** The scan after a false `if`, from line `j`: the first `else if`
        whose condition holds, or the first `else`, runs its block and ends
        the scan; every other line is passed over. */
    method ScanElseFrom(body: seq<string>, j: nat) returns (o: Outcome, at: nat)
      requires BreakFree(body) && j <= |body| + 1
      modifies this
      decreases |body|, 1
      ensures Scan(Run(Now(), o), at) == ScanElse(host, body, j, old(Now()))
    {
      ghost var goal := ScanElse(host, body, j, Now());
      var k := j;
      while k < |body|
        invariant j <= k <= |body| + 1
        invariant ScanElse(host, body, k, Now()) == goal
        decreases |body| + 1 - k
      {
        var next := Strip(body[k]);
        if StartsWith(next, "else if") {
          match ElseIfCondition(next) {
            case None =>
              ElseIfMalformedStep(host, body, k, Now());
            case Some(c) =>
              ElseIfLine(host, body, k, c, Now());
              var v := EvalExpr(c);
              ElseIfBranchUnfold(host, body, k, Evaluated(v, Now()));
              var block, e := Capture(body, k + 1);
              if Truthy(v) {
                o := RunNested(body, block, k + 1);
                at := e;
                return;
              }
              k := e;
          }
        } else if StartsWith(next, "else") {
          ElseLineStep(host, body, k, Now());
          var block, e := Capture(body, k + 1);
          o := RunNested(body, block, k + 1);
          at := e;
          return;
        } else {
          ElseStep(host, body, k, Now());
        }
        k := k + 1;
      }
      o, at := Done, k;
    }

    /** The `__main__` block: run the program's text and print the stop
        notice when it ended by `stop()`. */
    method RunProgram(code: string) returns (o: Outcome)
      modifies this
      ensures Run(Now(), o) == Program(host, code, old(Now()))
    {
      o := RunRelief(code);
      if o == Stopped {
        trace := trace + [StopNotice];
      }
    }
  }
}
