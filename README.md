# relief interpreter, modelled in Dafny

This project models the execution engine of the "relief" scripting language in
`interpreter.py`. A relief program has one entry point,
`when project start { ... }`. The engine takes the entry point's body line by
line. It dispatches on the stripped line:

- blank;
- `stop()`;
- `wait.<unit>(<n>)`;
- `<name> = <expression>`;
- `out(...)`;
- `in("...")`;
- `rep <n> {`;
- `if (...) {`, followed by `else if (...) {` and `else {`.

A nested block is captured shallowly: the lines after the opener, up to the
first line that holds a `}`. The engine runs such a block by wrapping it in the
entry-point marker again and calling itself. Every run shares one global
environment. `stop()` raises `StopExe`, which only the `__main__` block
catches. Expressions go through `eval_expr`, which does three things:

- it takes a string-literal shortcut;
- it reads input for `in("...")`;
- it substitutes bound identifiers, whole token by whole token, and hands the
  text to Python's `eval`.

The model has two layers.

- **The meaning, as pure functions.** This is `Semantics`, with the pattern
  matchers in `Patterns` and the text operations in `Text`.
  - `RunCode`, `ExecFrom`, `ScanElse` and `Repeat` give the state a run ends
    in. A state is the environment, the unread input and an ordered trace of
    everything printed, prompted, slept or reported. They also give how the
    run ended: normally, by `stop()`, or by the uncaught `EOFError` of an
    `in(...)` statement.
  - Python's `eval` is a parameter: `Host`, a partial function from text to a
    value.
- **The engine as the program runs it.** This is the class
  `Interpreter.Interpreter`. Its fields are the environment, the input and
  the trace. Its methods walk the lines with the same loops as the source:
  - the dispatch loop;
  - the capture loop;
  - the `for` loop of `rep`;
  - the scan loop after a false `if`.

  Nested runs are recursive calls on the same object, so they share one
  environment, as the module-level `env` is shared in the source. Each method
  is proved to produce exactly the state and outcome that the functions give. `Properties` and `Behaviour`
  then prove the properties the engine promises, on the functions.

The code does not do what the `if` / `else if` / `else` syntax suggests. This
model follows the code:

- **The branches of `if` / `else if` / `else` are not exclusive.** The block of
  an `if` ends at the first line holding a `}`. With the usual `} else {`
  layout, that line is the `else` line itself.
  - After a true `if`, the loop goes on after that line, so the `else` body
    runs as ordinary statements (`IfTrueStep`).
  - After a false `if`, the scan begins after that line. It skips every line
    that does not start with `else`, so the `else` body and the rest of the
    body do not run (`FalseIfSkipsRest`).
  - With `}` on a line of its own, the block ends at that line. After a false
    `if` the scan then finds the `else {` line and runs the `else` body. After
    a true `if`, or a true `else if`, the loop goes on at the `else {` line,
    which no test recognises (`ElseLayoutIgnored`), so the `else` body again
    runs as ordinary statements.
- **A false `if` with no `else` ends the body.** The scan for an
  `else`-line runs to the end of the body, and no later line of that body
  runs (`FalseIfSkipsRest`).
- **There is no function definition or call.** A `defy(greet) {` line and a
  `greet()` line are ignored (`DefyIgnored`). A call is ignored only when no
  test of the loop claims its name: `report()` is taken for a `rep` line and
  `iffy()` for an `if` line, and both are reported as malformed
  (`CallsClaimedByPrefix`).

## Model

| member | source | states |
|---|---|---|
| Patterns.WaitMillis | interpreter.py:75-84 | a unit is known iff it is `milsec`, `sec`, `min` or `hrs`; `milsec` sleeps the amount as given, and a known unit never sleeps less than the amount |
| Patterns.WaitUnitsAgree | interpreter.py:75-82 | the units agree: n hours sleep as long as 60·n minutes, n minutes as 60·n seconds, n seconds as 1000·n milliseconds |
| Patterns.InputFormRoundTrip | interpreter.py:23-25 | `in("p")` is recognised as an input form with prompt exactly `p` (for a one-line `p`) |
| Patterns.OutArgumentRoundTrip | interpreter.py:102-104 | `out(e)` gives as argument `e` without its leading blanks: the greedy group runs to the last `)` |
| Patterns.LastCloseIsLast | interpreter.py:102 | the greedy group ends at the last position where the closing pattern matches, and it fails only when no position matches |
| Patterns.ConditionRoundTrip | interpreter.py:134 | `if (c) {` and `else if (c) {` give back exactly the condition `c` |
| Patterns.RepeatRoundTrip | interpreter.py:119-121 | `rep <digits> {` gives the decimal value of the digits |
| Patterns.NoParenNoCondition | interpreter.py:134 | a line without `(` has no `if` or `else if` condition |
| Patterns.NoBraceNoCondition | interpreter.py:134 | a line without `{` has no `if` or `else if` condition |
| Patterns.NoBraceNoRepeat | interpreter.py:119 | a line without `{` has no repeat count |
| Patterns.IdentifierIsWord | interpreter.py:92 | a valid variable name is one whole word-character token |
| Text.Strip | interpreter.py:59 | the stripped line is no longer than the line, is empty iff the line is all blanks, and otherwise begins and ends with a non-blank |
| Text.StripExact | interpreter.py:59 | `strip()` removes exactly the outer whitespace: a blank text strips to nothing, and any other text to the part between its leading and its trailing whitespace |
| Text.StripOneSide | interpreter.py:59 | stripping after stripping one side gives the same text as stripping |
| Text.SplitJoin | interpreter.py:128 | splitting lines that were joined with newlines gives the lines back |
| Text.StripJoinSplit | interpreter.py:56 | stripping and splitting joined lines gives those lines without the blank lines at both ends, and with the outer blanks stripped |
| Blocks.LastIndexOf | interpreter.py:51 | the position found holds the character and no later position does; there is none iff the character does not occur |
| Blocks.Extract | interpreter.py:51-56 | the body of an entry point is a list of lines without line breaks |
| Blocks.NoBraceNoEntry | interpreter.py:51-54 | a text without `}` has no entry point |
| Blocks.NoMarkerNoEntry | interpreter.py:51-54 | a text without the marker has no entry point |
| Blocks.CaptureEnd | interpreter.py:122-126 | the capture that starts at a line ends at or after it and within the body |
| Blocks.CaptureEndCloses | interpreter.py:124 | the captured lines hold no `}`, and the line the capture stops at does |
| Blocks.ExtractWrap | interpreter.py:51-56 | re-wrapping a block in the marker and extracting it gives the block without its blank first and last lines, with its outer blanks stripped |
| Blocks.RewrapKeepsStatements | interpreter.py:51-61 | re-wrapping keeps every non-blank line of the block, stripped and in order |
| Blocks.CaptureShrinks | interpreter.py:122-128 | a captured block, once re-wrapped, has fewer lines than the body it came from, so the nested runs end |
| Expressions.Eval | interpreter.py:14-48 | evaluation never changes the environment, reads at most the next input line and only adds to the trace |
| Expressions.EvalInputForm | interpreter.py:22-26 | `in("p")` as an expression writes the prompt `p` and a blank, and returns the first input line as a string and consumes it; on an exhausted input its value is None and the expression is reported (the `except` at lines 46-48) |
| Expressions.EvalHost | interpreter.py:28-48 | any other expression has its bound names substituted and goes to `eval`: its value is `eval`'s, with input and output untouched, or None with the report of the substituted text when `eval` raises |
| Expressions.QuotedLiteral | interpreter.py:16-20 | a trimmed expression between two equal quote characters is its inner text; nothing is substituted, evaluated, read or printed |
| Expressions.SubstituteEmpty | interpreter.py:29-39 | with nothing bound, substitution leaves the text as it is |
| Expressions.SubstituteIdentifier | interpreter.py:29-37 | a bound identifier becomes `"value"` for a string and `str(value)` otherwise; an unbound one stays |
| Expressions.SubstituteNonWord | interpreter.py:39 | a character that is not a word character is kept |
| Expressions.SubstituteNumberWord | interpreter.py:39 | a word-character run that starts with a digit is not an identifier token and is kept whole |
| Expressions.SubstituteAppend | interpreter.py:39 | text that is split between two tokens is substituted piece by piece |
| Expressions.EvalRepeatable | interpreter.py:14-45 | the value of a literal or substituted expression depends only on the environment |
| Semantics.WaitStep | interpreter.py:70-84 | a line without the `wait.<unit>(<n>)` form does nothing; one with it changes neither the environment nor the input, and adds exactly one event: the sleep in milliseconds for a known unit, the report of the unit for any other |
| Patterns.WaitFormRoundTrip | interpreter.py:70-73 | `wait.<unit>(<digits>)` gives back the unit and the decimal value of the digits |
| Behaviour.WaitSleeps | interpreter.py:70-84 | `wait.<unit>(<digits>)` sleeps the amount in milliseconds for a known unit and reports the unit otherwise, and does nothing else |
| Semantics.AssignStep | interpreter.py:87-98 | an invalid name is reported and leaves the environment unchanged; a valid one binds exactly that name to the evaluation's value, every other binding stays, and the input and output are those the evaluation leaves (its prompt and consumed line, or its error report) |
| Semantics.OutStep | interpreter.py:101-107 | `out(...)` never changes the environment, and a line without the `out(...)` form does nothing |
| Behaviour.OutPrints | interpreter.py:101-107 | `out(e)` evaluates `e` without its leading blanks and prints `str()` of the value exactly when the value is not None; a failed evaluation leaves only its own report |
| Semantics.InStep | interpreter.py:110-115 | an input statement never ends in a stop; without the `in("...")` form it does nothing; it aborts exactly when it has the form and the input is exhausted; it binds no name but `_last_input` |
| Behaviour.InReads | interpreter.py:110-115 | `in("p")` writes the prompt `p` and a blank; then it binds the first input line to `_last_input` and consumes it, or, on an exhausted input, aborts with no binding made |
| Semantics.SimpleStep | interpreter.py:69-115 | a one-line statement never ends in a stop |
| Semantics.ScanElse | interpreter.py:146-179 | the scan ends at or after the line it started from, at most one past the end of the body |
| Properties.SimpleFollows | interpreter.py:69-115 | a one-line statement only adds to the trace, consumes input from the front, never unbinds a name and binds only identifiers |
| Properties.RunCodeFollows | interpreter.py:50-183 | a whole run, nested blocks included, only adds to the trace, consumes input from the front, never unbinds a name and binds only identifiers |
| Properties.RepeatFollows | interpreter.py:127-128 | running a block n times only extends the state in the same way |
| Properties.ScanElseFollows | interpreter.py:146-179 | the else-scan only extends the state in the same way |
| Properties.EvalFollows | interpreter.py:14-48 | an evaluation only extends the state |
| Behaviour.NoEntryPoint | interpreter.py:51-54 | without the marker or without a `}`, the run reports the missing entry point, runs nothing and leaves the environment as it was |
| Behaviour.RunBlockIsRunCode | interpreter.py:128 | running a re-wrapped block is running its lines |
| Behaviour.BlankStep | interpreter.py:61-63 | a blank line does nothing |
| Behaviour.IgnoredStep | interpreter.py:87-183 | a line no branch recognises does nothing and the loop goes on |
| Behaviour.CallsClaimedByPrefix | interpreter.py:118-133 | `report()` is taken for a `rep` line without a count and `iffy()` for an `if` line without a condition, so both are reported as malformed |
| Behaviour.DefyIgnored | interpreter.py:59-183 | `defy(greet) {` and `greet()` are both ignored |
| Behaviour.StopStep | interpreter.py:66-67 | unfolds the run's definition at a `stop()` line: the run ends at once, with the state unchanged |
| Behaviour.StopFirst | interpreter.py:61-67 | a block whose first statement is `stop()` stops with nothing done |
| Behaviour.StopInsideRep | interpreter.py:127-128 | a stop inside a repeated block ends the enclosing body too, and nothing after it runs |
| Behaviour.StopInsideIf | interpreter.py:144-145 | a stop inside the block of a true `if` ends the enclosing body too |
| Behaviour.ProgramStops | interpreter.py:193-196 | a program that starts with `stop()` ends with the stop notice printed and nothing else done |
| Behaviour.RepStep | interpreter.py:118-128 | unfolds the run's definition at `rep n {`: the captured block runs n times, then the loop goes on after the closing line, unless a run stopped or aborted |
| Behaviour.RepZeroSkipsBlock | interpreter.py:118-128 | `rep 0 {` runs nothing and goes on after the block's closing line |
| Behaviour.RepMalformed | interpreter.py:129-130 | unfolds the run's definition: a `rep` line without a count is reported, and the loop goes on at the next line |
| Behaviour.RepeatAdd | interpreter.py:127-128 | n + m runs are n runs followed by m runs from the state they left, so changes accumulate |
| Behaviour.RepeatSnoc | interpreter.py:127-128 | n + 1 runs are n runs followed by one more |
| Behaviour.IfLineStep | interpreter.py:133-137 | unfolds the run's definition: an `if` line with a condition evaluates it and hands over to the branch it selects |
| Behaviour.IfTrueStep | interpreter.py:138-145 | unfolds the run's definition: a true `if` runs its block and goes on after the block's closing line |
| Behaviour.IfFalseStep | interpreter.py:138-148 | unfolds the run's definition: a false `if` scans from the line after the block's closing line and goes on after the line where the scan ended |
| Behaviour.IfMalformed | interpreter.py:180-181 | unfolds the run's definition: an `if` line without a condition is reported, and the loop goes on at the next line |
| Behaviour.ElseStep | interpreter.py:149-179 | the scan passes over a line that does not start with `else` |
| Behaviour.ScanSkips | interpreter.py:149-179 | the scan passes over every line that does not start with `else`, whatever it holds |
| Behaviour.FalseIfSkipsRest | interpreter.py:146-179 | a false `if` with no later `else`-line runs nothing more in its body |
| Behaviour.FirstElseRuns | interpreter.py:169-177 | when the first `else`-line is a plain `else`, its block runs and the scan ends at its closing line |
| Behaviour.FirstElseIfDecides | interpreter.py:153-166 | when the first `else`-line is an `else if`, a true condition runs its block and ends the scan, and a false one scans on after its block |
| Behaviour.ElseIfMalformed | interpreter.py:153-155 | an `else if` without a condition is passed over |
| Behaviour.OutWithEqualsIsAssignment | interpreter.py:87-101 | a line that starts with `out` and holds `=` is taken for an assignment |
| Behaviour.OutComparisonTarget | interpreter.py:87-89 | `out(a == b)` assigns to the name `out(a` |
| Behaviour.OutComparisonTargetInvalid | interpreter.py:92-93 | `out(a` is not a valid variable name, so it is reported |
| Behaviour.IfxIsInvalidIf | interpreter.py:133-134 | `ifx = 1` is taken for an `if` line, and it has no condition |
| Behaviour.ElseLayoutIgnored | interpreter.py:59-133 | a `}` line and an `else {` line are no statement: the loop passes over them where it meets them |
| Behaviour.AssignSplit | interpreter.py:88-89 | `AssignTarget` and `AssignSource` split the line at its first `=`: the name is the stripped text before it, the expression all the text after it |
| Behaviour.FailedEvalBindsNil | interpreter.py:97-98 | an assignment whose evaluation fails binds the name to None |
| Semantics.ClassifyOrder | interpreter.py:59-133 | `Classify` runs the tests in the loop's order: a line is blank iff it is empty, and `stop()` iff it starts with `stop()`; it is an assignment iff it holds `=` and starts with none of `stop()`, `wait.` and `if`; so `out`, `in` and `rep` lines hold no `=` |
| Semantics.RunCode | interpreter.py:50-56 | definition: the run of a text is the run of its entry point's body from line 0, or the report of a missing entry point (`NoEntryPoint`, `RunCodeFollows`) |
| Semantics.ExecFrom | interpreter.py:57-58 | definition: the dispatch loop from line `i`, which ends normally past the last line |
| Semantics.ExecLine | interpreter.py:59-183 | definition: one turn of the loop, chosen by `Classify` on the stripped line; `stop()` ends the run, `rep` and `if` take their blocks, and every other line is one statement followed by the next line |
| Semantics.RunBlock | interpreter.py:128 | definition: a captured block runs as its trimmed lines do, which is how `run_relief` runs the re-wrapped text (`RunBlockIsRunCode`) |
| Semantics.Repeat | interpreter.py:127-128 | definition: `n` runs of a block, each from the state the previous one left, abandoned at the first that does not end normally (`RepeatAdd`, `RepeatSnoc`) |
| Semantics.IfBranch | interpreter.py:138-179 | definition: a true condition runs the block and the loop goes on after its closing line; a false one runs the else-scan and the loop goes on after the line where the scan ended (`IfTrueStep`, `IfFalseStep`) |
| Semantics.ScanLine | interpreter.py:149-179 | one turn of the scan ends at or after its line, at most one past the end of the body; an `else if` with a condition is decided, a plain `else` runs its block, and every other line is passed over (`ScanSkips`, `FirstElseRuns`) |
| Semantics.ElseIfBranch | interpreter.py:156-166 | the scan ends at or after the `else if` line; a true condition runs its block and ends the scan at its closing line, and a false one scans on after it (`FirstElseIfDecides`) |
| Semantics.Program | interpreter.py:193-196 | definition: the `__main__` run, which prints the stop notice after a run that ended by `stop()` (`ProgramStops`) |
| Patterns.WaitForm | interpreter.py:71-73 | definition: `re.match(r"wait\.(\w+)\((\d+)\)", line)` with the unit and `int()` of the digits (`WaitFormRoundTrip`) |
| Patterns.InputForm | interpreter.py:23-25 | definition: `re.match(r'in\s*\(\s*"(.*)"\s*\)', s)` with its greedy group, as `eval_expr` and the `in` statement at lines 111-112 use it (`InputFormRoundTrip`) |
| Patterns.OutArgument | interpreter.py:102-104 | definition: `re.match(r"out\s*\(\s*(.*)\s*\)", line)` with its greedy group (`OutArgumentRoundTrip`, `LastCloseIsLast`) |
| Patterns.IfCondition | interpreter.py:134-136 | definition: `re.search(r"if\s*\((.*)\)\s*{", line)`, first match position and greedy group (`ConditionRoundTrip`, `NoParenNoCondition`) |
| Patterns.ElseIfCondition | interpreter.py:154-156 | definition: `re.search(r"else if\s*\((.*)\)\s*{", line)`, first match position and greedy group (`ConditionRoundTrip`) |
| Patterns.RepeatCount | interpreter.py:119-121 | definition: `re.search(r"rep\s+(\d+)\s*{", line)` and `int()` of the digits (`RepeatRoundTrip`) |
| Patterns.IsIdentifier | interpreter.py:92 | definition: `re.match(r'^[A-Za-z_][A-Za-z0-9_]*$', name)` (`IdentifierIsWord`) |
| Expressions.Substitute | interpreter.py:39 | definition: `re.sub(r'\b[A-Za-z_][A-Za-z0-9_]*\b', replacer, expr)`, token by token (`SubstituteEmpty`, `SubstituteIdentifier`, `SubstituteNonWord`, `SubstituteNumberWord`, `SubstituteAppend`) |
| Expressions.Replacement | interpreter.py:29-37 | definition: `replacer` on one word-character run (`SubstituteIdentifier`) |
| Blocks.Wrap | interpreter.py:128 | definition: `"when project start { " + "\n".join(block) + " }"` (`ExtractWrap`) |
| Blocks.FindEntry | interpreter.py:51 | definition: `re.search` for the marker, tried at each start position in turn (`NoMarkerNoEntry`, `NoBraceNoEntry`) |
| Blocks.EntryAt | interpreter.py:51 | definition: the marker, blanks, `{`, then the greedy `[\s\S]*` up to the last `}` of the text, at one start position (`ExtractWrap`) |
| Text.SplitLines | interpreter.py:56 | `splitlines()` gives lines that hold no line boundary (`SplitJoin`, `StripJoinSplit`) |
| Text.Join | interpreter.py:128 | definition: `"\n".join(lines)` (`SplitJoin`) |
| State.Truthy | interpreter.py:144 | definition: Python truthiness of a value: a non-empty string, never None, any other value by its own truthiness |
| State.Display | interpreter.py:106-107 | definition: `str(value)` as `print` writes it, `None` for None |
| State.Render | interpreter.py:31-36 | definition: how `replacer` writes a bound value: a string between double quotes, anything else as `str()` |
| Interpreter.Interpreter.constructor | interpreter.py:8 | a new interpreter starts with an empty environment and nothing printed |
| Interpreter.Interpreter.EvalExpr | interpreter.py:14-48 | the value returned and the new state are those of the evaluation |
| Interpreter.Interpreter.SimpleStatement | interpreter.py:69-115 | wait, assignment, `out` and `in` change the fields exactly as the one-line step says |
| Interpreter.Interpreter.Capture | interpreter.py:122-126 | the capture loop returns the lines up to the first one holding a `}`, and the index where it stopped |
| Interpreter.Interpreter.RunRelief | interpreter.py:50-183 | running a text leaves the fields in the state, and ends with the outcome, that the run's meaning gives |
| Interpreter.Interpreter.RunBody | interpreter.py:57-183 | the dispatch loop produces the run of the body from its first line |
| Interpreter.Interpreter.Dispatch | interpreter.py:59-183 | one turn of the loop does what the body's run does from that line, up to the last line it used |
| Interpreter.Interpreter.RepLineTurn | interpreter.py:118-130 | a `rep` line is reported or repeated as the body's run says |
| Interpreter.Interpreter.IfLineTurn | interpreter.py:133-181 | an `if` line is reported or branched on as the body's run says |
| Interpreter.Interpreter.Rep | interpreter.py:119-128 | the capture and the `for` loop give the repetition of the captured block |
| Interpreter.Interpreter.If | interpreter.py:134-179 | an `if` with a condition does what the body's run does from its line |
| Interpreter.Interpreter.Branch | interpreter.py:138-179 | after the condition, the true block or the else-scan runs as the meaning of the branch says |
| Interpreter.Interpreter.ScanElseFrom | interpreter.py:147-179 | the scan loop runs the branch, and stops at the line, that the scan's meaning gives |
| Interpreter.Interpreter.RunNested | interpreter.py:128 | a re-wrapped block runs as its lines do |
| Interpreter.Interpreter.RunProgram | interpreter.py:193-196 | the program run prints the stop notice exactly when it ended by `stop()` |

## Left out

- Python's `eval` is the parameter `Host`. It is a partial function from text to a value, with no further properties. Numbers, floats and booleans are values known only by their `str()` text and their truthiness.
- The effects of `eval` itself are not modelled. The evaluated text runs with the module's globals, so it can reach `env` (`x = env.clear()` empties the environment before `x` is bound). It can also print, call `input()`, or raise `SystemExit`, which `except Exception` does not catch. The contracts of `Expressions.Eval` (the environment is unchanged) and `Properties.RunCodeFollows` (a run never unbinds a name) hold only because `Host` has no effects.
- Console input and output are sequences. Input is the list of lines still to read. Output is one ordered trace of events. The wording of the error messages is not modelled: each message is a constructor of `Error` that carries what it names.
- `time.sleep` is a `Slept` event in milliseconds. The float division for `milsec` is not modelled.
- The command line of the `__main__` block is not modelled: the usage message, the exit code and reading the file. Only the catching of `StopExe` is kept (`Program`, `RunProgram`).
- Exceptions are outcomes. `StopExe` is `Stopped`. The uncaught `EOFError` of an `in(...)` statement is `Aborted`. Other exceptions outside `eval_expr` are not modelled, among them:
  - the `OverflowError` that `time.sleep` raises for a huge amount such as `wait.sec(10000000000)`; the model records the sleep and goes on;
  - the `RecursionError` that about a thousand nested blocks (`rep 1 {` openers, say) raise through the recursive `run_relief` calls; the model's nesting is unbounded;
  - `KeyboardInterrupt`.
- Regular expressions are modelled for ASCII only. Whitespace is ASCII `isspace`. Word characters are `[A-Za-z0-9_]`. Line breaks are the ASCII ones of `splitlines`.
