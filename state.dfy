/** What a run of the interpreter reads and changes: the values it binds,
    the global environment `env`, the lines waiting on standard input, and
    everything it prints, sleeps or reports, in order. */
module State {
  import opened Wrappers

  /** A Python value as the interpreter handles it: a `str`, `None`, or any
      other object (a number, a boolean, ...) known by its `str()` text and
      its truthiness. */
  datatype Value =
    | Str(s: string)
    | Nil
    | Other(text: string, truthy: bool)

  /** Python truthiness, as `if condition_result:` tests it. */
  predicate Truthy(v: Value) {
    match v
    case Str(s) => s != []
    case Nil => false
    case Other(_, t) => t
  }

  /** `str(v)`, as `print` writes it. */
  function Display(v: Value): string {
    match v
    case Str(s) => s
    case Nil => "None"
    case Other(t, _) => t
  }

  /** How identifier substitution writes a bound value into an expression:
      a string between double quotes, anything else as its `str()` text. */
  function Render(v: Value): string {
    match v
    case Str(s) => "\"" + s + "\""
    case _ => Display(v)
  }

  /** Python's `eval` on the substituted expression text: `None` when it raises. */
  type Host = string -> Option<Value>

  /** The diagnostics the interpreter prints (their wording is not modelled). */
  datatype Error =
    | EntryPointNotFound
    | UnknownWaitUnit(unit: string)
    | InvalidVariableName(name: string)
    | EvaluationFailed(expr: string)
    | InvalidRepSyntax(line: string)
    | InvalidIfSyntax(line: string)

  /** One thing written to the console, or one sleep. */
  datatype Event =
    | Printed(text: string)
    | Prompted(prompt: string)
    | Slept(millis: nat)
    | Reported(error: Error)
    | StopNotice

  datatype State = State(env: map<string, Value>, input: seq<string>, trace: seq<Event>) {

    function Emit(e: Event): State {
      this.(trace := trace + [e])
    }

    function Report(e: Error): State {
      Emit(Reported(e))
    }
  }

  /** How a run ended: normally, by `stop()` (the `StopExe` exception), or by
      the `EOFError` that an input statement raises on an exhausted input. */
  datatype Outcome = Done | Stopped | Aborted

  datatype Run = Run(st: State, outcome: Outcome)
}
