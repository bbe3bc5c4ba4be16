/** Step execution and the level loop (argus_mcp/workflows/executor.py). */
module WorkflowExecutor {
  import opened Common
  import opened WorkflowSteps
  import opened WorkflowGraph

  /** What one tool call does: return, raise an ordinary exception, or raise one `_execute_step` does not catch. */
  datatype Outcome = Succeeded(output: Value) | Raised(error: string) | Escaped(error: string)

  /** The world outside: the tool invoker, as an oracle of (step, tool, args, attempt), and Python's `str`. */
  datatype Host = Host(
    invoke: (string, string, map<string, Value>, nat) -> Outcome,
    show: Value -> string)

  type Context = map<string, Value>

  // ---------------------------------------------------------------------------------------------
  // References, interpolation, conditions

  function Walk(v: Value, path: seq<string>): Value
    decreases |path|
  {
    if path == [] then v
    else if v.Mapping? && path[0] in v.fields then Walk(v.fields[path[0]], path[1..])
    else Null
  }

  function ResolveRef(scope: string, path: seq<string>, context: Context): Value {
    if scope in context then Walk(context[scope], path) else Null
  }

  function Join(parts: seq<string>): string {
    if parts == [] then "" else if |parts| == 1 then parts[0] else parts[0] + "." + Join(parts[1..])
  }

  function Substitute(host: Host, tokens: seq<Token>, context: Context): string {
    if tokens == [] then ""
    else
      var text := match tokens[0]
        case Literal(text) => text
        case Ref(scope, path) =>
          var v := ResolveRef(scope, path, context);
          if v.Null? then "${" + scope + "." + Join(path) + "}" else host.show(v);
      text + Substitute(host, tokens[1..], context)
  }

  /** A string that is one whole reference keeps the type of what it resolves to. */
  function InterpolateString(host: Host, tokens: seq<Token>, context: Context): Value {
    if |tokens| == 1 && tokens[0].Ref? && !ResolveRef(tokens[0].scope, tokens[0].path, context).Null?
    then ResolveRef(tokens[0].scope, tokens[0].path, context)
    else Text(Substitute(host, tokens, context))
  }

  function InterpolateElement(host: Host, e: Element, context: Context): Value {
    match e
    case TextElement(tokens) => InterpolateString(host, tokens, context)
    case RawElement(v) => v
  }

  function InterpolateArg(host: Host, arg: Arg, context: Context): Value {
    match arg
    case Template(tokens) => InterpolateString(host, tokens, context)
    case Nested(fields) => Mapping(map k | k in fields :: InterpolateArg(host, fields[k], context))
    case Elements(items) =>
      Listing(seq(|items|, i requires 0 <= i < |items| => InterpolateElement(host, items[i], context)))
    case Raw(v) => v
  }

  function Interpolate(host: Host, args: map<string, Arg>, context: Context): map<string, Value> {
    map k | k in args :: InterpolateArg(host, args[k], context)
  }

  function Truthy(v: Value): bool {
    match v
    case Null => false
    case Bool(b) => b
    case Number(n) => n != 0.0
    case Text(s) => s != ""
    case Listing(items) => items != []
    case Mapping(fields) => fields != map[]
  }

  function EvaluateCondition(host: Host, c: Condition, context: Context): bool {
    match c
    case NoCondition => true
    case Equals(scope, path, text) => host.show(ResolveRef(scope, path, context)) == text
    case Differs(scope, path, text) => host.show(ResolveRef(scope, path, context)) != text
    case Holds(scope, path) => Truthy(ResolveRef(scope, path, context))
    case Plain(blank) => !blank
  }

  // ---------------------------------------------------------------------------------------------
  // One step

  /** `calls` is the history of tool calls of each finished step. */
  datatype ExecState = ExecState(context: Context, results: map<string, StepResult>, calls: map<string, seq<Outcome>>)

  /** How the coroutine of a step ends. */
  datatype StepExit = Returned(result: StepResult) | Crashed(error: string)

  datatype StepRun = StepRun(exit: StepExit, calls: seq<Outcome>)

  function FirstFailed(deps: seq<string>, results: map<string, StepResult>): (d: Option<string>)
    ensures d.Some? <==> exists x :: x in deps && x in results && results[x].status == Failed
    ensures d.Some? ==> d.value in deps && d.value in results && results[d.value].status == Failed
    ensures forall i :: 0 <= i < |deps| && deps[i] in results && results[deps[i]].status == Failed
              && (forall j :: 0 <= j < i ==> deps[j] in results ==> results[deps[j]].status != Failed)
              ==> d == Some(deps[i])
  {
    if deps == [] then None
    else if deps[0] in results && results[deps[0]].status == Failed then Some(deps[0])
    else FirstFailed(deps[1..], results)
  }

  /** Does this step give up because of a failed dependency? */
  predicate GivesUp(step: Step, results: map<string, StepResult>) {
    (step.onError == "skip" || step.onError == "fail") && FirstFailed(step.dependsOn, results).Some?
  }

  /** The attempts from number `attempt` on; `lastError` is the error of the attempt before. */
  function RunAttempts(
    host: Host, step: Step, args: map<string, Value>, attempt: nat, lastError: Option<string>): StepRun
    decreases 1 + step.retry - attempt
  {
    if attempt >= 1 + step.retry then StepRun(Returned(StepResult(step.id, Failed, Null, lastError)), [])
    else
      var o := host.invoke(step.id, step.tool, args, attempt);
      match o
      case Succeeded(output) => StepRun(Returned(StepResult(step.id, Completed, output, None)), [o])
      case Escaped(error) => StepRun(Crashed(error), [o])
      case Raised(error) =>
        var rest := RunAttempts(host, step, args, attempt + 1, Some(error));
        StepRun(rest.exit, [o] + rest.calls)
  }

  function RunStep(host: Host, step: Step, st: ExecState): StepRun {
    if !EvaluateCondition(host, step.condition, st.context) then
      StepRun(Returned(StepResult(step.id, Skipped, Null, None)), [])
    else if GivesUp(step, st.results) then
      if step.onError == "skip" then StepRun(Returned(StepResult(step.id, Skipped, Null, None)), [])
      else
        var d := FirstFailed(step.dependsOn, st.results).value;
        StepRun(Returned(StepResult(step.id, Failed, Null, Some("Dependency '" + d + "' failed"))), [])
    else
      RunAttempts(host, step, Interpolate(host, step.args, st.context), 0, None)
  }

  /** The budget and the verdict of a step agree with the calls it made. */
  ghost predicate Accounted(step: Step, result: StepResult, calls: seq<Outcome>) {
    && result.stepId == step.id
    && (|calls| <= 1 + step.retry || calls == [])
    && (forall i :: 0 <= i < |calls| - 1 ==> calls[i].Raised?)
    && (result.status == Completed <==> calls != [] && calls[|calls| - 1].Succeeded?)
    && (result.status == Completed ==> result.output == calls[|calls| - 1].output && result.error.None?)
    && (calls != [] && !calls[|calls| - 1].Succeeded? ==>
          result.status == Failed && result.error == Some(calls[|calls| - 1].error))
    && (calls != [] && calls[|calls| - 1].Raised? ==> |calls| == 1 + step.retry)
  }

  /** The result recorded for an exit. */
  function ResultOf(step: Step, exit: StepExit): StepResult {
    match exit
    case Returned(r) => r
    case Crashed(error) => StepResult(step.id, Failed, Null, Some(error))
  }

  lemma {:induction false} AttemptsAccounted(
    host: Host, step: Step, args: map<string, Value>, attempt: nat, lastError: Option<string>)
    requires attempt <= 1 + step.retry || attempt == 0
    ensures var run := RunAttempts(host, step, args, attempt, lastError);
            && (|run.calls| <= 1 + step.retry - attempt || run.calls == [])
            && Accounted(step.(retry := step.retry - attempt), ResultOf(step, run.exit), run.calls)
            && (run.calls == [] <==> attempt >= 1 + step.retry)
            && (run.exit.Crashed? ==> run.calls != [] && run.calls[|run.calls| - 1].Escaped?)
    decreases 1 + step.retry - attempt
  {
    if attempt < 1 + step.retry {
      var o := host.invoke(step.id, step.tool, args, attempt);
      if o.Raised? {
        AttemptsAccounted(host, step, args, attempt + 1, Some(o.error));
        var rest := RunAttempts(host, step, args, attempt + 1, Some(o.error));
        assert rest.calls != [] ==> ([o] + rest.calls)[|rest.calls|] == rest.calls[|rest.calls| - 1];
      }
    }
  }

  /** Call accounting for one step: within budget, stopping at the first success, completed exactly on success. */
  lemma StepAccounted(host: Host, step: Step, st: ExecState)
    ensures var run := RunStep(host, step, st); Accounted(step, ResultOf(step, run.exit), run.calls)
    ensures RunStep(host, step, st).exit.Crashed? ==> RunStep(host, step, st).calls != []
  {
    AttemptsAccounted(host, step, Interpolate(host, step.args, st.context), 0, None);
  }

  /** One step with its attempt loop. */
  method ExecuteStep(host: Host, step: Step, st: ExecState) returns (exit: StepExit, calls: seq<Outcome>)
    ensures StepRun(exit, calls) == RunStep(host, step, st)
    ensures Accounted(step, ResultOf(step, exit), calls)
  {
    StepAccounted(host, step, st);
    calls := [];
    if !EvaluateCondition(host, step.condition, st.context) {
      return Returned(StepResult(step.id, Skipped, Null, None)), calls;
    }
    for n := 0 to |step.dependsOn|
      invariant step.onError == "skip" || step.onError == "fail" ==>
                  FirstFailed(step.dependsOn, st.results) == FirstFailed(step.dependsOn[n..], st.results)
    {
      var dep := step.dependsOn[n];
      assert step.dependsOn[n..][1..] == step.dependsOn[n + 1..];
      if dep in st.results && st.results[dep].status == Failed {
        if step.onError == "skip" {
          return Returned(StepResult(step.id, Skipped, Null, None)), calls;
        }
        if step.onError == "fail" {
          return Returned(StepResult(step.id, Failed, Null, Some("Dependency '" + dep + "' failed"))), calls;
        }
      }
    }
    exit, calls := Attempt(host, step, Interpolate(host, step.args, st.context));
  }

  method Attempt(host: Host, step: Step, args: map<string, Value>) returns (exit: StepExit, calls: seq<Outcome>)
    ensures StepRun(exit, calls) == RunAttempts(host, step, args, 0, None)
  {
    var lastError: Option<string> := None;
    calls := [];
    var attempt := 0;
    while attempt < 1 + step.retry
      invariant 0 <= attempt
      invariant var rest := RunAttempts(host, step, args, attempt, lastError);
                RunAttempts(host, step, args, 0, None) == StepRun(rest.exit, calls + rest.calls)
    {
      var o := host.invoke(step.id, step.tool, args, attempt);
      assert forall rest: seq<Outcome> :: calls + ([o] + rest) == calls + [o] + rest;
      calls := calls + [o];
      match o
      case Succeeded(output) => return Returned(StepResult(step.id, Completed, output, None)), calls;
      case Escaped(error) => return Crashed(error), calls;
      case Raised(error) => lastError := Some(error);
      attempt := attempt + 1;
    }
    return Returned(StepResult(step.id, Failed, Null, lastError)), calls;
  }

  // ---------------------------------------------------------------------------------------------
  // Batches of steps that run against one state

  function StatusText(s: StepStatus): string {
    match s case Completed => "completed" case Failed => "failed" case Skipped => "skipped"
  }

  function ContextOf(exit: StepExit): Value {
    match exit
    case Returned(r) => Mapping(map["output" := r.output, "status" := Text(StatusText(r.status))])
    case Crashed(error) => Mapping(map["output" := Null, "status" := Text("failed"), "error" := Text(error)])
  }

  function Record(st: ExecState, step: Step, run: StepRun): ExecState {
    ExecState(st.context[step.id := ContextOf(run.exit)],
              st.results[step.id := ResultOf(step, run.exit)],
              st.calls[step.id := run.calls])
  }

  predicate Fatal(step: Step, exit: StepExit) {
    exit.Crashed? && step.onError == "fail"
  }

  /** The id of the step that aborted the run, and its error. */
  type Abort = (string, string)

  /** Records the exits of `batch`, all computed at `start`, on top of `st`, up to the first fatal one. */
  function RecordBatch(host: Host, start: ExecState, batch: seq<Step>, st: ExecState): Result<ExecState, Abort> {
    if batch == [] then Ok(st)
    else
      var run := RunStep(host, batch[0], start);
      if Fatal(batch[0], run.exit) then Err((batch[0].id, run.exit.error))
      else RecordBatch(host, start, batch[1..], Record(st, batch[0], run))
  }

  function RunBatches(host: Host, batches: seq<seq<Step>>, st: ExecState): Result<ExecState, Abort> {
    if batches == [] then Ok(st)
    else
      var r := RecordBatch(host, st, batches[0], st);
      if r.Err? then r else RunBatches(host, batches[1..], r.value)
  }

  function InitialState(inputs: map<string, Value>): ExecState {
    ExecState(map["inputs" := Mapping(inputs)], map[], map[])
  }

  /** One level: every step runs against the same state, then the exits are recorded in order. */
  method ExecuteLevel(host: Host, level: seq<Step>, st: ExecState) returns (r: Result<ExecState, Abort>)
    ensures r == RecordBatch(host, st, level, st)
  {
    var runs: seq<StepRun> := [];
    for n := 0 to |level|
      invariant |runs| == n && forall i :: 0 <= i < n ==> runs[i] == RunStep(host, level[i], st)
    {
      var exit, calls := ExecuteStep(host, level[n], st);
      runs := runs + [StepRun(exit, calls)];
    }
    var now := st;
    for n := 0 to |level|
      invariant RecordBatch(host, st, level, st) == RecordBatch(host, st, level[n..], now)
    {
      assert level[n..][1..] == level[n + 1..];
      if Fatal(level[n], runs[n].exit) {
        return Err((level[n].id, runs[n].exit.error));
      }
      now := Record(now, level[n], runs[n]);
    }
    return Ok(now);
  }

  method ExecuteLevels(host: Host, levels: seq<seq<Step>>, inputs: map<string, Value>)
      returns (r: Result<ExecState, Abort>)
    ensures r == RunBatches(host, levels, InitialState(inputs))
  {
    var st := InitialState(inputs);
    for n := 0 to |levels|
      invariant RunBatches(host, levels, InitialState(inputs)) == RunBatches(host, levels[n..], st)
    {
      assert levels[n..][1..] == levels[n + 1..];
      var step := ExecuteLevel(host, levels[n], st);
      if step.Err? {
        return step;
      }
      st := step.value;
    }
    return Ok(st);
  }
}
