/** Values, step definitions and step results (argus_mcp/workflows/steps.py). */
module WorkflowSteps {
  import opened Common

  /** The JSON-like values that flow between steps. */
  datatype Value =
    | Null
    | Bool(b: bool)
    | Number(n: real)
    | Text(s: string)
    | Listing(items: seq<Value>)
    | Mapping(fields: map<string, Value>)

  /** A string split at its `${scope.path}` tokens; `path` is already split at the dots. */
  datatype Token = Literal(text: string) | Ref(scope: string, path: seq<string>)

  /** An element of a list argument: only strings are interpolated, other elements pass through. */
  datatype Element = TextElement(tokens: seq<Token>) | RawElement(value: Value)

  /** An argument value. */
  datatype Arg =
    | Template(tokens: seq<Token>)
    | Nested(fields: map<string, Arg>)
    | Elements(items: seq<Element>)
    | Raw(value: Value)

  /** What the regular expressions of the executor recognise a condition string to be. */
  datatype Condition =
    | NoCondition
    | Equals(scope: string, path: seq<string>, text: string)
    | Differs(scope: string, path: seq<string>, text: string)
    | Holds(scope: string, path: seq<string>)
    | Plain(blank: bool)

  datatype Step = Step(
    id: string,
    tool: string,
    args: map<string, Arg>,
    dependsOn: seq<string>,
    condition: Condition,
    retry: int,
    onError: string)

  datatype StepStatus = Completed | Failed | Skipped

  datatype StepResult = StepResult(stepId: string, status: StepStatus, output: Value, error: Option<string>)

  function Ids(steps: seq<Step>): (ids: set<string>) {
    set s | s in steps :: s.id
  }

  /** No two positions of the list carry the same id. */
  predicate UniqueIds(steps: seq<Step>) {
    forall i, j :: 0 <= i < j < |steps| ==> steps[i].id != steps[j].id
  }
}
