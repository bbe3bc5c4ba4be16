/** `WorkflowExecutor.execute` and the theorems stated about it. */
module WorkflowEngine {
  import opened Common
  import opened WorkflowSteps
  import opened WorkflowGraph
  import opened WorkflowExecutor
  import opened WorkflowTheorems
  import opened WorkflowMeaning

  // ---------------------------------------------------------------------------------------------
  // The sequential reference

  /** Steps one by one, each seeing everything recorded before it. */
  function RunInOrder(host: Host, order: seq<Step>, st: ExecState): Result<ExecState, Abort> {
    if order == [] then Ok(st)
    else
      var run := RunStep(host, order[0], st);
      if Fatal(order[0], run.exit) then Err((order[0].id, run.exit.error))
      else RunInOrder(host, order[1..], Record(st, order[0], run))
  }

  /** All steps of `m`, each once, every step after its dependencies. */
  ghost predicate RespectsDependencies(m: map<string, Step>, order: seq<Step>) {
    && UniqueIds(order) && Ids(order) == m.Keys
    && (forall s :: s in order ==> s == m[s.id])
    && (forall i, d :: 0 <= i < |order| && d in order[i].dependsOn ==> d in Ids(order[..i]))
  }

  function Singletons(order: seq<Step>): (batches: seq<seq<Step>>)
    ensures |batches| == |order| && forall i :: 0 <= i < |order| ==> batches[i] == [order[i]]
  {
    seq(|order|, i requires 0 <= i < |order| => [order[i]])
  }

  lemma {:induction false} SingletonsRunInOrder(host: Host, order: seq<Step>, st: ExecState)
    ensures RunBatches(host, Singletons(order), st) == RunInOrder(host, order, st)
  {
    if order == [] {
    } else {
      assert Singletons(order)[1..] == Singletons(order[1..]);
      var run := RunStep(host, order[0], st);
      assert Singletons(order)[0] == [order[0]];
      assert RecordBatch(host, st, [order[0]], st) ==
        if Fatal(order[0], run.exit) then Err((order[0].id, run.exit.error)) else Ok(Record(st, order[0], run));
      SingletonsRunInOrder(host, order[1..], Record(st, order[0], run));
    }
  }

  lemma {:induction false} SingletonsRunnable(m: map<string, Step>, order: seq<Step>, n: nat)
    requires RespectsDependencies(m, order) && n <= |order|
    ensures Runnable(Ids(order[..n]), Singletons(order)[n..])
    decreases |order| - n
  {
    if n < |order| {
      var tail := Singletons(order)[n..];
      assert tail[0] == [order[n]] && tail[1..] == Singletons(order)[n + 1..];
      assert order[..n + 1] == order[..n] + [order[n]];
      assert Ids(order[..n + 1]) == Ids(order[..n]) + Ids([order[n]]);
      SingletonsRunnable(m, order, n + 1);
    }
  }

  lemma SingletonsCover(order: seq<Step>)
    ensures AllIds(Singletons(order)) == Ids(order)
  {
    forall id | id in Ids(order) ensures id in AllIds(Singletons(order)) {
      var i :| 0 <= i < |order| && order[i].id == id;
      assert Singletons(order)[i] in Singletons(order) && order[i] in Singletons(order)[i];
    }
  }

  lemma OrderIsSchedule(m: map<string, Step>, order: seq<Step>)
    requires RespectsDependencies(m, order)
    ensures IsSchedule(m, Singletons(order))
  {
    SingletonsCover(order);
    assert Runnable({}, Singletons(order)) by {
      SingletonsRunnable(m, order, 0);
      assert Ids(order[..0]) == {} && Singletons(order)[0..] == Singletons(order);
    }
    forall b, s | b in Singletons(order) && s in b ensures s.id in m && s == m[s.id] {
      assert s in order;
    }
  }

  /** The level-parallel run returns what running the steps one by one in any dependency-respecting order returns. */
  lemma ParallelIsSequential(
    host: Host, m: map<string, Step>, levels: seq<seq<Step>>, order: seq<Step>, inputs: map<string, Value>)
    requires IsLevelling(m, levels) && RespectsDependencies(m, order)
    requires forall id :: id in m ==> RefersToDefinite(m, m[id])
    ensures Alike(RunBatches(host, levels, InitialState(inputs)), RunInOrder(host, order, InitialState(inputs)))
  {
    OrderIsSchedule(m, order);
    ScheduleIrrelevant(host, m, levels, Singletons(order), inputs);
    SingletonsRunInOrder(host, order, InitialState(inputs));
  }

  /** Without declared references the two differ: `b` tests the status of `a` without depending on it. */
  lemma UndeclaredReferenceDiffers(host: Host, a: Step, b: Step, inputs: map<string, Value>)
    requires a == Step("a", "t", map[], [], NoCondition, 0, "fail")
    requires b == Step("b", "t", map[], [], Equals("a", ["status"], "completed"), 0, "fail")
    requires host.show(Text("completed")) == "completed" && host.show(Null) == "None"
    requires host.invoke("a", "t", map[], 0).Succeeded? && host.invoke("b", "t", map[], 0).Succeeded?
    ensures IsLevelling(map["a" := a, "b" := b], [[a, b]]) && RespectsDependencies(map["a" := a, "b" := b], [a, b])
    ensures var level := RunBatches(host, [[a, b]], InitialState(inputs));
            level.Ok? && "b" in level.value.results && level.value.results["b"].status == Skipped
    ensures var one := RunInOrder(host, [a, b], InitialState(inputs));
            one.Ok? && "b" in one.value.results && one.value.results["b"].status == Completed
  {
    OneLevel(map["a" := a, "b" := b], a, b);
    PairInOneLevel(host, a, b, InitialState(inputs));
    PairInOrder(host, a, b, InitialState(inputs));
    UndeclaredSeen(host, a, b, InitialState(inputs));
  }

  lemma UndeclaredSeen(host: Host, a: Step, b: Step, st: ExecState)
    requires a.id == "a" && a.dependsOn == [] && a.args == map[] && a.retry == 0 && a.condition.NoCondition?
    requires b.id == "b" && b.dependsOn == [] && b.args == map[] && b.retry == 0
    requires b.condition == Equals("a", ["status"], "completed") && "a" !in st.context
    requires host.show(Text("completed")) == "completed" && host.show(Null) == "None"
    requires host.invoke("a", a.tool, map[], 0).Succeeded? && host.invoke("b", b.tool, map[], 0).Succeeded?
    ensures RunStep(host, a, st).exit.Returned?
    ensures RunStep(host, b, st).exit == Returned(StepResult("b", Skipped, Null, None))
    ensures var exit := RunStep(host, b, Record(st, a, RunStep(host, a, st))).exit;
            exit.Returned? && exit.result.stepId == "b" && exit.result.status == Completed
  {
    FirstAttemptSucceeds(host, a, st);
    var st' := Record(st, a, RunStep(host, a, st));
    StatusOf(st', "a", RunStep(host, a, st).exit.result);
    FirstAttemptSucceeds(host, b, st');
  }

  lemma StatusOf(st: ExecState, id: string, r: StepResult)
    requires id in st.context && st.context[id] == ContextOf(Returned(r))
    ensures ResolveRef(id, ["status"], st.context) == Text(StatusText(r.status))
  {
    FieldOf(st.context, id, "status");
  }

  lemma FirstAttemptSucceeds(host: Host, s: Step, st: ExecState)
    requires EvaluateCondition(host, s.condition, st.context) && s.dependsOn == [] && s.args == map[] && s.retry == 0
    requires host.invoke(s.id, s.tool, map[], 0).Succeeded?
    ensures var output := host.invoke(s.id, s.tool, map[], 0).output;
            RunStep(host, s, st).exit == Returned(StepResult(s.id, Completed, output, None))
  {
    assert Interpolate(host, s.args, st.context) == map[];
  }

  lemma PairInOneLevel(host: Host, a: Step, b: Step, st: ExecState)
    requires a.id != b.id
    ensures var runA, runB := RunStep(host, a, st), RunStep(host, b, st);
            !Fatal(a, runA.exit) && !Fatal(b, runB.exit) ==>
              RunBatches(host, [[a, b]], st) == Ok(Record(Record(st, a, runA), b, runB))
  {
    assert [a, b][1..] == [b] && [b][1..] == [];
    var runA, runB := RunStep(host, a, st), RunStep(host, b, st);
    if !Fatal(a, runA.exit) && !Fatal(b, runB.exit) {
      assert RecordBatch(host, st, [b], Record(st, a, runA)) == Ok(Record(Record(st, a, runA), b, runB));
      assert RecordBatch(host, st, [a, b], st) == Ok(Record(Record(st, a, runA), b, runB));
      assert [[a, b]][1..] == [];
    }
  }

  lemma PairInOrder(host: Host, a: Step, b: Step, st: ExecState)
    ensures var runA := RunStep(host, a, st);
            var runB := RunStep(host, b, Record(st, a, runA));
            !Fatal(a, runA.exit) && !Fatal(b, runB.exit) ==>
              RunInOrder(host, [a, b], st) == Ok(Record(Record(st, a, runA), b, runB))
  {
    assert [a, b][1..] == [b] && [b][1..] == [];
    var runA := RunStep(host, a, st);
    var st' := Record(st, a, runA);
    var runB := RunStep(host, b, st');
    assert !Fatal(b, runB.exit) ==> RunInOrder(host, [b], st') == Ok(Record(st', b, runB));
  }

  lemma OneLevel(m: map<string, Step>, a: Step, b: Step)
    requires a.id != b.id && a.dependsOn == b.dependsOn == [] && m == map[a.id := a, b.id := b]
    ensures IsLevelling(m, [[a, b]]) && RespectsDependencies(m, [a, b])
  {
    var levels := [[a, b]];
    assert levels[1..] == [];
    assert Ids([a, b]) == {a.id, b.id} by { assert a in [a, b] && b in [a, b]; }
    assert AllIds(levels) == Ids([a, b]) by { SplitIds(levels); assert AllIds([]) == {}; }
    assert Runnable(Ids([a, b]), []);
    assert IsSchedule(m, levels);
    forall s | s in [a, b] ensures LongestChainBelow(m, s.id, 0) { NoChainBelow(m, s); }
  }

  lemma NoChainBelow(m: map<string, Step>, s: Step)
    requires s.id in m && m[s.id] == s && s.dependsOn == []
    ensures LongestChainBelow(m, s.id, 0)
  {
    assert IsChain(m, [s.id]);
    forall q | IsChain(m, q) && q[0] == s.id ensures |q| <= 1 {
      assert s.id in Ready(m, Done(m, 0));
      ChainsBelowDone(m, 1, q);
    }
  }

  // ---------------------------------------------------------------------------------------------
  // Failure propagation and accounting over whole runs

  /** The state holds an entry for every step of `m`. */
  ghost predicate Covers(m: map<string, Step>, fin: ExecState) {
    m.Keys == fin.results.Keys == fin.calls.Keys
  }

  ghost predicate FailedIn(fin: ExecState, id: string) {
    id in fin.results && fin.results[id].status == Failed
  }

  /** Failed, and its tool was never called. */
  ghost predicate FailedUncalled(fin: ExecState, id: string) {
    FailedIn(fin, id) && id in fin.calls && fin.calls[id] == []
  }

  /** A failure reaches every step above it through unconditional steps that fail on errors. */
  ghost predicate FailuresSpread(m: map<string, Step>, fin: ExecState) {
    forall p :: IsChain(m, p) && |p| > 1 && FailedIn(fin, p[|p| - 1]) && FailFast(m, p) ==> FailedUncalled(fin, p[0])
  }

  /** All steps of the chain but the last are unconditional and fail on errors. */
  ghost predicate FailFast(m: map<string, Step>, p: seq<string>)
    requires IsChain(m, p)
  {
    forall i :: 0 <= i < |p| - 1 ==> m[p[i]].condition.NoCondition? && m[p[i]].onError == "fail"
  }

  /** A "skip" step above a failure is skipped without a call. */
  ghost predicate SkipsAbsorb(m: map<string, Step>, fin: ExecState) {
    forall id, d :: id in m && d in m[id].dependsOn && FailedIn(fin, d) && m[id].onError == "skip" ==>
      id in fin.results && fin.results[id].status == Skipped && id in fin.calls && fin.calls[id] == []
  }

  /** A step that fails without a call failed because of a failed dependency, or had no attempts at all. */
  ghost predicate FailuresHaveCause(m: map<string, Step>, fin: ExecState) {
    forall id :: id in m && FailedUncalled(fin, id) ==>
      m[id].retry < 0 || (m[id].onError == "fail" && exists d :: d in m[id].dependsOn && FailedIn(fin, d))
  }

  ghost predicate AllAccounted(m: map<string, Step>, fin: ExecState)
    requires Covers(m, fin)
  {
    forall id :: id in m ==> Accounted(m[id], fin.results[id], fin.calls[id])
  }

  /** The recorded results and calls of a step follow from what its dependencies ended as. */
  lemma StepConsequences(host: Host, s: Step, at: ExecState, fin: ExecState)
    requires RanAt(host, s, at, fin)
    ensures Accounted(s, fin.results[s.id], fin.calls[s.id])
    ensures (exists d :: d in s.dependsOn && FailedIn(fin, d)) && s.onError == "skip" ==>
              fin.results[s.id].status == Skipped && fin.calls[s.id] == []
    ensures (exists d :: d in s.dependsOn && FailedIn(fin, d)) && s.onError == "fail" && s.condition.NoCondition? ==>
              FailedUncalled(fin, s.id)
    ensures FailedUncalled(fin, s.id) ==>
              s.retry < 0 || (s.onError == "fail" && exists d :: d in s.dependsOn && FailedIn(fin, d))
  {
    StepAccounted(host, s, at);
    AttemptsAccounted(host, s, Interpolate(host, s.args, at.context), 0, None);
    assert forall d :: d in s.dependsOn ==> SameAt(at.results, fin.results, d);
    assert (exists d :: d in s.dependsOn && FailedIn(fin, d)) <==> FirstFailed(s.dependsOn, at.results).Some?;
  }

  /** Skipped steps are those whose condition was false when they ran, and "skip" steps above a failure. */
  lemma SkippedExactlyWhen(host: Host, s: Step, at: ExecState, fin: ExecState)
    requires RanAt(host, s, at, fin)
    ensures fin.results[s.id].status == Skipped <==>
              || !Allows(host, s.condition, at.context)
              || (s.onError == "skip" && exists d :: d in s.dependsOn && FailedIn(fin, d))
    ensures fin.results[s.id].status == Skipped ==> fin.calls[s.id] == []
  {
    ConditionMeans(host, s.condition, at.context);
    AttemptsAccounted(host, s, Interpolate(host, s.args, at.context), 0, None);
    assert forall d :: d in s.dependsOn ==> SameAt(at.results, fin.results, d);
    assert (exists d :: d in s.dependsOn && FailedIn(fin, d)) <==> FirstFailed(s.dependsOn, at.results).Some?;
  }

  /** The tool is called exactly if the condition lets the step run, there is a budget, and no failed dependency makes
      it give up; every call passes what the arguments become in the state in which the step ran. */
  lemma CalledExactlyWhen(host: Host, s: Step, at: ExecState, fin: ExecState)
    requires RanAt(host, s, at, fin)
    ensures fin.calls[s.id] != [] <==>
              && Allows(host, s.condition, at.context) && s.retry >= 0
              && !((s.onError == "skip" || s.onError == "fail") && exists d :: d in s.dependsOn && FailedIn(fin, d))
    ensures WrittenStep(s) ==> CallsMatch(host, s, at.context, fin.calls[s.id])
  {
    ConditionMeans(host, s.condition, at.context);
    AttemptsAccounted(host, s, Interpolate(host, s.args, at.context), 0, None);
    assert forall d :: d in s.dependsOn ==> SameAt(at.results, fin.results, d);
    assert (exists d :: d in s.dependsOn && FailedIn(fin, d)) <==> FirstFailed(s.dependsOn, at.results).Some?;
    if WrittenStep(s) { StepCalls(host, s, at); }
  }

  /** A step that fails because of its dependencies names the first failed one. */
  lemma GivesUpNaming(host: Host, s: Step, at: ExecState, fin: ExecState, i: nat)
    requires RanAt(host, s, at, fin) && s.onError == "fail" && Allows(host, s.condition, at.context)
    requires i < |s.dependsOn| && FailedIn(fin, s.dependsOn[i])
    requires forall j :: 0 <= j < i ==> !FailedIn(fin, s.dependsOn[j])
    ensures fin.results[s.id].error == Some("Dependency '" + s.dependsOn[i] + "' failed")
  {
    ConditionMeans(host, s.condition, at.context);
    forall d | d in s.dependsOn ensures SameAt(at.results, fin.results, d) && d in at.results {
      assert SameEntry(at, fin, d);
    }
    assert forall j :: 0 <= j < |s.dependsOn| ==> s.dependsOn[j] in s.dependsOn;
    assert FirstFailed(s.dependsOn, at.results) == Some(s.dependsOn[i]);
  }

  /** A run begins with the inputs in view and nothing else. */
  lemma InputsAreShown(inputs: map<string, Value>, k: string)
    requires k in inputs && !inputs[k].Null?
    ensures Denotes(InitialState(inputs).context, "inputs", [k], inputs[k])
    ensures forall scope, v :: scope != "inputs" ==> !LeadsTo(InitialState(inputs).context, scope, [k], v)
    ensures InitialState(inputs).results == map[] && InitialState(inputs).calls == map[]
  {
    FieldOf(InitialState(inputs).context, "inputs", k);
    ResolvesExactly(InitialState(inputs).context, "inputs", [k], inputs[k]);
  }

  /** Later steps see the status and the output that the results report. */
  lemma ReferencesSeeResults(host: Host, s: Step, at: ExecState, fin: ExecState)
    requires RanAt(host, s, at, fin)
    ensures var shown := ResolveRef(s.id, ["status"], fin.context);
            match fin.results[s.id].status
            case Completed => shown == Text("completed")
            case Failed => shown == Text("failed")
            case Skipped => shown == Text("skipped")
    ensures ResolveRef(s.id, ["output"], fin.context) == fin.results[s.id].output
    ensures RunStep(host, s, at).exit.Crashed? ==>
              var error := fin.results[s.id].error;
              error.Some? && ResolveRef(s.id, ["error"], fin.context) == Text(error.value)
  {
    if RunStep(host, s, at).exit.Crashed? { FieldOf(fin.context, s.id, "error"); }
    FieldOf(fin.context, s.id, "status");
    FieldOf(fin.context, s.id, "output");
  }

  lemma FieldOf(context: Context, id: string, key: string)
    requires id in context && context[id].Mapping? && key in context[id].fields
    ensures ResolveRef(id, [key], context) == context[id].fields[key]
  {
    assert [key][0] == key && [key][1..] == [];
    assert Walk(context[id].fields[key], []) == context[id].fields[key];
  }

  /** The step ran in a state that showed it final entries of what it depends on, and the inputs. */
  ghost predicate RanInView(host: Host, m: map<string, Step>, s: Step, inputs: map<string, Value>, fin: ExecState) {
    exists at :: RanAt(host, s, at, fin) && Sees(m, s, InitialState(inputs), fin, at)
  }

  /** A finished run has an entry for every step of the workflow and for nothing else. */
  lemma RunCovers(
    host: Host, m: map<string, Step>, batches: seq<seq<Step>>, inputs: map<string, Value>, fin: ExecState)
    requires IsSchedule(m, batches) && RunBatches(host, batches, InitialState(inputs)) == Ok(fin)
    requires forall id :: id in m ==> exists at :: RanAt(host, m[id], at, fin) && m[id].id == id
    ensures Covers(m, fin)
  {
    RunKeepsOthers(host, {}, batches, InitialState(inputs));
    forall id | id !in m ensures id !in fin.results && id !in fin.calls {
      assert SameEntry(InitialState(inputs), fin, id);
    }
    forall id | id in m ensures id in fin.results && id in fin.calls {
      var at :| RanAt(host, m[id], at, fin) && m[id].id == id;
    }
    assert fin.results.Keys == m.Keys;
    assert fin.calls.Keys == m.Keys;
  }

  lemma RunConsequences(
    host: Host, m: map<string, Step>, batches: seq<seq<Step>>, inputs: map<string, Value>, fin: ExecState)
    requires IsSchedule(m, batches) && RunBatches(host, batches, InitialState(inputs)) == Ok(fin)
    ensures Covers(m, fin) && AllAccounted(m, fin)
    ensures FailuresSpread(m, fin) && SkipsAbsorb(m, fin) && FailuresHaveCause(m, fin)
    ensures forall id :: id in m ==> RanInView(host, m, m[id], inputs, fin)
  {
    forall id | id in m
      ensures RanInView(host, m, m[id], inputs, fin) && exists at :: RanAt(host, m[id], at, fin) && m[id].id == id
    {
      var at := StateOf(host, m, batches, inputs, fin, id);
    }
    RunCovers(host, m, batches, inputs, fin);
    AllConsequences(host, m, fin);
  }

  lemma StateOf(
    host: Host, m: map<string, Step>, batches: seq<seq<Step>>, inputs: map<string, Value>, fin: ExecState, id: string)
      returns (at: ExecState)
    requires IsSchedule(m, batches) && RunBatches(host, batches, InitialState(inputs)) == Ok(fin) && id in m
    ensures RanAt(host, m[id], at, fin) && m[id].id == id && Sees(m, m[id], InitialState(inputs), fin, at)
  {
    assert id in AllIds(batches);
    var b, s :| b in batches && s in b && s.id == id;
    var k :| 0 <= k < |batches| && batches[k] == b;
    SameSteps(m, batches, batches);
    at := FindState(host, m, {}, batches, InitialState(inputs), InitialState(inputs), fin, k, s);
  }

  lemma AllConsequences(host: Host, m: map<string, Step>, fin: ExecState)
    requires Covers(m, fin) && forall id :: id in m ==> m[id].id == id && exists at :: RanAt(host, m[id], at, fin)
    ensures AllAccounted(m, fin) && SkipsAbsorb(m, fin) && FailuresHaveCause(m, fin) && FailuresSpread(m, fin)
  {
    forall id | id in m
      ensures Accounted(m[id], fin.results[id], fin.calls[id])
      ensures (exists d :: d in m[id].dependsOn && FailedIn(fin, d)) && m[id].onError == "skip" ==>
                fin.results[id].status == Skipped && fin.calls[id] == []
      ensures FailedUncalled(fin, id) ==>
                m[id].retry < 0 || (m[id].onError == "fail" && exists d :: d in m[id].dependsOn && FailedIn(fin, d))
    {
      var at :| RanAt(host, m[id], at, fin);
      StepConsequences(host, m[id], at, fin);
    }
    forall p | IsChain(m, p) && |p| > 1 && FailedIn(fin, p[|p| - 1]) && FailFast(m, p)
      ensures FailedUncalled(fin, p[0])
    {
      FailureClimbs(host, m, fin, p);
    }
  }

  lemma {:induction false} FailureClimbs(host: Host, m: map<string, Step>, fin: ExecState, p: seq<string>)
    requires Covers(m, fin) && forall id :: id in m ==> m[id].id == id && exists at :: RanAt(host, m[id], at, fin)
    requires IsChain(m, p) && |p| > 1 && FailedIn(fin, p[|p| - 1]) && FailFast(m, p)
    ensures FailedUncalled(fin, p[0])
    decreases |p|
  {
    if |p| > 2 {
      ChainTail(m, p);
      FailureClimbs(host, m, fin, p[1..]);
    }
    var s := m[p[0]];
    assert s.condition.NoCondition? && s.onError == "fail" && p[1] in s.dependsOn;
    var at :| RanAt(host, s, at, fin);
    FailureStep(host, s, at, fin, p[1]);
  }

  lemma ChainTail(m: map<string, Step>, p: seq<string>)
    requires IsChain(m, p) && |p| > 2 && FailFast(m, p)
    ensures IsChain(m, p[1..]) && FailFast(m, p[1..]) && p[1..][|p| - 2] == p[|p| - 1]
  {
  }

  lemma FailureStep(host: Host, s: Step, at: ExecState, fin: ExecState, d: string)
    requires RanAt(host, s, at, fin) && d in s.dependsOn && FailedIn(fin, d)
    requires s.condition.NoCondition? && s.onError == "fail"
    ensures FailedUncalled(fin, s.id)
  {
    StepConsequences(host, s, at, fin);
  }

  /** An aborted run names a step that crashed and fails on errors. */
  lemma {:induction false} AbortNamesCulprit(host: Host, batches: seq<seq<Step>>, st: ExecState)
    requires RunBatches(host, batches, st).Err?
    ensures exists s, at :: IsCulprit(host, batches, s, at, RunBatches(host, batches, st).error)
  {
    var r := RecordBatch(host, st, batches[0], st);
    if r.Err? {
      var s := BatchCulprit(host, st, batches[0], st);
      assert batches[0] in batches;
      assert IsCulprit(host, batches, s, st, r.error);
    } else {
      AbortNamesCulprit(host, batches[1..], r.value);
      var e := RunBatches(host, batches, st).error;
      var s, at :| IsCulprit(host, batches[1..], s, at, e);
      assert IsCulprit(host, batches, s, at, e);
    }
  }

  ghost predicate IsCulprit(host: Host, batches: seq<seq<Step>>, s: Step, at: ExecState, e: Abort) {
    s in StepsOf(batches) && s.onError == "fail" && RunStep(host, s, at).exit == Crashed(e.1) && e.0 == s.id
  }

  // ---------------------------------------------------------------------------------------------
  // The operation

  datatype ExecError = Unresolvables(ids: set<string>) | StepCrashed(id: string, error: string)

  /** Runs a workflow. `results` of the state is what the source returns; `calls` is the history of tool calls. */
  method Execute(host: Host, workflow: WorkflowDefinition, inputs: map<string, Value>)
      returns (r: Result<ExecState, ExecError>)
    ensures var m := StepMapOf(workflow.steps);
            (r.Err? && r.error.Unresolvables?) <==> !(KnownDeps(m) && Acyclic(m))
    ensures r.Ok? ==> forall levels :: IsLevelling(StepMapOf(workflow.steps), levels) ==>
              RunBatches(host, levels, InitialState(inputs)) == Ok(r.value)
    ensures r.Err? && r.error.StepCrashed? ==> forall levels :: IsLevelling(StepMapOf(workflow.steps), levels) ==>
              RunBatches(host, levels, InitialState(inputs)).Err?
    ensures r.Err? && r.error.StepCrashed? ==> forall levels ::
              && IsLevelling(StepMapOf(workflow.steps), levels)
              && AbortsAlone(host, levels, InitialState(inputs))
              ==> RunBatches(host, levels, InitialState(inputs)) == Err((r.error.id, r.error.error))
    ensures r.Err? && r.error.StepCrashed? ==>
              exists s, at :: s in StepMapOf(workflow.steps).Values && s.id == r.error.id && s.onError == "fail"
                           && RunStep(host, s, at).exit == Crashed(r.error.error)
    ensures var m := StepMapOf(workflow.steps);
            r.Ok? ==> && Covers(m, r.value) && AllAccounted(m, r.value)
                      && FailuresSpread(m, r.value) && SkipsAbsorb(m, r.value) && FailuresHaveCause(m, r.value)
                      && forall id :: id in m ==> RanInView(host, m, m[id], inputs, r.value)
  {
    var order := TopologicalOrder(workflow.steps);
    if order.Err? {
      return Err(Unresolvables(order.error));
    }
    ghost var m := StepMapOf(workflow.steps);
    var levels := order.value;
    var run := ExecuteLevels(host, levels, inputs);
    forall other | IsLevelling(m, other) ensures Alike(run, RunBatches(host, other, InitialState(inputs))) {
      LevelOrderIrrelevant(host, m, levels, other, inputs);
    }
    if run.Err? {
      AbortNamesCulprit(host, levels, InitialState(inputs));
      SameSteps(m, levels, levels);
      forall other | IsLevelling(m, other) && AbortsAlone(host, other, InitialState(inputs))
        ensures RunBatches(host, other, InitialState(inputs)) == run
      {
        AbortStableExactlyWhen(host, m, other, inputs);
      }
      return Err(StepCrashed(run.error.0, run.error.1));
    }
    RunConsequences(host, m, levels, inputs, run.value);
    return Ok(run.value);
  }
}
