/** What every workflow run guarantees: order independence, failure propagation, call accounting. */
module WorkflowTheorems {
  import opened Common
  import opened WorkflowSteps
  import opened WorkflowGraph
  import opened WorkflowExecutor

  /** Two runs end alike: both abort, or both return the same results, context and calls. */
  ghost predicate Alike(a: Result<ExecState, Abort>, b: Result<ExecState, Abort>) {
    (a.Ok? <==> b.Ok?) && (a.Ok? ==> a.value == b.value)
  }

  // ---------------------------------------------------------------------------------------------
  // One batch

  /** The state carries exactly what `step` yields when run at `start`. */
  ghost predicate Carries(host: Host, start: ExecState, step: Step, st: ExecState) {
    var run := RunStep(host, step, start);
    && !Fatal(step, run.exit)
    && step.id in st.context && st.context[step.id] == ContextOf(run.exit)
    && step.id in st.results && st.results[step.id] == ResultOf(step, run.exit)
    && step.id in st.calls && st.calls[step.id] == run.calls
  }

  ghost predicate SameAt<T>(a: map<string, T>, b: map<string, T>, k: string) {
    (k in a <==> k in b) && (k in a ==> a[k] == b[k])
  }

  /** The states agree about `id`. */
  ghost predicate SameEntry(a: ExecState, b: ExecState, id: string) {
    SameAt(a.context, b.context, id) && SameAt(a.results, b.results, id) && SameAt(a.calls, b.calls, id)
  }

  /** The states agree about everything outside `ids`. */
  ghost predicate SameOutside(a: ExecState, b: ExecState, ids: set<string>) {
    forall id :: id !in ids ==> SameEntry(a, b, id)
  }

  lemma MapsEqual<T>(a: map<string, T>, b: map<string, T>)
    requires forall k :: SameAt(a, b, k)
    ensures a == b
  {
    assert forall k :: k in a.Keys ==> SameAt(a, b, k);
    assert forall k :: k in b.Keys ==> SameAt(a, b, k);
  }

  lemma SameEverywhere(a: ExecState, b: ExecState)
    requires forall id :: SameEntry(a, b, id)
    ensures a == b
  {
    forall id
      ensures SameAt(a.context, b.context, id) && SameAt(a.results, b.results, id) && SameAt(a.calls, b.calls, id)
    {
      assert SameEntry(a, b, id);
    }
    MapsEqual(a.context, b.context);
    MapsEqual(a.results, b.results);
    MapsEqual(a.calls, b.calls);
  }

  /** A batch is recorded unless one of its steps is fatal, and then it adds exactly its own entries. */
  lemma {:induction false} BatchRecorded(host: Host, start: ExecState, batch: seq<Step>, st: ExecState)
    requires UniqueIds(batch)
    ensures var r := RecordBatch(host, start, batch, st);
            && (r.Ok? <==> forall s :: s in batch ==> !Fatal(s, RunStep(host, s, start).exit))
            && (r.Ok? ==> SameOutside(st, r.value, Ids(batch)))
            && (r.Ok? ==> forall s :: s in batch ==> Carries(host, start, s, r.value))
    decreases |batch|
  {
    if batch == [] {
    } else {
      var s, rest := batch[0], batch[1..];
      assert batch == [s] + rest;
      var run := RunStep(host, s, start);
      if !Fatal(s, run.exit) {
        BatchRecorded(host, start, rest, Record(st, s, run));
        var r := RecordBatch(host, start, rest, Record(st, s, run));
        if r.Ok? { FirstRecorded(host, start, s, rest, st, r.value); }
      }
    }
  }

  lemma FirstRecorded(host: Host, start: ExecState, s: Step, rest: seq<Step>, st: ExecState, fin: ExecState)
    requires UniqueIds([s] + rest)
    requires SameOutside(Record(st, s, RunStep(host, s, start)), fin, Ids(rest))
    requires !Fatal(s, RunStep(host, s, start).exit)
    ensures SameOutside(st, fin, Ids([s] + rest)) && Carries(host, start, s, fin)
  {
    var st' := Record(st, s, RunStep(host, s, start));
    assert forall x :: x in rest ==> x.id != s.id by {
      forall x | x in rest ensures x.id != s.id {
        var i :| 0 <= i < |rest| && rest[i] == x;
        assert ([s] + rest)[i + 1] == x && ([s] + rest)[0] == s;
      }
    }
    assert SameEntry(st', fin, s.id);
    assert Ids([s] + rest) == {s.id} + Ids(rest);
    forall id | id !in Ids([s] + rest) ensures SameEntry(st, fin, id) {
      assert SameEntry(st', fin, id);
    }
  }

  /** The order of the steps inside a level does not matter. */
  lemma BatchOrderIrrelevant(host: Host, start: ExecState, a: seq<Step>, b: seq<Step>)
    requires UniqueIds(a) && UniqueIds(b) && forall s :: s in a <==> s in b
    ensures Alike(RecordBatch(host, start, a, start), RecordBatch(host, start, b, start))
  {
    BatchRecorded(host, start, a, start);
    BatchRecorded(host, start, b, start);
    var ra, rb := RecordBatch(host, start, a, start), RecordBatch(host, start, b, start);
    if ra.Ok? {
      assert Ids(a) == Ids(b);
      forall id ensures SameEntry(ra.value, rb.value, id) {
        if id in Ids(a) {
          var s :| s in a && s.id == id;
          assert Carries(host, start, s, ra.value) && Carries(host, start, s, rb.value);
        } else {
          assert SameEntry(start, ra.value, id) && SameEntry(start, rb.value, id);
        }
      }
      SameEverywhere(ra.value, rb.value);
    }
  }

  /** An aborted batch reports one of its fatal steps. */
  lemma {:induction false} BatchCulprit(host: Host, start: ExecState, batch: seq<Step>, st: ExecState) returns (s: Step)
    requires RecordBatch(host, start, batch, st).Err?
    ensures s in batch && FatalAt(host, start, s)
    ensures RecordBatch(host, start, batch, st) == Err((s.id, RunStep(host, s, start).exit.error))
  {
    s := batch[0];
    var run := RunStep(host, s, start);
    if !Fatal(s, run.exit) {
      s := BatchCulprit(host, start, batch[1..], Record(st, s, run));
    }
  }

  // ---------------------------------------------------------------------------------------------
  // Which step an abort reports

  /** Run at `start`, the step crashes and fails on errors. */
  ghost predicate FatalAt(host: Host, start: ExecState, step: Step) {
    Fatal(step, RunStep(host, step, start).exit)
  }

  ghost predicate AtMostOneFatal(host: Host, start: ExecState, batch: seq<Step>) {
    forall s, t :: s in batch && t in batch && FatalAt(host, start, s) && FatalAt(host, start, t) ==> s == t
  }

  /** The same steps, in another order. */
  ghost predicate Relisted(a: seq<Step>, b: seq<Step>) {
    UniqueIds(a) && UniqueIds(b) && forall s :: s in a <==> s in b
  }

  /** The batch with its `i`-th step moved to the front. */
  function Fronted(batch: seq<Step>, i: nat): seq<Step>
    requires i < |batch|
  {
    [batch[i]] + batch[..i] + batch[i + 1..]
  }

  /** Whichever fatal step is listed first is the one reported. */
  lemma CulpritDependsOnOrder(host: Host, start: ExecState, batch: seq<Step>, i: nat)
    requires UniqueIds(batch) && i < |batch| && FatalAt(host, start, batch[i])
    ensures Relisted(Fronted(batch, i), batch)
    ensures RecordBatch(host, start, Fronted(batch, i), start)
         == Err((batch[i].id, RunStep(host, batch[i], start).exit.error))
  {
    assert batch == batch[..i] + [batch[i]] + batch[i + 1..];
    assert Fronted(batch, i)[0] == batch[i];
  }

  /** The outcome of a batch, error included, is the same for all listings exactly when at most one step is fatal. */
  lemma CulpritStableExactlyWhen(host: Host, start: ExecState, batch: seq<Step>)
    requires UniqueIds(batch)
    ensures (forall a :: Relisted(a, batch) ==>
            RecordBatch(host, start, a, start) == RecordBatch(host, start, batch, start))
       <==> AtMostOneFatal(host, start, batch)
  {
    if AtMostOneFatal(host, start, batch) {
      forall a | Relisted(a, batch)
        ensures RecordBatch(host, start, a, start) == RecordBatch(host, start, batch, start)
      {
        LoneCulprit(host, start, a, batch);
      }
    } else {
      var a := OtherListing(host, start, batch);
    }
  }

  lemma LoneCulprit(host: Host, start: ExecState, a: seq<Step>, b: seq<Step>)
    requires Relisted(a, b) && AtMostOneFatal(host, start, b)
    ensures RecordBatch(host, start, a, start) == RecordBatch(host, start, b, start)
  {
    BatchOrderIrrelevant(host, start, a, b);
    if RecordBatch(host, start, a, start).Err? {
      var s := BatchCulprit(host, start, a, start);
      var t := BatchCulprit(host, start, b, start);
      assert s == t;
    }
  }

  /** With two fatal steps, some listing reports another one. */
  lemma OtherListing(host: Host, start: ExecState, batch: seq<Step>) returns (a: seq<Step>)
    requires UniqueIds(batch) && !AtMostOneFatal(host, start, batch)
    ensures Relisted(a, batch)
    ensures RecordBatch(host, start, a, start).Err? && RecordBatch(host, start, batch, start).Err?
    ensures RecordBatch(host, start, a, start) != RecordBatch(host, start, batch, start)
  {
    var s, t :| s in batch && t in batch && FatalAt(host, start, s) && FatalAt(host, start, t) && s != t;
    var i :| 0 <= i < |batch| && batch[i] == s;
    var j :| 0 <= j < |batch| && batch[j] == t;
    CulpritDependsOnOrder(host, start, batch, i);
    CulpritDependsOnOrder(host, start, batch, j);
    BatchRecorded(host, start, batch, start);
    a := if RecordBatch(host, start, batch, start).error.0 == s.id then Fronted(batch, j) else Fronted(batch, i);
  }

  // ---------------------------------------------------------------------------------------------
  // Any two levellings of a workflow run alike, whatever its steps refer to

  lemma LevelNumberUnique(m: map<string, Step>, id: string, j: nat, k: nat)
    requires LongestChainBelow(m, id, j) && LongestChainBelow(m, id, k)
    ensures j == k
  {
    var p :| IsChain(m, p) && p[0] == id && |p| == j + 1;
    var q :| IsChain(m, q) && q[0] == id && |q| == k + 1;
  }

  /** Two levellings differ only in the order inside their levels. */
  lemma LevellingsMatch(m: map<string, Step>, a: seq<seq<Step>>, b: seq<seq<Step>>)
    requires IsLevelling(m, a) && IsLevelling(m, b)
    ensures |a| == |b|
    ensures forall k, s :: 0 <= k < |a| ==> (s in a[k] <==> s in b[k])
  {
    LevelsAreEarliest(m, a, b);
    LevelsAreEarliest(m, b, a);
    forall k, s | 0 <= k < |a| ensures s in a[k] <==> s in b[k] {
      if s in a[k] { LevelHolds(m, a, b, k, s); }
      if s in b[k] { LevelHolds(m, b, a, k, s); }
    }
  }

  lemma LevelHolds(m: map<string, Step>, a: seq<seq<Step>>, b: seq<seq<Step>>, k: nat, s: Step)
    requires IsLevelling(m, a) && IsLevelling(m, b) && k < |a| && s in a[k]
    ensures k < |b| && s in b[k]
  {
    assert a[k] in a && s.id in AllIds(b);
    var c, s' :| c in b && s' in c && s'.id == s.id;
    var j :| 0 <= j < |b| && b[j] == c;
    LevelNumberUnique(m, s.id, j, k);
  }

  lemma {:induction false} PermutedBatches(
    host: Host, done: set<string>, a: seq<seq<Step>>, b: seq<seq<Step>>, st: ExecState)
    requires |a| == |b| && forall k, s :: 0 <= k < |a| ==> (s in a[k] <==> s in b[k])
    requires Runnable(done, a) && Runnable(done, b)
    ensures Alike(RunBatches(host, a, st), RunBatches(host, b, st))
    decreases |a|
  {
    if a == [] {
    } else {
      BatchOrderIrrelevant(host, st, a[0], b[0]);
      assert Ids(a[0]) == Ids(b[0]);
      var r := RecordBatch(host, st, a[0], st);
      if r.Ok? {
        PermutedBatches(host, done + Ids(a[0]), a[1..], b[1..], r.value);
      }
    }
  }

  /** In the level that aborts the run, if any, only one step is fatal. */
  ghost predicate AbortsAlone(host: Host, levels: seq<seq<Step>>, st: ExecState)
    decreases |levels|
  {
    levels == [] ||
    (&& AtMostOneFatal(host, st, levels[0])
     && var r := RecordBatch(host, st, levels[0], st);
        r.Ok? ==> AbortsAlone(host, levels[1..], r.value))
  }

  lemma {:induction false} LoneAborts(host: Host, a: seq<seq<Step>>, b: seq<seq<Step>>, st: ExecState)
    requires |a| == |b| && forall k :: 0 <= k < |a| ==> Relisted(a[k], b[k])
    requires AbortsAlone(host, b, st)
    ensures RunBatches(host, a, st) == RunBatches(host, b, st)
    decreases |a|
  {
    if a == [] {
    } else {
      assert Relisted(a[0], b[0]);
      LoneCulprit(host, st, a[0], b[0]);
      var r := RecordBatch(host, st, a[0], st);
      if r.Ok? {
        forall k | 0 <= k < |a| - 1 ensures Relisted(a[1..][k], b[1..][k]) { assert Relisted(a[k + 1], b[k + 1]); }
        LoneAborts(host, a[1..], b[1..], r.value);
      }
    }
  }

  /** Where several steps are fatal, another listing of one level makes the run report another of them. */
  lemma {:induction false} OtherCulprit(host: Host, levels: seq<seq<Step>>, st: ExecState)
      returns (k: nat, level: seq<Step>)
    requires !AbortsAlone(host, levels, st) && forall i :: 0 <= i < |levels| ==> UniqueIds(levels[i])
    ensures k < |levels| && Relisted(level, levels[k])
    ensures RunBatches(host, levels[k := level], st) != RunBatches(host, levels, st)
    decreases |levels|
  {
    if AtMostOneFatal(host, st, levels[0]) {
      var r := RecordBatch(host, st, levels[0], st);
      var j;
      j, level := OtherCulprit(host, levels[1..], r.value);
      k := j + 1;
      assert levels[k := level][1..] == levels[1..][j := level] && levels[k := level][0] == levels[0];
    } else {
      k := 0;
      level := OtherListing(host, st, levels[0]);
      assert levels[0 := level][0] == level;
    }
  }

  lemma {:induction false} RelistedRunnable(done: set<string>, batches: seq<seq<Step>>, k: nat, batch: seq<Step>)
    requires Runnable(done, batches) && k < |batches| && Relisted(batch, batches[k])
    ensures Runnable(done, batches[k := batch])
    decreases k
  {
    var other := batches[k := batch];
    if k == 0 {
      assert Ids(batch) == Ids(batches[0]) && other[1..] == batches[1..];
    } else {
      assert other[1..] == batches[1..][k - 1 := batch] && other[0] == batches[0];
      RelistedRunnable(done + Ids(batches[0]), batches[1..], k - 1, batch);
    }
  }

  lemma SameMembers(a: seq<seq<Step>>, b: seq<seq<Step>>)
    requires |a| == |b| && forall i, s :: 0 <= i < |a| ==> (s in a[i] <==> s in b[i])
    ensures StepsOf(a) == StepsOf(b) && AllIds(a) == AllIds(b)
  {
    forall s | s in StepsOf(a) ensures s in StepsOf(b) {
      var i :| 0 <= i < |a| && s in a[i];
      assert b[i] in b;
    }
    forall s | s in StepsOf(b) ensures s in StepsOf(a) {
      var i :| 0 <= i < |b| && s in b[i];
      assert a[i] in a;
    }
    assert forall c: seq<seq<Step>>, id :: id in AllIds(c) <==> exists s :: s in StepsOf(c) && s.id == id;
  }

  lemma RelistedSchedule(m: map<string, Step>, levels: seq<seq<Step>>, k: nat, level: seq<Step>)
    requires IsSchedule(m, levels) && k < |levels| && Relisted(level, levels[k])
    ensures IsSchedule(m, levels[k := level])
  {
    var other := levels[k := level];
    RelistedRunnable({}, levels, k, level);
    SameMembers(other, levels);
    SameSteps(m, levels, levels);
    forall b, s | b in other && s in b ensures s.id in m && s == m[s.id] {
      assert s in StepsOf(other);
    }
  }

  lemma RelistedLevelling(m: map<string, Step>, levels: seq<seq<Step>>, k: nat, level: seq<Step>)
    requires IsLevelling(m, levels) && k < |levels| && Relisted(level, levels[k])
    ensures IsLevelling(m, levels[k := level])
  {
    var other := levels[k := level];
    RelistedSchedule(m, levels, k, level);
    assert levels[k][0] in level;
    forall i, s: Step | 0 <= i < |other| && s in other[i] ensures LongestChainBelow(m, s.id, i) {
      assert s in levels[i];
    }
  }

  /** The whole outcome of a run, the reported step included, is the same for all levellings of a workflow exactly when
      the level that aborts it, if any, has a single fatal step. */
  lemma AbortStableExactlyWhen(host: Host, m: map<string, Step>, levels: seq<seq<Step>>, inputs: map<string, Value>)
    requires IsLevelling(m, levels)
    ensures (forall a :: IsLevelling(m, a) ==>
               RunBatches(host, a, InitialState(inputs)) == RunBatches(host, levels, InitialState(inputs)))
       <==> AbortsAlone(host, levels, InitialState(inputs))
  {
    UniqueInBatches({}, levels);
    if AbortsAlone(host, levels, InitialState(inputs)) {
      forall a | IsLevelling(m, a)
        ensures RunBatches(host, a, InitialState(inputs)) == RunBatches(host, levels, InitialState(inputs))
      {
        LevellingsMatch(m, a, levels);
        UniqueInBatches({}, a);
        assert forall k :: 0 <= k < |a| ==> Relisted(a[k], levels[k]);
        LoneAborts(host, a, levels, InitialState(inputs));
      }
    } else {
      var k, level := OtherCulprit(host, levels, InitialState(inputs));
      RelistedLevelling(m, levels, k, level);
    }
  }

  lemma {:induction false} UniqueInBatches(done: set<string>, batches: seq<seq<Step>>)
    requires Runnable(done, batches)
    ensures forall k :: 0 <= k < |batches| ==> UniqueIds(batches[k])
    decreases |batches|
  {
    if batches == [] {
    } else {
      UniqueInBatches(done + Ids(batches[0]), batches[1..]);
      forall k | 0 <= k < |batches| ensures UniqueIds(batches[k]) {
        if k > 0 { assert batches[k] == batches[1..][k - 1]; }
      }
    }
  }

  /** Confluence within levels: the listing of each level chosen by set iteration cannot be observed. */
  lemma LevelOrderIrrelevant(
    host: Host, m: map<string, Step>, a: seq<seq<Step>>, b: seq<seq<Step>>, inputs: map<string, Value>)
    requires IsLevelling(m, a) && IsLevelling(m, b)
    ensures Alike(RunBatches(host, a, InitialState(inputs)), RunBatches(host, b, InitialState(inputs)))
  {
    LevellingsMatch(m, a, b);
    PermutedBatches(host, {}, a, b, InitialState(inputs));
  }

  // ---------------------------------------------------------------------------------------------
  // What references mean

  /** `trail` follows the keys of `path` through nested mappings from `v` to `target`. */
  ghost predicate IsTrail(v: Value, path: seq<string>, trail: seq<Value>, target: Value) {
    && |trail| == |path| + 1 && trail[0] == v && trail[|path|] == target
    && forall i :: 0 <= i < |path| ==>
          trail[i].Mapping? && path[i] in trail[i].fields && trail[i + 1] == trail[i].fields[path[i]]
  }

  /** A reference resolves to a value exactly when the keys of its path lead there. */
  lemma {:induction false} ResolvesAlongTrail(v: Value, path: seq<string>, target: Value)
    requires !target.Null?
    ensures Walk(v, path) == target <==> exists trail :: IsTrail(v, path, trail, target)
    decreases |path|
  {
    if path == [] {
      assert Walk(v, path) == target ==> IsTrail(v, path, [v], target);
    } else if v.Mapping? && path[0] in v.fields {
      var next := v.fields[path[0]];
      ResolvesAlongTrail(next, path[1..], target);
      if Walk(v, path) == target {
        var rest :| IsTrail(next, path[1..], rest, target);
        assert IsTrail(v, path, [v] + rest, target);
      }
      forall trail | IsTrail(v, path, trail, target) ensures Walk(v, path) == target {
        assert IsTrail(next, path[1..], trail[1..], target);
      }
    }
  }

  /** An argument that is one whole reference passes the referenced value on with its type. */
  lemma WholeReferenceKeepsValue(
    host: Host, scope: string, path: seq<string>, context: Context, trail: seq<Value>, v: Value)
    requires scope in context && IsTrail(context[scope], path, trail, v) && !v.Null?
    ensures InterpolateString(host, [Ref(scope, path)], context) == v
  {
    ResolvesAlongTrail(context[scope], path, v);
  }

  /** The template as it was written. */
  function Spelled(tokens: seq<Token>): string {
    if tokens == [] then ""
    else (match tokens[0]
          case Literal(text) => text
          case Ref(scope, path) => "${" + scope + "." + Join(path) + "}") + Spelled(tokens[1..])
  }

  /** References that resolve to nothing stay in the text as they were written. */
  lemma {:induction false} UnresolvedStaysVerbatim(host: Host, tokens: seq<Token>, context: Context)
    requires forall t :: t in tokens && t.Ref? ==> ResolveRef(t.scope, t.path, context).Null?
    ensures Substitute(host, tokens, context) == Spelled(tokens)
    ensures InterpolateString(host, tokens, context) == Text(Spelled(tokens))
  {
    if tokens == [] {
    } else {
      assert tokens[0] in tokens;
      UnresolvedStaysVerbatim(host, tokens[1..], context);
    }
  }

  // ---------------------------------------------------------------------------------------------
  // A step sees only what it refers to

  ghost predicate TokensWithin(tokens: seq<Token>, scopes: iset<string>) {
    forall t :: t in tokens && t.Ref? ==> t.scope in scopes
  }

  ghost predicate ArgWithin(arg: Arg, scopes: iset<string>) {
    match arg
    case Template(tokens) => TokensWithin(tokens, scopes)
    case Nested(fields) => forall k :: k in fields ==> ArgWithin(fields[k], scopes)
    case Elements(items) => forall e :: e in items && e.TextElement? ==> TokensWithin(e.tokens, scopes)
    case Raw(_) => true
  }

  ghost predicate ConditionWithin(c: Condition, scopes: iset<string>) {
    (c.Equals? || c.Differs? || c.Holds?) ==> c.scope in scopes
  }

  /** The step depends on `d`, directly or through other steps. */
  ghost predicate DependsOn(m: map<string, Step>, id: string, d: string) {
    exists p :: IsChain(m, p) && |p| > 1 && p[0] == id && p[|p| - 1] == d
  }

  /** The scopes that show a step the same in every schedule: what it depends on always ran before it; itself, what
      depends on it and what is no step of the workflow never did. */
  ghost function Definite(m: map<string, Step>, step: Step): iset<string> {
    iset x: string | x !in m || x == step.id || DependsOn(m, step.id, x) || DependsOn(m, x, step.id)
  }

  /** The step refers to `scopes` only. */
  ghost predicate RefersWithin(step: Step, scopes: iset<string>) {
    && (forall k :: k in step.args ==> ArgWithin(step.args[k], scopes))
    && ConditionWithin(step.condition, scopes)
  }

  /** Every step that the step refers to depends on it or is depended on by it, or is the step itself. */
  ghost predicate RefersToDefinite(m: map<string, Step>, step: Step) {
    RefersWithin(step, Definite(m, step))
  }

  ghost predicate SameOn<T>(a: map<string, T>, b: map<string, T>, keys: iset<string>) {
    forall k :: k in keys ==> (k in a <==> k in b) && (k in a ==> a[k] == b[k])
  }

  lemma {:induction false} SubstituteLocal(host: Host, tokens: seq<Token>, scopes: iset<string>, a: Context, b: Context)
    requires TokensWithin(tokens, scopes) && SameOn(a, b, scopes)
    ensures Substitute(host, tokens, a) == Substitute(host, tokens, b)
  {
    if tokens == [] {
    } else {
      assert tokens[0] in tokens;
      assert TokensWithin(tokens[1..], scopes);
      SubstituteLocal(host, tokens[1..], scopes, a, b);
    }
  }

  lemma StringLocal(host: Host, tokens: seq<Token>, scopes: iset<string>, a: Context, b: Context)
    requires TokensWithin(tokens, scopes) && SameOn(a, b, scopes)
    ensures InterpolateString(host, tokens, a) == InterpolateString(host, tokens, b)
  {
    SubstituteLocal(host, tokens, scopes, a, b);
    if tokens != [] { assert tokens[0] in tokens; }
  }

  lemma {:induction false} ArgLocal(host: Host, arg: Arg, scopes: iset<string>, a: Context, b: Context)
    requires ArgWithin(arg, scopes) && SameOn(a, b, scopes)
    ensures InterpolateArg(host, arg, a) == InterpolateArg(host, arg, b)
  {
    match arg
    case Template(tokens) => StringLocal(host, tokens, scopes, a, b);
    case Nested(fields) =>
      forall k | k in fields ensures InterpolateArg(host, fields[k], a) == InterpolateArg(host, fields[k], b) {
        ArgLocal(host, fields[k], scopes, a, b);
      }
    case Elements(items) =>
      forall i | 0 <= i < |items|
        ensures InterpolateElement(host, items[i], a) == InterpolateElement(host, items[i], b)
      {
        assert items[i] in items;
        if items[i].TextElement? { StringLocal(host, items[i].tokens, scopes, a, b); }
      }
      assert InterpolateArg(host, arg, a).items == InterpolateArg(host, arg, b).items;
    case Raw(_) =>
  }

  lemma {:induction false} FirstFailedLocal(deps: seq<string>, a: map<string, StepResult>, b: map<string, StepResult>)
    requires SameOn(a, b, iset d | d in deps)
    ensures FirstFailed(deps, a) == FirstFailed(deps, b)
  {
    if deps == [] {
    } else {
      assert deps[0] in deps;
      assert forall d :: d in deps[1..] ==> d in deps;
      FirstFailedLocal(deps[1..], a, b);
    }
  }

  /** A step runs the same in any two states that agree on what it refers to and on its dependencies' results. */
  lemma StepLocal(host: Host, step: Step, scopes: iset<string>, a: ExecState, b: ExecState)
    requires RefersWithin(step, scopes)
    requires SameOn(a.context, b.context, scopes)
    requires SameOn(a.results, b.results, iset d | d in step.dependsOn)
    ensures RunStep(host, step, a) == RunStep(host, step, b)
  {
    assert EvaluateCondition(host, step.condition, a.context) == EvaluateCondition(host, step.condition, b.context);
    FirstFailedLocal(step.dependsOn, a.results, b.results);
    forall k | k in step.args
      ensures InterpolateArg(host, step.args[k], a.context) == InterpolateArg(host, step.args[k], b.context)
    {
      ArgLocal(host, step.args[k], scopes, a.context, b.context);
    }
    assert Interpolate(host, step.args, a.context) == Interpolate(host, step.args, b.context);
  }

  // ---------------------------------------------------------------------------------------------
  // Every schedule of a workflow with definite references runs alike

  lemma SplitIds(batches: seq<seq<Step>>)
    requires batches != []
    ensures AllIds(batches) == Ids(batches[0]) + AllIds(batches[1..])
  {
    assert batches == [batches[0]] + batches[1..];
  }

  lemma {:induction false} FreshLater(done: set<string>, batches: seq<seq<Step>>)
    requires Runnable(done, batches)
    ensures done !! AllIds(batches)
    decreases |batches|
  {
    if batches == [] {
    } else {
      SplitIds(batches);
      FreshLater(done + Ids(batches[0]), batches[1..]);
    }
  }

  lemma {:induction false} RunKeepsOthers(host: Host, done: set<string>, batches: seq<seq<Step>>, st: ExecState)
    requires Runnable(done, batches)
    ensures var r := RunBatches(host, batches, st); r.Ok? ==> SameOutside(st, r.value, AllIds(batches))
    decreases |batches|
  {
    if batches == [] {
    } else {
      SplitIds(batches);
      BatchRecorded(host, st, batches[0], st);
      var next := RecordBatch(host, st, batches[0], st);
      if next.Ok? {
        RunKeepsOthers(host, done + Ids(batches[0]), batches[1..], next.value);
        var r := RunBatches(host, batches, st);
        if r.Ok? {
          forall id | id !in AllIds(batches) ensures SameEntry(st, r.value, id) {
            assert SameEntry(st, next.value, id) && SameEntry(next.value, r.value, id);
          }
        }
      }
    }
  }

  /** `at` is a state in which `s` was executed on the way to `fin`: its dependencies had their final results. */
  ghost predicate RanAt(host: Host, s: Step, at: ExecState, fin: ExecState) {
    && Carries(host, at, s, fin)
    && (forall d :: d in s.dependsOn ==> d in at.results && SameEntry(at, fin, d))
  }

  /** The set holds steps of `m` together with all their dependencies. */
  ghost predicate Closed(m: map<string, Step>, done: set<string>) {
    forall id :: id in done ==> id in m && forall d :: d in m[id].dependsOn ==> d in done
  }

  lemma {:induction false} ChainStaysWithin(m: map<string, Step>, done: set<string>, p: seq<string>)
    requires Closed(m, done) && IsChain(m, p) && |p| > 1 && forall d :: d in m[p[0]].dependsOn ==> d in done
    ensures p[|p| - 1] in done
    decreases |p|
  {
    if |p| == 2 {
    } else {
      assert p[1] in m[p[0]].dependsOn;
      ChainStaysWithin(m, done, p[1..]);
    }
  }

  /** What a state shows the step of its definite scopes: final entries of what it depends on, and initial ones of all
      others. */
  ghost predicate Sees(m: map<string, Step>, s: Step, init: ExecState, fin: ExecState, at: ExecState) {
    && (forall x :: DependsOn(m, s.id, x) ==> SameEntry(at, fin, x))
    && (forall x :: x in Definite(m, s) && !DependsOn(m, s.id, x) ==> SameEntry(init, at, x))
  }

  /** `done` ran, with its final entries, and nothing else did. */
  ghost predicate RanSoFar(done: set<string>, init: ExecState, fin: ExecState, st: ExecState) {
    (forall id :: id in done ==> SameEntry(st, fin, id)) && SameOutside(init, st, done)
  }

  /** When a step's turn comes, in whatever schedule, it is shown the same. */
  lemma SeesAtTurn(
    m: map<string, Step>, done: set<string>, s: Step, init: ExecState, fin: ExecState, st: ExecState)
    requires Closed(m, done) && s.id in m && m[s.id] == s && s.id !in done && forall d :: d in s.dependsOn ==> d in done
    requires RanSoFar(done, init, fin, st)
    ensures Sees(m, s, init, fin, st)
  {
    forall x | DependsOn(m, s.id, x) ensures SameEntry(st, fin, x) {
      var p :| IsChain(m, p) && |p| > 1 && p[0] == s.id && p[|p| - 1] == x;
      ChainStaysWithin(m, done, p);
    }
    forall x | x in Definite(m, s) && !DependsOn(m, s.id, x) ensures SameEntry(init, st, x) {
      if DependsOn(m, x, s.id) && x in done {
        var p :| IsChain(m, p) && |p| > 1 && p[0] == x && p[|p| - 1] == s.id;
        ChainStaysWithin(m, done, p);
      }
    }
  }

  /** A step with definite references runs the same wherever it is shown the same. */
  lemma SeesAlike(
    host: Host, m: map<string, Step>, s: Step, init: ExecState, fin: ExecState, a: ExecState, b: ExecState)
    requires RefersToDefinite(m, s) && s.id in m && m[s.id] == s && forall d :: d in s.dependsOn ==> d in m
    requires Sees(m, s, init, fin, a) && Sees(m, s, init, fin, b)
    ensures RunStep(host, s, a) == RunStep(host, s, b)
  {
    forall x | x in Definite(m, s) ensures SameAt(a.context, b.context, x) {
      if DependsOn(m, s.id, x) {
        assert SameEntry(a, fin, x) && SameEntry(b, fin, x);
      } else {
        assert SameEntry(init, a, x) && SameEntry(init, b, x);
      }
    }
    forall d | d in s.dependsOn ensures SameAt(a.results, b.results, d) {
      assert IsChain(m, [s.id, d]);
      assert DependsOn(m, s.id, d);
      assert SameEntry(a, fin, d) && SameEntry(b, fin, d);
    }
    StepLocal(host, s, Definite(m, s), a, b);
  }

  lemma ClosedGrows(m: map<string, Step>, done: set<string>, b: seq<Step>)
    requires Closed(m, done)
    requires forall s :: s in b ==> s.id in m && m[s.id] == s && forall d :: d in s.dependsOn ==> d in done
    ensures Closed(m, done + Ids(b))
  {
  }

  /** All steps of the batches are steps of `m`. */
  ghost predicate StepsFrom(m: map<string, Step>, batches: seq<seq<Step>>) {
    forall s :: s in StepsOf(batches) ==> s.id in m && m[s.id] == s
  }

  lemma LaterStepsFrom(m: map<string, Step>, batches: seq<seq<Step>>)
    requires StepsFrom(m, batches) && batches != []
    ensures StepsFrom(m, batches[1..])
    ensures forall s :: s in batches[0] ==> s in StepsOf(batches) && s.id in m && m[s.id] == s
    ensures StepsOf(batches[1..]) <= StepsOf(batches)
  {
    assert batches == [batches[0]] + batches[1..];
  }

  lemma {:induction false} FindState(
    host: Host, m: map<string, Step>, done: set<string>, batches: seq<seq<Step>>, init: ExecState, st: ExecState,
    fin: ExecState, k: nat, s: Step)
      returns (at: ExecState)
    requires Runnable(done, batches) && RunBatches(host, batches, st) == Ok(fin)
    requires Closed(m, done) && StepsFrom(m, batches) && SameOutside(init, st, done)
    requires forall id :: id in done ==> id in st.results
    requires k < |batches| && s in batches[k]
    ensures RanAt(host, s, at, fin) && Sees(m, s, init, fin, at)
    decreases |batches|
  {
    BatchRecorded(host, st, batches[0], st);
    var next, rest := RecordBatch(host, st, batches[0], st).value, batches[1..];
    var done' := done + Ids(batches[0]);
    if k == 0 {
      at := st;
      RunKeepsOthers(host, done, batches, st);
      RunKeepsOthers(host, done', rest, next);
      FreshLater(done, batches);
      FreshLater(done', rest);
      assert s.id in done' && SameEntry(next, fin, s.id);
      assert Carries(host, st, s, next);
      LaterStepsFrom(m, batches);
      SeesAtTurn(m, done, s, init, fin, st);
    } else {
      forall id | id in done' ensures id in next.results {
        if id in Ids(batches[0]) {
          var x :| x in batches[0] && x.id == id;
          assert Carries(host, st, x, next);
        } else {
          assert SameEntry(st, next, id);
        }
      }
      LaterStepsFrom(m, batches);
      ClosedGrows(m, done, batches[0]);
      StillOutside(init, st, next, done, Ids(batches[0]));
      at := FindState(host, m, done', rest, init, next, fin, k - 1, s);
    }
  }

  lemma StillOutside(init: ExecState, st: ExecState, next: ExecState, done: set<string>, ids: set<string>)
    requires SameOutside(init, st, done) && SameOutside(st, next, ids)
    ensures SameOutside(init, next, done + ids)
  {
    forall id | id !in done + ids ensures SameEntry(init, next, id) {
      assert SameEntry(init, st, id) && SameEntry(st, next, id);
    }
  }

  /** Whatever state shows a step its definite scopes: the step's entry is what the step yields there. */
  ghost predicate Settled(host: Host, m: map<string, Step>, steps: set<Step>, init: ExecState, fin: ExecState) {
    forall s, at :: s in steps && Sees(m, s, init, fin, at) ==> Carries(host, at, s, fin)
  }

  ghost function StepsOf(batches: seq<seq<Step>>): set<Step> {
    set b, s | b in batches && s in b :: s
  }

  /** A finished run settles: running a step again wherever it is shown the same would change nothing. */
  lemma RunSettles(
    host: Host, m: map<string, Step>, batches: seq<seq<Step>>, init: ExecState, fin: ExecState)
    requires IsSchedule(m, batches) && RunBatches(host, batches, init) == Ok(fin)
    requires forall s :: s in StepsOf(batches) ==> RefersToDefinite(m, s)
    ensures Settled(host, m, StepsOf(batches), init, fin)
  {
    SameSteps(m, batches, batches);
    forall s, at | s in StepsOf(batches) && Sees(m, s, init, fin, at) ensures Carries(host, at, s, fin) {
      var b :| b in batches && s in b;
      var k :| 0 <= k < |batches| && batches[k] == b;
      var ran := FindState(host, m, {}, batches, init, init, fin, k, s);
      KnownInSchedule(m, batches, k, s);
      SeesAlike(host, m, s, init, fin, ran, at);
    }
  }

  lemma KnownInSchedule(m: map<string, Step>, batches: seq<seq<Step>>, k: nat, s: Step)
    requires IsSchedule(m, batches) && k < |batches| && s in batches[k]
    ensures forall d :: d in s.dependsOn ==> d in m
  {
    forall d | d in s.dependsOn ensures d in m {
      EarlierBatches({}, batches, k, s, d);
      var i :| 0 <= i < k && d in Ids(batches[i]);
      assert batches[i] in batches && d in AllIds(batches);
    }
  }

  /** Running any batches of settled steps from a part of a settled state reaches that state. */
  lemma {:induction false} RunFollows(
    host: Host, m: map<string, Step>, done: set<string>, batches: seq<seq<Step>>, init: ExecState, st: ExecState,
    fin: ExecState)
    requires Runnable(done, batches) && Closed(m, done) && StepsFrom(m, batches)
    requires Settled(host, m, StepsOf(batches), init, fin) && RanSoFar(done, init, fin, st)
    ensures var r := RunBatches(host, batches, st);
            r.Ok? && forall id :: id in done + AllIds(batches) ==> SameEntry(r.value, fin, id)
    decreases |batches|
  {
    if batches == [] {
    } else {
      var b := batches[0];
      LaterStepsFrom(m, batches);
      SplitIds(batches);
      BatchRecorded(host, st, b, st);
      forall s | s in b ensures Carries(host, st, s, fin) {
        SeesAtTurn(m, done, s, init, fin, st);
      }
      var next := RecordBatch(host, st, b, st).value;
      BatchFollows(host, done, b, init, st, next, fin);
      ClosedGrows(m, done, b);
      RunFollows(host, m, done + Ids(b), batches[1..], init, next, fin);
    }
  }

  lemma BatchFollows(
    host: Host, done: set<string>, b: seq<Step>, init: ExecState, st: ExecState, next: ExecState, fin: ExecState)
    requires forall s :: s in b ==> s.id !in done && Carries(host, st, s, fin) && Carries(host, st, s, next)
    requires SameOutside(st, next, Ids(b)) && RanSoFar(done, init, fin, st)
    ensures RanSoFar(done + Ids(b), init, fin, next)
  {
    forall id | id in done + Ids(b) ensures SameEntry(next, fin, id) {
      if id in Ids(b) {
        var s :| s in b && s.id == id;
        assert Carries(host, st, s, next) && Carries(host, st, s, fin);
      } else {
        assert SameEntry(st, next, id) && SameEntry(st, fin, id);
      }
    }
    StillOutside(init, st, next, done, Ids(b));
  }

  /** Confluence: with definite references, all dependency-respecting schedules of a workflow run alike. */
  lemma ScheduleIrrelevant(
    host: Host, m: map<string, Step>, a: seq<seq<Step>>, b: seq<seq<Step>>, inputs: map<string, Value>)
    requires IsSchedule(m, a) && IsSchedule(m, b)
    requires forall id :: id in m ==> RefersToDefinite(m, m[id])
    ensures Alike(RunBatches(host, a, InitialState(inputs)), RunBatches(host, b, InitialState(inputs)))
  {
    if RunBatches(host, a, InitialState(inputs)).Ok? { ScheduleFollows(host, m, a, b, InitialState(inputs)); }
    if RunBatches(host, b, InitialState(inputs)).Ok? { ScheduleFollows(host, m, b, a, InitialState(inputs)); }
  }

  lemma ScheduleFollows(host: Host, m: map<string, Step>, a: seq<seq<Step>>, b: seq<seq<Step>>, st: ExecState)
    requires IsSchedule(m, a) && IsSchedule(m, b)
    requires forall id :: id in m ==> RefersToDefinite(m, m[id])
    requires RunBatches(host, a, st).Ok?
    ensures RunBatches(host, b, st) == RunBatches(host, a, st)
  {
    var fin := RunBatches(host, a, st).value;
    SameSteps(m, a, b);
    RunSettles(host, m, a, st, fin);
    RunKeepsOthers(host, {}, a, st);
    RunFollows(host, m, {}, b, st, st, fin);
    RunKeepsOthers(host, {}, b, st);
    var other := RunBatches(host, b, st).value;
    forall id ensures SameEntry(other, fin, id) {
      if id !in m { assert SameEntry(st, fin, id) && SameEntry(st, other, id); }
    }
    SameEverywhere(other, fin);
  }

  lemma SameSteps(m: map<string, Step>, a: seq<seq<Step>>, b: seq<seq<Step>>)
    requires IsSchedule(m, a) && IsSchedule(m, b)
    ensures StepsOf(a) == StepsOf(b)
    ensures forall s :: s in StepsOf(a) ==> s.id in m && s == m[s.id]
  {
    forall s ensures s in StepsOf(a) <==> s in StepsOf(b) {
      if s in StepsOf(a) { assert s.id in AllIds(b); }
      if s in StepsOf(b) { assert s.id in AllIds(a); }
    }
  }
}
