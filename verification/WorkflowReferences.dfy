/** Which references between steps make the order of execution observable. */
module WorkflowReferences {
  import opened Common
  import opened WorkflowSteps
  import opened WorkflowGraph
  import opened WorkflowExecutor
  import opened WorkflowTheorems
  import opened WorkflowEngine

  // ---------------------------------------------------------------------------------------------
  // Orders that begin in a chosen way

  /** Some steps of `m`, each once and after its dependencies. */
  ghost predicate IsPartialOrder(m: map<string, Step>, order: seq<Step>) {
    && UniqueIds(order)
    && (forall s :: s in order ==> s.id in m && s == m[s.id])
    && (forall i, d :: 0 <= i < |order| && d in order[i].dependsOn ==> d in Ids(order[..i]))
  }

  ghost predicate ValidGraph(m: map<string, Step>) {
    KnownDeps(m) && Acyclic(m) && forall id :: id in m ==> m[id].id == id
  }

  lemma OneMoreStep(m: map<string, Step>, order: seq<Step>, s: Step)
    requires IsPartialOrder(m, order) && s.id in m && s == m[s.id] && s.id !in Ids(order)
    requires forall d :: d in s.dependsOn ==> d in Ids(order)
    ensures IsPartialOrder(m, order + [s]) && Ids(order + [s]) == Ids(order) + {s.id}
  {
    var more := order + [s];
    assert more[..|order|] == order;
    forall i, j | 0 <= i < j < |more| ensures more[i].id != more[j].id {
      if j == |order| { assert order[i] in order; }
    }
    forall i, d | 0 <= i < |more| && d in more[i].dependsOn ensures d in Ids(more[..i]) {
      if i < |order| { assert more[..i] == order[..i]; }
    }
    assert forall x :: x in more <==> x in order || x == s;
  }

  /** A partial order within a closed set can be continued until it covers the set. */
  lemma {:induction false} ContinueOrder(m: map<string, Step>, target: set<string>, order: seq<Step>)
      returns (full: seq<Step>)
    requires ValidGraph(m) && Closed(m, target) && IsPartialOrder(m, order) && Ids(order) <= target
    ensures IsPartialOrder(m, full) && order <= full && Ids(full) == target
    decreases target - Ids(order)
  {
    var rest := target - Ids(order);
    if rest == {} {
      assert target <= Ids(order) + rest;
      full := order;
    } else {
      var id := ReadyStep(m, target, order);
      OneMoreStep(m, order, m[id]);
      full := ContinueOrder(m, target, order + [m[id]]);
    }
  }

  lemma ReadyStep(m: map<string, Step>, target: set<string>, order: seq<Step>) returns (id: string)
    requires ValidGraph(m) && Closed(m, target) && Ids(order) <= target && target - Ids(order) != {}
    ensures id in target - Ids(order) && forall d :: d in m[id].dependsOn ==> d in Ids(order)
  {
    var rest := target - Ids(order);
    NotJammed(m, rest);
    id :| id in rest && forall d :: d in m[id].dependsOn ==> d in m.Keys - rest;
  }

  lemma NotJammed(m: map<string, Step>, rest: set<string>)
    requires ValidGraph(m) && rest != {}
    ensures !Jammed(m, rest)
  {
    BlockedExactlyWhenInvalid(m);
    if Jammed(m, rest) {
      var x :| x in rest;
      JammedIsBlocked(m, rest, x);
    }
  }

  lemma FullOrder(m: map<string, Step>, order: seq<Step>)
    requires IsPartialOrder(m, order) && Ids(order) == m.Keys
    ensures RespectsDependencies(m, order)
  {
  }

  /** Everything that one of the two steps depends on. */
  ghost function Below(m: map<string, Step>, s: string, x: string): set<string> {
    set d | d in m && (DependsOn(m, s, d) || DependsOn(m, x, d))
  }

  lemma BelowIsClosed(m: map<string, Step>, s: string, x: string)
    requires ValidGraph(m)
    ensures Closed(m, Below(m, s, x))
  {
    forall id, d | id in Below(m, s, x) && d in m[id].dependsOn ensures d in Below(m, s, x) {
      if DependsOn(m, s, id) { OneLinkMore(m, s, id, d); } else { OneLinkMore(m, x, id, d); }
    }
  }

  lemma OneLinkMore(m: map<string, Step>, s: string, id: string, d: string)
    requires DependsOn(m, s, id) && id in m && d in m[id].dependsOn && d in m
    ensures DependsOn(m, s, d)
  {
    var p :| IsChain(m, p) && |p| > 1 && p[0] == s && p[|p| - 1] == id;
    assert IsChain(m, p + [d]);
  }

  lemma DirectlyBelow(m: map<string, Step>, s: string, d: string)
    requires s in m && d in m[s].dependsOn && d in m
    ensures DependsOn(m, s, d)
  {
    assert IsChain(m, [s, d]);
  }

  lemma NotBelowItself(m: map<string, Step>, s: string)
    requires Acyclic(m)
    ensures !DependsOn(m, s, s)
  {
    if DependsOn(m, s, s) {
      var p :| IsChain(m, p) && |p| > 1 && p[0] == s && p[|p| - 1] == s;
      assert IsCycle(m, p);
    }
  }

  /** Neither step depends on the other. */
  ghost predicate Unordered(m: map<string, Step>, s: string, x: string) {
    s in m && x in m && s != x && !DependsOn(m, s, x) && !DependsOn(m, x, s)
  }

  /** An order that first runs all that two unordered steps depend on, and then `s` right before `x`. */
  lemma OrderWithNext(m: map<string, Step>, s: string, x: string, before: seq<Step>) returns (order: seq<Step>)
    requires ValidGraph(m) && Unordered(m, s, x)
    requires IsPartialOrder(m, before) && Ids(before) == Below(m, s, x)
    ensures RespectsDependencies(m, order) && before + [m[s], m[x]] <= order
  {
    NotBelowItself(m, s);
    NotBelowItself(m, x);
    forall d | d in m[s].dependsOn ensures d in Ids(before) { DirectlyBelow(m, s, d); }
    forall d | d in m[x].dependsOn ensures d in Ids(before) { DirectlyBelow(m, x, d); }
    OneMoreStep(m, before, m[s]);
    OneMoreStep(m, before + [m[s]], m[x]);
    assert before + [m[s]] + [m[x]] == before + [m[s], m[x]];
    order := ContinueOrder(m, m.Keys, before + [m[s], m[x]]);
    FullOrder(m, order);
  }

  // ---------------------------------------------------------------------------------------------
  // A host that shows what it is called with

  /** A value in which the path leads to `true`. */
  function Nest(path: seq<string>): Value {
    if path == [] then Bool(true) else Mapping(map[path[0] := Nest(path[1..])])
  }

  lemma {:induction false} NestLeads(path: seq<string>)
    ensures Walk(Nest(path), path) == Bool(true)
  {
    if path == [] {
    } else {
      NestLeads(path[1..]);
    }
  }

  /** Every call succeeds: that of `x` with a value in which `path` leads somewhere, any other with its arguments. */
  function Mirror(x: string, path: seq<string>, show: Value -> string): Host {
    Host((id, tool, args, attempt) => Succeeded(if id == x then Nest(path) else Mapping(args)), show)
  }

  function MirrorOutput(host: Host, x: string, path: seq<string>, s: Step, st: ExecState): Value {
    if s.id == x then Nest(path) else Mapping(Interpolate(host, s.args, st.context))
  }

  ghost predicate NoneFailed(st: ExecState) {
    forall id :: id in st.results ==> st.results[id].status != Failed
  }

  lemma MirrorStep(x: string, path: seq<string>, show: Value -> string, s: Step, st: ExecState)
    requires s.retry >= 0 && NoneFailed(st)
    ensures var host := Mirror(x, path, show);
            var run := RunStep(host, s, st);
            && run.exit.Returned? && run.exit.result.stepId == s.id
            && (EvaluateCondition(host, s.condition, st.context) ==>
                  run.exit.result == StepResult(s.id, Completed, MirrorOutput(host, x, path, s, st), None))
            && (!EvaluateCondition(host, s.condition, st.context) ==> run.exit.result.status == Skipped)
            && NoneFailed(Record(st, s, run))
  {
    var host := Mirror(x, path, show);
    assert FirstFailed(s.dependsOn, st.results).None?;
    var args := Interpolate(host, s.args, st.context);
    assert host.invoke(s.id, s.tool, args, 0) == Succeeded(if s.id == x then Nest(path) else Mapping(args));
  }

  /** With retry budgets that are not negative, no run of the mirror fails or aborts. */
  lemma {:induction false} MirrorRuns(
    x: string, path: seq<string>, show: Value -> string, order: seq<Step>, st: ExecState)
    requires NoneFailed(st) && forall s :: s in order ==> s.retry >= 0
    ensures var r := RunInOrder(Mirror(x, path, show), order, st); r.Ok? && NoneFailed(r.value)
  {
    if order == [] {
    } else {
      assert order[0] in order;
      MirrorStep(x, path, show, order[0], st);
      MirrorRuns(x, path, show, order[1..], Record(st, order[0], RunStep(Mirror(x, path, show), order[0], st)));
    }
  }

  lemma {:induction false} RunInParts(host: Host, a: seq<Step>, b: seq<Step>, st: ExecState)
    requires RunInOrder(host, a, st).Ok?
    ensures RunInOrder(host, a + b, st) == RunInOrder(host, b, RunInOrder(host, a, st).value)
  {
    if a == [] {
      assert a + b == b;
    } else {
      assert (a + b)[0] == a[0] && (a + b)[1..] == a[1..] + b;
      RunInParts(host, a[1..], b, Record(st, a[0], RunStep(host, a[0], st)));
    }
  }

  lemma {:induction false} OrderKeepsOthers(host: Host, order: seq<Step>, st: ExecState, id: string)
    requires id !in Ids(order)
    ensures var r := RunInOrder(host, order, st); r.Ok? ==> SameEntry(st, r.value, id)
  {
    if order == [] {
    } else {
      assert order[0] in order && Ids(order[1..]) <= Ids(order);
      OrderKeepsOthers(host, order[1..], Record(st, order[0], RunStep(host, order[0], st)), id);
    }
  }

  /** What becomes of step `s`, wherever it stands in an order: what it yields in the state before it. */
  lemma EntryOf(
    x: string, path: seq<string>, show: Value -> string, before: seq<Step>, s: Step, after: seq<Step>, init: ExecState)
      returns (st: ExecState)
    requires UniqueIds(before + [s] + after) && NoneFailed(init)
    requires forall t :: t in before + [s] + after ==> t.retry >= 0
    ensures NoneFailed(st) && RunInOrder(Mirror(x, path, show), before, init) == Ok(st)
    ensures var host := Mirror(x, path, show);
            var r := RunInOrder(host, before + [s] + after, init);
            && r.Ok? && s.id in r.value.results
            && r.value.results[s.id] == ResultOf(s, RunStep(host, s, st).exit)
  {
    var host, all := Mirror(x, path, show), before + [s] + after;
    assert forall t :: t in before ==> t in all;
    assert forall t :: t in after ==> t in all;
    assert s in all && all == before + ([s] + after);
    MirrorRuns(x, path, show, before, init);
    st := RunInOrder(host, before, init).value;
    RunInParts(host, before, [s] + after, init);
    MirrorStep(x, path, show, s, st);
    var next := Record(st, s, RunStep(host, s, st));
    assert ([s] + after)[0] == s && ([s] + after)[1..] == after;
    MirrorRuns(x, path, show, after, next);
    forall i | 0 <= i < |after| ensures after[i].id != s.id {
      assert all[|before|] == s && all[|before| + 1 + i] == after[i];
    }
    OrderKeepsOthers(host, after, next, s.id);
  }

  // ---------------------------------------------------------------------------------------------
  // References that show whether a step ran

  /** Paths under which a completed step has something to show. */
  predicate Readable(path: seq<string>) {
    path == [] || path == ["status"] || path[0] == "output"
  }

  /** What follows the first key. */
  function Tail(path: seq<string>): seq<string> {
    if path == [] then [] else path[1..]
  }

  /** The entry of a step that completed with a value in which the path leads somewhere. */
  function Entry(path: seq<string>): Value {
    Mapping(map["output" := Nest(Tail(path)), "status" := Text("completed")])
  }

  lemma EntryReads(path: seq<string>)
    requires Readable(path)
    ensures var v := Walk(Entry(path), path); !v.Null? && Truthy(v) && (v.Text? ==> v == Text("completed"))
  {
    if path == [] {
      assert "output" in Entry(path).fields;
    } else if path == ["status"] {
      assert path[1..] == [];
    } else {
      NestLeads(path[1..]);
    }
  }

  /** The argument contains the reference. */
  ghost predicate Names(arg: Arg, x: string, path: seq<string>) {
    match arg
    case Template(tokens) => Ref(x, path) in tokens
    case Nested(fields) => exists k :: k in fields && Names(fields[k], x, path)
    case Elements(items) => exists e :: e in items && e.TextElement? && Ref(x, path) in e.tokens
    case Raw(_) => false
  }

  /** The argument contains the reference in a text of at most `n` characters. */
  ghost predicate NamesWithin(arg: Arg, x: string, path: seq<string>, n: nat) {
    match arg
    case Template(tokens) => Ref(x, path) in tokens && |Spelled(tokens)| <= n
    case Nested(fields) => exists k :: k in fields && NamesWithin(fields[k], x, path, n)
    case Elements(items) =>
      exists e :: e in items && e.TextElement? && Ref(x, path) in e.tokens && |Spelled(e.tokens)| <= n
    case Raw(_) => false
  }

  lemma {:induction false} SomeLength(arg: Arg, x: string, path: seq<string>) returns (n: nat)
    requires Names(arg, x, path)
    ensures NamesWithin(arg, x, path, n)
  {
    match arg
    case Template(tokens) => n := |Spelled(tokens)|;
    case Nested(fields) =>
      var k :| k in fields && Names(fields[k], x, path);
      n := SomeLength(fields[k], x, path);
    case Elements(items) =>
      var e :| e in items && e.TextElement? && Ref(x, path) in e.tokens;
      n := |Spelled(e.tokens)|;
  }

  /** The host shows every value as the same text, longer than `n`. */
  ghost predicate ShowsLong(host: Host, long: string, n: nat) {
    |long| > n && forall v :: host.show(v) == long
  }

  /** Recording `x` makes texts that refer to it longer, and no text shorter. */
  lemma {:induction false} TextGrows(
    host: Host, long: string, n: nat, tokens: seq<Token>, x: string, path: seq<string>, a: Context, e: Value)
    requires ShowsLong(host, long, n) && |Spelled(tokens)| <= n && x !in a
    ensures |Substitute(host, tokens, a)| <= |Substitute(host, tokens, a[x := e])|
    ensures Ref(x, path) in tokens && !Walk(e, path).Null? ==>
              |Substitute(host, tokens, a)| < |Substitute(host, tokens, a[x := e])|
  {
    if tokens == [] {
    } else {
      TextGrows(host, long, n, tokens[1..], x, path, a, e);
      TokenGrows(host, long, tokens[0], a, x, e);
      assert Ref(x, path) in tokens ==> tokens[0] == Ref(x, path) || Ref(x, path) in tokens[1..];
    }
  }

  /** The text of one token. */
  function TokenText(host: Host, t: Token, context: Context): string {
    match t
    case Literal(text) => text
    case Ref(scope, path) =>
      var v := ResolveRef(scope, path, context);
      if v.Null? then "${" + scope + "." + Join(path) + "}" else host.show(v)
  }

  lemma TokenGrows(host: Host, long: string, t: Token, a: Context, x: string, e: Value)
    requires (forall v :: host.show(v) == long) && x !in a
    requires t.Ref? ==> |"${" + t.scope + "." + Join(t.path) + "}"| < |long|
    ensures |TokenText(host, t, a)| <= |TokenText(host, t, a[x := e])|
    ensures t.Ref? && t.scope == x && !Walk(e, t.path).Null? ==>
              |TokenText(host, t, a)| < |TokenText(host, t, a[x := e])|
  {
  }

  lemma StringDiffers(
    host: Host, long: string, n: nat, tokens: seq<Token>, x: string, path: seq<string>, a: Context)
    requires ShowsLong(host, long, n) && |Spelled(tokens)| <= n && x !in a
    requires Ref(x, path) in tokens && Readable(path)
    ensures InterpolateString(host, tokens, a) != InterpolateString(host, tokens, a[x := Entry(path)])
  {
    EntryReads(path);
    TextGrows(host, long, n, tokens, x, path, a, Entry(path));
    if |tokens| == 1 {
      assert tokens[0] == Ref(x, path);
      assert Substitute(host, tokens, a)[0] == '$' && "completed"[0] == 'c';
    }
  }

  lemma {:induction false} ArgDiffers(
    host: Host, long: string, n: nat, arg: Arg, x: string, path: seq<string>, a: Context)
    requires ShowsLong(host, long, n) && NamesWithin(arg, x, path, n) && Readable(path) && x !in a
    ensures InterpolateArg(host, arg, a) != InterpolateArg(host, arg, a[x := Entry(path)])
  {
    var b := a[x := Entry(path)];
    match arg
    case Template(tokens) => StringDiffers(host, long, n, tokens, x, path, a);
    case Nested(fields) =>
      var k :| k in fields && NamesWithin(fields[k], x, path, n);
      ArgDiffers(host, long, n, fields[k], x, path, a);
      assert InterpolateArg(host, arg, a).fields[k] == InterpolateArg(host, fields[k], a);
      assert InterpolateArg(host, arg, b).fields[k] == InterpolateArg(host, fields[k], b);
    case Elements(items) =>
      var i :| 0 <= i < |items| && items[i].TextElement? && Ref(x, path) in items[i].tokens
            && |Spelled(items[i].tokens)| <= n;
      StringDiffers(host, long, n, items[i].tokens, x, path, a);
      assert InterpolateArg(host, arg, a).items[i] == InterpolateElement(host, items[i], a);
      assert InterpolateArg(host, arg, b).items[i] == InterpolateElement(host, items[i], b);
  }

  // ---------------------------------------------------------------------------------------------
  // Two orders that differ

  /** The runs end with different results for step `s`. */
  ghost predicate EndDifferently(host: Host, a: seq<Step>, b: seq<Step>, inputs: map<string, Value>, s: string) {
    var ra, rb := RunInOrder(host, a, InitialState(inputs)), RunInOrder(host, b, InitialState(inputs));
    && ra.Ok? && rb.Ok? && s in ra.value.results && s in rb.value.results
    && ra.value.results[s] != rb.value.results[s]
  }

  /** Two orders that differ in whether `x` runs right before or right after `s`. */
  lemma TwoOrders(m: map<string, Step>, s: string, x: string)
      returns (before: seq<Step>, a: seq<Step>, b: seq<Step>)
    requires ValidGraph(m) && Unordered(m, s, x)
    ensures RespectsDependencies(m, a) && RespectsDependencies(m, b)
    ensures before + [m[s], m[x]] <= a && before + [m[x], m[s]] <= b && x !in Ids(before)
  {
    BelowIsClosed(m, s, x);
    assert Ids([]) == {};
    before := ContinueOrder(m, Below(m, s, x), []);
    NotBelowItself(m, x);
    a := OrderWithNext(m, s, x, before);
    assert Below(m, s, x) == Below(m, x, s);
    b := OrderWithNext(m, x, s, before);
  }

  /** The states in which `s` runs: without an entry for `x`, and with the entry that the mirror makes `x` record. */
  lemma TwoStates(
    m: map<string, Step>, s: string, x: string, path: seq<string>, show: Value -> string, inputs: map<string, Value>,
    before: seq<Step>, a: seq<Step>, b: seq<Step>)
      returns (st: ExecState, st': ExecState)
    requires ValidGraph(m) && Unordered(m, s, x) && x != "inputs" && m[x].condition.NoCondition?
    requires forall id :: id in m ==> m[id].retry >= 0
    requires RespectsDependencies(m, a) && RespectsDependencies(m, b)
    requires before + [m[s], m[x]] <= a && before + [m[x], m[s]] <= b && x !in Ids(before)
    ensures x !in st.context && st'.context == st.context[x := Entry(path)] && NoneFailed(st) && NoneFailed(st')
    ensures var host := Mirror(x, Tail(path), show);
            var ra, rb := RunInOrder(host, a, InitialState(inputs)), RunInOrder(host, b, InitialState(inputs));
            && ra.Ok? && s in ra.value.results && ra.value.results[s] == ResultOf(m[s], RunStep(host, m[s], st).exit)
            && rb.Ok? && s in rb.value.results && rb.value.results[s] == ResultOf(m[s], RunStep(host, m[s], st').exit)
  {
    var init, tail := InitialState(inputs), Tail(path);
    SplitAt(before, m[s], m[x], a);
    SplitAt(before, m[x], m[s], b);
    RetriesWithin(m, a);
    RetriesWithin(m, b);
    st := EntryOf(x, tail, show, before, m[s], [m[x]] + a[|before| + 2..], init);
    st' := EntryOf(x, tail, show, before + [m[x]], m[s], b[|before| + 2..], init);
    OrderKeepsOthers(Mirror(x, tail, show), before, init, x);
    EntryRecorded(x, path, show, before, m[x], init, st);
  }

  lemma SplitAt(before: seq<Step>, u: Step, v: Step, order: seq<Step>)
    requires before + [u, v] <= order
    ensures order == before + [u] + ([v] + order[|before| + 2..])
    ensures order == before + [u] + [v] + order[|before| + 2..]
  {
    assert order == order[..|before| + 2] + order[|before| + 2..];
  }

  lemma RetriesWithin(m: map<string, Step>, order: seq<Step>)
    requires RespectsDependencies(m, order) && forall id :: id in m ==> m[id].retry >= 0
    ensures forall t :: t in order ==> t.retry >= 0
  {
    forall t | t in order ensures t.retry >= 0 { assert t.id in Ids(order); }
  }

  lemma EntryRecorded(
    x: string, path: seq<string>, show: Value -> string, before: seq<Step>, s: Step, init: ExecState, st: ExecState)
    requires s.id == x && s.condition.NoCondition? && s.retry >= 0 && NoneFailed(st)
    requires RunInOrder(Mirror(x, Tail(path), show), before, init) == Ok(st)
    ensures var r := RunInOrder(Mirror(x, Tail(path), show), before + [s], init);
            r.Ok? && r.value.context == st.context[x := Entry(path)]
  {
    var host := Mirror(x, Tail(path), show);
    RunInParts(host, before, [s], init);
    MirrorStep(x, Tail(path), show, s, st);
    assert [s][1..] == [];
    assert RunInOrder(host, [s], st) == Ok(Record(st, s, RunStep(host, s, st)));
  }

  /** An unconditional step whose argument refers to an unordered step: some host and two orders make it end
      differently. */
  lemma ArgumentShowsOrder(
    m: map<string, Step>, s: string, x: string, k: string, path: seq<string>, inputs: map<string, Value>)
      returns (host: Host, a: seq<Step>, b: seq<Step>)
    requires ValidGraph(m) && Unordered(m, s, x) && x != "inputs" && forall id :: id in m ==> m[id].retry >= 0
    requires m[x].condition.NoCondition? && m[s].condition.NoCondition?
    requires k in m[s].args && Names(m[s].args[k], x, path) && Readable(path)
    ensures RespectsDependencies(m, a) && RespectsDependencies(m, b) && EndDifferently(host, a, b, inputs, s)
  {
    var n := SomeLength(m[s].args[k], x, path);
    var long := seq(n + 1, _ => 'z');
    var show: Value -> string := _ => long;
    host := Mirror(x, Tail(path), show);
    var before;
    before, a, b := TwoOrders(m, s, x);
    var st, st' := TwoStates(m, s, x, path, show, inputs, before, a, b);
    MirrorStep(x, Tail(path), show, m[s], st);
    MirrorStep(x, Tail(path), show, m[s], st');
    ArgDiffers(host, long, n, m[s].args[k], x, path, st.context);
    assert Interpolate(host, m[s].args, st.context)[k] == InterpolateArg(host, m[s].args[k], st.context);
    assert Interpolate(host, m[s].args, st'.context)[k] == InterpolateArg(host, m[s].args[k], st'.context);
  }

  /** A step whose condition refers to an unordered step: the same. */
  lemma ConditionShowsOrder(m: map<string, Step>, s: string, x: string, inputs: map<string, Value>)
      returns (host: Host, a: seq<Step>, b: seq<Step>)
    requires ValidGraph(m) && Unordered(m, s, x) && x != "inputs" && forall id :: id in m ==> m[id].retry >= 0
    requires m[x].condition.NoCondition?
    requires var c := m[s].condition; (c.Equals? || c.Differs? || c.Holds?) && c.scope == x && Readable(c.path)
    ensures RespectsDependencies(m, a) && RespectsDependencies(m, b) && EndDifferently(host, a, b, inputs, s)
  {
    var c := m[s].condition;
    var text := if c.Holds? then "" else c.text;
    var show: Value -> string := (v: Value) => if v.Null? then text + "z" else text;
    host := Mirror(x, Tail(c.path), show);
    var before;
    before, a, b := TwoOrders(m, s, x);
    var st, st' := TwoStates(m, s, x, c.path, show, inputs, before, a, b);
    EntryReads(c.path);
    assert host.show(Null) == text + "z" != text;
    MirrorStep(x, Tail(c.path), show, m[s], st);
    MirrorStep(x, Tail(c.path), show, m[s], st');
  }

  // ---------------------------------------------------------------------------------------------
  // The exact condition, for unconditional workflows

  /** All schedules of the workflow run alike, whatever the host and the inputs. */
  ghost predicate OrderNeverShows(m: map<string, Step>) {
    forall host, inputs, a, b | IsSchedule(m, a) && IsSchedule(m, b) ::
      Alike(RunBatches(host, a, InitialState(inputs)), RunBatches(host, b, InitialState(inputs)))
  }

  /** Unconditional steps that call their tools, and references to steps that can show something. */
  ghost predicate Plain(m: map<string, Step>) {
    && ValidGraph(m) && "inputs" !in m
    && (forall id :: id in m ==> m[id].condition.NoCondition? && m[id].retry >= 0)
    && (forall id, k, x, path ::
          id in m && k in m[id].args && x in m && Names(m[id].args[k], x, path) ==> Readable(path))
  }

  lemma {:induction false} OutsideName(arg: Arg, scopes: iset<string>) returns (x: string, path: seq<string>)
    requires !ArgWithin(arg, scopes)
    ensures x !in scopes && Names(arg, x, path)
  {
    match arg
    case Template(tokens) =>
      var t :| t in tokens && t.Ref? && t.scope !in scopes;
      x, path := t.scope, t.path;
    case Nested(fields) =>
      var k :| k in fields && !ArgWithin(fields[k], scopes);
      x, path := OutsideName(fields[k], scopes);
    case Elements(items) =>
      var e :| e in items && e.TextElement? && !TokensWithin(e.tokens, scopes);
      var t :| t in e.tokens && t.Ref? && t.scope !in scopes;
      x, path := t.scope, t.path;
  }

  lemma IndefiniteShowsOrder(m: map<string, Step>, s: string) returns (host: Host, a: seq<seq<Step>>, b: seq<seq<Step>>)
    requires Plain(m) && s in m && !RefersToDefinite(m, m[s])
    ensures IsSchedule(m, a) && IsSchedule(m, b)
    ensures !Alike(RunBatches(host, a, InitialState(map[])), RunBatches(host, b, InitialState(map[])))
  {
    var k :| k in m[s].args && !ArgWithin(m[s].args[k], Definite(m, m[s]));
    var x, path := OutsideName(m[s].args[k], Definite(m, m[s]));
    var orderA, orderB;
    host, orderA, orderB := ArgumentShowsOrder(m, s, x, k, path, map[]);
    a, b := Singletons(orderA), Singletons(orderB);
    OrderIsSchedule(m, orderA);
    OrderIsSchedule(m, orderB);
    SingletonsRunInOrder(host, orderA, InitialState(map[]));
    SingletonsRunInOrder(host, orderB, InitialState(map[]));
  }

  /** The order of execution is never observable exactly when every step that a step refers to is ordered with it. */
  lemma OrderNeverShowsExactlyWhen(m: map<string, Step>)
    requires Plain(m)
    ensures OrderNeverShows(m) <==> forall id :: id in m ==> RefersToDefinite(m, m[id])
  {
    if forall id :: id in m ==> RefersToDefinite(m, m[id]) {
      forall host, inputs, a, b | IsSchedule(m, a) && IsSchedule(m, b)
        ensures Alike(RunBatches(host, a, InitialState(inputs)), RunBatches(host, b, InitialState(inputs)))
      {
        ScheduleIrrelevant(host, m, a, b, inputs);
      }
    } else {
      var s :| s in m && !RefersToDefinite(m, m[s]);
      var host, a, b := IndefiniteShowsOrder(m, s);
      assert !Alike(RunBatches(host, a, InitialState(map[])), RunBatches(host, b, InitialState(map[])));
    }
  }
}
