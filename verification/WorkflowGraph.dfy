/** The step graph: level computation and parsing (argus_mcp/workflows/dsl.py). */
module WorkflowGraph {
  import opened Common
  import opened WorkflowSteps

  /** `{s.id: s for s in steps}`: a later step replaces an earlier one with the same id. */
  function StepMapOf(steps: seq<Step>): (m: map<string, Step>)
    ensures m.Keys == Ids(steps)
    ensures forall id :: id in m ==> m[id].id == id && m[id] in steps
    ensures UniqueIds(steps) ==> forall s :: s in steps ==> m[s.id] == s
  {
    if steps == [] then map[]
    else
      var n := |steps| - 1;
      var earlier := steps[..n];
      assert steps == earlier + [steps[n]];
      StepMapOf(earlier)[steps[n].id := steps[n]]
  }

  /** Of several steps with one id the last one counts. */
  lemma {:induction false} LastStepWins(steps: seq<Step>, i: nat)
    requires i < |steps| && forall j :: i < j < |steps| ==> steps[j].id != steps[i].id
    ensures steps[i].id in StepMapOf(steps) && StepMapOf(steps)[steps[i].id] == steps[i]
  {
    if i == |steps| - 1 {
    } else {
      LastStepWins(steps[..|steps| - 1], i);
    }
  }

  /** Every named dependency is itself a step. */
  ghost predicate KnownDeps(m: map<string, Step>) {
    forall id, d :: id in m && d in m[id].dependsOn ==> d in m
  }

  /** `p[0]` depends on `p[1]`, which depends on `p[2]`, and so on. */
  ghost predicate IsChain(m: map<string, Step>, p: seq<string>) {
    && |p| > 0
    && (forall i :: 0 <= i < |p| ==> p[i] in m)
    && (forall i :: 0 < i < |p| ==> p[i] in m[p[i - 1]].dependsOn)
  }

  ghost predicate IsCycle(m: map<string, Step>, p: seq<string>) {
    |p| > 1 && IsChain(m, p) && p[0] == p[|p| - 1]
  }

  ghost predicate Acyclic(m: map<string, Step>) {
    forall p :: !IsCycle(m, p)
  }

  /** A step that can never become ready: it names an unknown step or lies on a cycle. */
  ghost predicate Stuck(m: map<string, Step>, id: string)
    requires id in m
  {
    (exists d :: d in m[id].dependsOn && d !in m) || (exists c :: IsCycle(m, c) && c[0] == id)
  }

  /** A stuck step is reachable along dependencies. */
  ghost predicate Blocked(m: map<string, Step>, id: string) {
    exists p :: IsChain(m, p) && p[0] == id && Stuck(m, p[|p| - 1])
  }

  ghost function Unresolvable(m: map<string, Step>): set<string> {
    set id | id in m && Blocked(m, id)
  }

  /** The longest dependency chain below `id` has exactly `n` links. */
  ghost predicate LongestChainBelow(m: map<string, Step>, id: string, n: nat) {
    && (exists p :: IsChain(m, p) && p[0] == id && |p| == n + 1)
    && (forall p :: IsChain(m, p) && p[0] == id ==> |p| <= n + 1)
  }

  /** Each batch has fresh ids and only needs what ran in earlier batches. */
  ghost predicate Runnable(done: set<string>, batches: seq<seq<Step>>)
    decreases |batches|
  {
    batches == [] ||
    (&& UniqueIds(batches[0])
     && (forall s :: s in batches[0] ==> s.id !in done && forall d :: d in s.dependsOn ==> d in done)
     && Runnable(done + Ids(batches[0]), batches[1..]))
  }

  function AllIds(batches: seq<seq<Step>>): (ids: set<string>) {
    set b, s | b in batches && s in b :: s.id
  }

  /** The batches hold exactly the steps of `m`, each once, and every dependency sits in an earlier batch. */
  ghost predicate IsSchedule(m: map<string, Step>, batches: seq<seq<Step>>) {
    && Runnable({}, batches)
    && AllIds(batches) == m.Keys
    && (forall b, s :: b in batches && s in b ==> s.id in m && s == m[s.id])
  }

  /** A schedule without empty batches whose batch numbers are the longest dependency chains. */
  ghost predicate IsLevelling(m: map<string, Step>, levels: seq<seq<Step>>) {
    && IsSchedule(m, levels)
    && (forall k :: 0 <= k < |levels| ==> levels[k] != [])
    && (forall k, s :: 0 <= k < |levels| && s in levels[k] ==> LongestChainBelow(m, s.id, k))
  }

  // ---------------------------------------------------------------------------------------------
  // Rounds of peeling

  /** The steps completed after `k` rounds. */
  ghost function Done(m: map<string, Step>, k: nat): set<string> {
    if k == 0 then {} else Done(m, k - 1) + Ready(m, Done(m, k - 1))
  }

  ghost function Ready(m: map<string, Step>, completed: set<string>): set<string> {
    set id | id in m && forall d :: d in m[id].dependsOn ==> d in completed
  }

  lemma {:induction false} DoneIsClosed(m: map<string, Step>, k: nat, id: string)
    requires id in Done(m, k)
    ensures k > 0 && id in m
    ensures forall d :: d in m[id].dependsOn ==> d in Done(m, k - 1)
  {
    if id in Done(m, k - 1) {
      DoneIsClosed(m, k - 1, id);
      forall d | d in m[id].dependsOn ensures d in Done(m, k - 1) {
        assert d in Done(m, k - 2);
        assert Done(m, k - 2) <= Done(m, k - 1);
      }
    }
  }

  /** Chains below a step completed in `k` rounds are short. */
  lemma {:induction false} ChainsBelowDone(m: map<string, Step>, k: nat, p: seq<string>)
    requires IsChain(m, p) && p[0] in Done(m, k)
    ensures |p| <= k
  {
    DoneIsClosed(m, k, p[0]);
    if |p| > 1 {
      var q := p[1..];
      assert q[0] in m[p[0]].dependsOn;
      ChainsBelowDone(m, k - 1, q);
    }
  }

  /** A step that appears only in round `k` sits on a chain of `k` steps. */
  lemma {:induction false} ChainOfRound(m: map<string, Step>, k: nat, id: string) returns (p: seq<string>)
    requires id in Done(m, k + 1) && id !in Done(m, k)
    ensures IsChain(m, p) && p[0] == id && |p| == k + 1
  {
    DoneIsClosed(m, k + 1, id);
    if k == 0 {
      p := [id];
    } else {
      var d :| d in m[id].dependsOn && d !in Done(m, k - 1);
      var q := ChainOfRound(m, k - 1, d);
      p := [id] + q;
    }
  }

  lemma RoundIsLongestChain(m: map<string, Step>, k: nat, id: string)
    requires id in Done(m, k + 1) && id !in Done(m, k)
    ensures LongestChainBelow(m, id, k)
  {
    var p := ChainOfRound(m, k, id);
    forall q | IsChain(m, q) && q[0] == id ensures |q| <= k + 1 {
      ChainsBelowDone(m, k + 1, q);
    }
  }

  lemma {:induction false} NoCycleBelowDone(m: map<string, Step>, k: nat, c: seq<string>)
    requires IsCycle(m, c) && c[0] in Done(m, k)
    ensures false
  {
    DoneIsClosed(m, k, c[0]);
    var turned := c[1..] + [c[1]];
    assert c[1] in m[c[0]].dependsOn;
    NoCycleBelowDone(m, k - 1, turned);
  }

  lemma {:induction false} DoneIsNotBlocked(m: map<string, Step>, k: nat, p: seq<string>)
    requires IsChain(m, p) && p[0] in Done(m, k)
    ensures !Stuck(m, p[|p| - 1])
  {
    DoneIsClosed(m, k, p[0]);
    if |p| > 1 {
      assert p[1] in m[p[0]].dependsOn;
      DoneIsNotBlocked(m, k - 1, p[1..]);
    } else {
      forall d | d in m[p[0]].dependsOn ensures d in m { DoneIsClosed(m, k - 1, d); }
      forall c | IsCycle(m, c) && c[0] == p[0] ensures false { NoCycleBelowDone(m, k, c); }
    }
  }

  /** No step of `rest` has all its dependencies among the steps outside `rest`. */
  ghost predicate Jammed(m: map<string, Step>, rest: set<string>) {
    rest <= m.Keys && forall id :: id in rest ==> exists d :: d in m[id].dependsOn && d !in m.Keys - rest
  }

  /** Walking along unresolved dependencies from a jammed step runs into an unknown step or closes a cycle. */
  lemma {:induction false} WalkUntilStuck(m: map<string, Step>, rest: set<string>, walk: seq<string>)
    requires Jammed(m, rest) && IsChain(m, walk)
    requires Distinct(walk) && forall id :: id in walk ==> id in rest
    ensures Blocked(m, walk[0])
    decreases rest - set id | id in walk
  {
    var last := walk[|walk| - 1];
    assert last in rest;
    var d :| d in m[last].dependsOn && d !in m.Keys - rest;
    if d !in m {
      assert Stuck(m, last);
    } else if d in walk {
      WalkClosesCycle(m, walk, d);
    } else {
      assert (set id | id in walk + [d]) == (set id | id in walk) + {d};
      WalkUntilStuck(m, rest, walk + [d]);
    }
  }

  lemma WalkClosesCycle(m: map<string, Step>, walk: seq<string>, d: string)
    requires IsChain(m, walk) && d in walk && d in m[walk[|walk| - 1]].dependsOn
    ensures Stuck(m, walk[|walk| - 1])
  {
    var i :| 0 <= i < |walk| && walk[i] == d;
    var c := [walk[|walk| - 1]] + walk[i..];
    assert IsCycle(m, c);
  }

  lemma JammedIsBlocked(m: map<string, Step>, rest: set<string>, id: string)
    requires Jammed(m, rest) && id in rest
    ensures Blocked(m, id)
  {
    WalkUntilStuck(m, rest, [id]);
  }

  /** The graph has a blocked step exactly when it names an unknown step or has a cycle. */
  lemma BlockedExactlyWhenInvalid(m: map<string, Step>)
    ensures (forall id :: id in m ==> !Blocked(m, id)) <==> KnownDeps(m) && Acyclic(m)
  {
    if !KnownDeps(m) {
      var id, d :| id in m && d in m[id].dependsOn && d !in m;
      StuckIsBlocked(m, id);
    } else if !Acyclic(m) {
      var c :| IsCycle(m, c);
      StuckIsBlocked(m, c[0]);
    }
  }

  lemma StuckIsBlocked(m: map<string, Step>, id: string)
    requires id in m && Stuck(m, id)
    ensures Blocked(m, id)
  {
    var p := [id];
    assert IsChain(m, p) && Stuck(m, p[|p| - 1]);
  }

  // ---------------------------------------------------------------------------------------------
  // The operations

  /** One round: the remaining steps whose dependencies are all completed, in arbitrary order. */
  method NextLevel(m: map<string, Step>, remaining: set<string>, completed: set<string>)
      returns (ready: set<string>, level: seq<Step>)
    requires remaining <= m.Keys && forall id :: id in m ==> m[id].id == id
    ensures ready == remaining * Ready(m, completed)
    ensures UniqueIds(level) && Ids(level) == ready
    ensures forall s :: s in level ==> s.id in m && m[s.id] == s
  {
    ready := set sid | sid in remaining && forall d :: d in m[sid].dependsOn ==> d in completed;
    var order := ListSet(ready);
    assert forall i :: 0 <= i < |order| ==> order[i] in ready;
    level := seq(|order|, i requires 0 <= i < |order| => m[order[i]]);
    forall id ensures id in Ids(level) <==> id in ready {
      if id in ready {
        var i :| 0 <= i < |order| && order[i] == id;
        assert level[i] in level && level[i].id == id;
      }
    }
  }

  /** The peeling loop: rounds until nothing remains or nothing is ready. */
  method Peel(m: map<string, Step>) returns (levels: seq<seq<Step>>, remaining: set<string>)
    requires forall id :: id in m ==> m[id].id == id
    ensures LevelsOfRounds(m, levels)
    ensures Done(m, |levels|) + remaining == m.Keys && Done(m, |levels|) !! remaining
    ensures remaining != {} ==> Ready(m, Done(m, |levels|)) <= Done(m, |levels|)
  {
    remaining := m.Keys;
    var completed: set<string> := {};
    levels := [];
    while remaining != {}
      invariant completed == Done(m, |levels|) && completed + remaining == m.Keys && completed !! remaining
      invariant LevelsOfRounds(m, levels)
      decreases remaining
    {
      var ready, level := NextLevel(m, remaining, completed);
      assert ready == Ready(m, completed) - completed;
      if ready == {} {
        return;
      }
      NextRound(m, levels, level);
      levels := levels + [level];
      completed := completed + ready;
      remaining := remaining - ready;
    }
  }

  /** Steps grouped into levels, or the unresolvable steps. */
  method TopologicalOrder(steps: seq<Step>) returns (r: Result<seq<seq<Step>>, set<string>>)
    ensures r.Ok? <==> KnownDeps(StepMapOf(steps)) && Acyclic(StepMapOf(steps))
    ensures r.Ok? ==> IsLevelling(StepMapOf(steps), r.value)
    ensures r.Err? ==> r.error != {} && r.error == Unresolvable(StepMapOf(steps))
  {
    var m := StepMapOf(steps);
    var levels, remaining := Peel(m);
    if remaining != {} {
      assert remaining == m.Keys - Done(m, |levels|);
      StuckRound(m, |levels|);
      return Err(remaining);
    }
    assert Done(m, |levels|) == m.Keys;
    AllRoundsDone(m, levels);
    return Ok(levels);
  }

  /** The level lists the steps of round `k`. */
  ghost predicate LevelOfRound(m: map<string, Step>, k: nat, level: seq<Step>) {
    && level != [] && UniqueIds(level)
    && (forall s :: s in level ==> s.id in m && m[s.id] == s)
    && Ids(level) == Done(m, k + 1) - Done(m, k)
  }

  ghost predicate LevelsOfRounds(m: map<string, Step>, levels: seq<seq<Step>>) {
    forall k :: 0 <= k < |levels| ==> LevelOfRound(m, k, levels[k])
  }

  lemma NextRound(m: map<string, Step>, levels: seq<seq<Step>>, level: seq<Step>)
    requires LevelsOfRounds(m, levels)
    requires UniqueIds(level) && forall s :: s in level ==> s.id in m && m[s.id] == s
    requires Ids(level) == Ready(m, Done(m, |levels|)) - Done(m, |levels|) != {}
    ensures LevelsOfRounds(m, levels + [level])
    ensures Done(m, |levels| + 1) == Done(m, |levels|) + Ids(level)
  {
    var k := |levels|;
    assert Done(m, k + 1) == Done(m, k) + Ready(m, Done(m, k));
    assert LevelOfRound(m, k, level);
  }

  lemma StuckRound(m: map<string, Step>, k: nat)
    requires Done(m, k) <= m.Keys
    requires m.Keys - Done(m, k) != {}
    requires Ready(m, Done(m, k)) <= Done(m, k)
    ensures m.Keys - Done(m, k) == Unresolvable(m)
    ensures !(KnownDeps(m) && Acyclic(m))
  {
    BlockedExactlyWhenInvalid(m);
    var rest := m.Keys - Done(m, k);
    assert m.Keys - rest == Done(m, k);
    forall id | id in m ensures id in rest <==> Blocked(m, id) {
      if id in rest {
        JammedIsBlocked(m, rest, id);
      } else {
        forall p | IsChain(m, p) && p[0] == id ensures !Stuck(m, p[|p| - 1]) { DoneIsNotBlocked(m, k, p); }
      }
    }
  }

  /** Levels taken round by round are a schedule from any round on. */
  lemma {:induction false} RoundsAreRunnable(m: map<string, Step>, levels: seq<seq<Step>>, k: nat)
    requires LevelsOfRounds(m, levels) && k <= |levels|
    ensures Runnable(Done(m, k), levels[k..])
    decreases |levels| - k
  {
    if k < |levels| {
      var tail := levels[k..];
      forall s: Step | s in tail[0] ensures s.id !in Done(m, k) && forall d :: d in s.dependsOn ==> d in Done(m, k) {
        assert s.id in Ids(levels[k]);
        DoneIsClosed(m, k + 1, s.id);
      }
      assert Done(m, k) + Ids(tail[0]) == Done(m, k + 1);
      assert tail[1..] == levels[k + 1..];
      RoundsAreRunnable(m, levels, k + 1);
    }
  }

  lemma {:induction false} RoundsCover(m: map<string, Step>, levels: seq<seq<Step>>)
    requires LevelsOfRounds(m, levels)
    ensures AllIds(levels) == Done(m, |levels|)
  {
    if levels == [] {
    } else {
      var k := |levels| - 1;
      var earlier, last := levels[..k], levels[k];
      assert LevelOfRound(m, k, last);
      assert LevelsOfRounds(m, earlier) by {
        forall j | 0 <= j < k ensures LevelOfRound(m, j, earlier[j]) { assert LevelOfRound(m, j, levels[j]); }
      }
      RoundsCover(m, earlier);
      AllIdsGrow(earlier, last);
      assert levels == earlier + [last];
      DoneGrows(m, k);
    }
  }

  lemma DoneGrows(m: map<string, Step>, k: nat)
    ensures Done(m, k) <= Done(m, k + 1)
  {
  }

  lemma AllIdsGrow(batches: seq<seq<Step>>, b: seq<Step>)
    ensures AllIds(batches + [b]) == AllIds(batches) + Ids(b)
  {
    var more := batches + [b];
    assert forall c :: c in more <==> c in batches || c == b;
  }

  lemma RoundsAreASchedule(m: map<string, Step>, levels: seq<seq<Step>>)
    requires LevelsOfRounds(m, levels) && Done(m, |levels|) == m.Keys
    ensures IsSchedule(m, levels)
  {
    RoundsAreRunnable(m, levels, 0);
    assert levels[0..] == levels && Done(m, 0) == {};
    RoundsCover(m, levels);
    forall b, s | b in levels && s in b ensures s.id in m && s == m[s.id] {
      var k :| 0 <= k < |levels| && levels[k] == b;
      assert LevelOfRound(m, k, levels[k]);
    }
  }

  lemma RoundsAreLongestChains(m: map<string, Step>, levels: seq<seq<Step>>)
    requires LevelsOfRounds(m, levels)
    ensures forall k, s :: 0 <= k < |levels| && s in levels[k] ==> LongestChainBelow(m, s.id, k)
  {
    forall k, s | 0 <= k < |levels| && s in levels[k] ensures LongestChainBelow(m, s.id, k) {
      assert LevelOfRound(m, k, levels[k]);
      assert s.id in Ids(levels[k]);
      RoundIsLongestChain(m, k, s.id);
    }
  }

  lemma AllDoneIsValid(m: map<string, Step>, k: nat)
    requires Done(m, k) == m.Keys
    ensures KnownDeps(m) && Acyclic(m)
  {
    forall id | id in m ensures !Blocked(m, id) {
      forall p | IsChain(m, p) && p[0] == id ensures !Stuck(m, p[|p| - 1]) { DoneIsNotBlocked(m, k, p); }
    }
    BlockedExactlyWhenInvalid(m);
  }

  lemma AllRoundsDone(m: map<string, Step>, levels: seq<seq<Step>>)
    requires LevelsOfRounds(m, levels) && Done(m, |levels|) == m.Keys
    ensures IsLevelling(m, levels) && KnownDeps(m) && Acyclic(m)
  {
    RoundsAreASchedule(m, levels);
    RoundsAreLongestChains(m, levels);
    AllDoneIsValid(m, |levels|);
    forall k | 0 <= k < |levels| ensures levels[k] != [] { assert LevelOfRound(m, k, levels[k]); }
  }

  // ---------------------------------------------------------------------------------------------
  // Levels are as early and as few as any schedule allows

  lemma {:induction false} EarlierBatches(done: set<string>, batches: seq<seq<Step>>, j: nat, s: Step, d: string)
    requires Runnable(done, batches) && j < |batches| && s in batches[j] && d in s.dependsOn
    ensures d in done || exists i :: 0 <= i < j && d in Ids(batches[i])
    decreases j
  {
    if j == 0 {
    } else {
      EarlierBatches(done + Ids(batches[0]), batches[1..], j - 1, s, d);
      if d !in done + Ids(batches[0]) {
        var i :| 0 <= i < j - 1 && d in Ids(batches[1..][i]);
        assert d in Ids(batches[i + 1]);
      }
    }
  }

  /** In any schedule the top of a chain of `|p|` steps runs in batch `|p| - 1` or later. */
  lemma {:induction false} ChainNeedsBatches(m: map<string, Step>, batches: seq<seq<Step>>, p: seq<string>, j: nat)
    requires IsSchedule(m, batches) && IsChain(m, p)
    requires j < |batches| && p[0] in Ids(batches[j])
    ensures |p| <= j + 1
    decreases |p|
  {
    if |p| > 1 {
      var s :| s in batches[j] && s.id == p[0];
      assert batches[j] in batches && s == m[p[0]];
      assert p[1] in s.dependsOn;
      EarlierBatches({}, batches, j, s, p[1]);
      var i :| 0 <= i < j && p[1] in Ids(batches[i]);
      ChainNeedsBatches(m, batches, p[1..], i);
    }
  }

  /** No schedule of the same steps runs a step in an earlier batch than its level, or uses fewer batches. */
  lemma LevelsAreEarliest(m: map<string, Step>, levels: seq<seq<Step>>, batches: seq<seq<Step>>)
    requires IsLevelling(m, levels) && IsSchedule(m, batches)
    ensures forall k, j, s :: 0 <= k < |levels| && 0 <= j < |batches| && s in levels[k] && s in batches[j] ==> k <= j
    ensures |levels| <= |batches|
  {
    forall k, j, s | 0 <= k < |levels| && 0 <= j < |batches| && s in levels[k] && s in batches[j] ensures k <= j {
      LevelIsEarliest(m, levels, batches, k, j, s);
    }
    if levels != [] {
      var k := |levels| - 1;
      var j := BatchOf(m, levels, batches, k);
      LevelIsEarliest(m, levels, batches, k, j, levels[k][0]);
    }
  }

  lemma BatchOf(m: map<string, Step>, levels: seq<seq<Step>>, batches: seq<seq<Step>>, k: nat) returns (j: nat)
    requires IsSchedule(m, levels) && IsSchedule(m, batches) && k < |levels| && levels[k] != []
    ensures j < |batches| && levels[k][0] in batches[j]
  {
    var s := levels[k][0];
    assert levels[k] in levels && s in levels[k];
    assert s.id in AllIds(batches);
    var b, s' :| b in batches && s' in b && s'.id == s.id;
    j :| 0 <= j < |batches| && batches[j] == b;
  }

  lemma LevelIsEarliest(
    m: map<string, Step>, levels: seq<seq<Step>>, batches: seq<seq<Step>>, k: nat, j: nat, s: Step)
    requires IsLevelling(m, levels) && IsSchedule(m, batches)
    requires k < |levels| && j < |batches| && s in levels[k] && s in batches[j]
    ensures k <= j
  {
    assert LongestChainBelow(m, s.id, k);
    var p :| IsChain(m, p) && p[0] == s.id && |p| == k + 1;
    ChainNeedsBatches(m, batches, p, j);
  }

  // ---------------------------------------------------------------------------------------------
  // Parsing

  /** A step as it appears in the document; absent keys are `None`. */
  datatype RawStep = RawStep(
    id: Option<string>,
    tool: Option<string>,
    args: Option<map<string, Arg>>,
    dependsOn: Option<seq<string>>,
    condition: Option<Condition>,
    retry: Option<int>,
    onError: Option<string>)

  datatype RawWorkflow = RawWorkflow(name: Option<string>, steps: seq<RawStep>)

  datatype WorkflowDefinition = WorkflowDefinition(name: string, steps: seq<Step>)

  datatype ParseError =
    | MissingName
    | NoSteps
    | MissingId(at: nat)
    | DuplicateId(id: string)
    | UnknownDependency(id: string, dep: string)
    | CycleDetected(unresolvable: set<string>)

  function Default<T>(o: Option<T>, d: T): T {
    if o.Some? then o.value else d
  }

  function FromDict(raw: RawStep): Step
    requires raw.id.Some?
  {
    Step(raw.id.value, Default(raw.tool, ""), Default(raw.args, map[]), Default(raw.dependsOn, []),
         Default(raw.condition, NoCondition), Default(raw.retry, 0), Default(raw.onError, "fail"))
  }

  predicate HasIds(raw: seq<RawStep>) {
    forall i :: 0 <= i < |raw| ==> raw[i].id.Some?
  }

  function FromDicts(raw: seq<RawStep>): (steps: seq<Step>)
    requires HasIds(raw)
  {
    seq(|raw|, i requires 0 <= i < |raw| => FromDict(raw[i]))
  }

  predicate Named(data: RawWorkflow) {
    data.name.Some? && data.name.value != ""
  }

  /** The step is what the entry says, with defaults for absent keys. */
  ghost predicate ParsedFrom(s: Step, raw: RawStep) {
    && raw.id == Some(s.id)
    && (if raw.tool.Some? then raw.tool.value == s.tool else s.tool == "")
    && (if raw.args.Some? then raw.args.value == s.args else s.args == map[])
    && (if raw.dependsOn.Some? then raw.dependsOn.value == s.dependsOn else s.dependsOn == [])
    && (if raw.condition.Some? then raw.condition.value == s.condition else s.condition == NoCondition)
    && (if raw.retry.Some? then raw.retry.value == s.retry else s.retry == 0)
    && (if raw.onError.Some? then raw.onError.value == s.onError else s.onError == "fail")
  }

  ghost predicate RawUnique(raw: seq<RawStep>) {
    forall i, j :: 0 <= i < j < |raw| ==> raw[i].id != raw[j].id
  }

  /** The document has a step of this id. */
  ghost predicate Declares(raw: seq<RawStep>, id: string) {
    exists i :: 0 <= i < |raw| && raw[i].id == Some(id)
  }

  /** The document has a step of this id that names the dependency. */
  ghost predicate DeclaresDependency(raw: seq<RawStep>, id: string, d: string) {
    exists i :: 0 <= i < |raw| && raw[i].id == Some(id) && raw[i].dependsOn.Some? && d in raw[i].dependsOn.value
  }

  /** Each id names the next one as a dependency, and the last is the first. */
  ghost predicate RawCycle(raw: seq<RawStep>, p: seq<string>) {
    |p| > 1 && p[0] == p[|p| - 1] && forall i :: 0 < i < |p| ==> DeclaresDependency(raw, p[i - 1], p[i])
  }

  /** What a document must satisfy to describe a workflow. */
  ghost predicate IsWorkflow(data: RawWorkflow) {
    && data.name != None && data.name != Some("")
    && data.steps != [] && HasIds(data.steps) && RawUnique(data.steps)
    && (forall id, d :: DeclaresDependency(data.steps, id, d) ==> Declares(data.steps, d))
    && (forall p :: !RawCycle(data.steps, p))
  }

  /** The same, said of the steps and their graph. */
  ghost predicate BuildsWorkflow(data: RawWorkflow) {
    && Named(data) && data.steps != [] && HasIds(data.steps) && UniqueIds(FromDicts(data.steps))
    && KnownDeps(StepMapOf(FromDicts(data.steps))) && Acyclic(StepMapOf(FromDicts(data.steps)))
  }

  lemma GraphOfDocument(raw: seq<RawStep>)
    requires HasIds(raw) && UniqueIds(FromDicts(raw))
    ensures var m := StepMapOf(FromDicts(raw));
            && (forall id :: id in m <==> Declares(raw, id))
            && (forall id, d :: (id in m && d in m[id].dependsOn) <==> DeclaresDependency(raw, id, d))
  {
    var m := StepMapOf(FromDicts(raw));
    forall id ensures id in m <==> Declares(raw, id) {
      if id in m { var i := EntryOfStep(raw, id); }
      if Declares(raw, id) {
        var i :| 0 <= i < |raw| && raw[i].id == Some(id);
        StepOfEntry(raw, i);
      }
    }
    forall id, d ensures (id in m && d in m[id].dependsOn) <==> DeclaresDependency(raw, id, d) {
      if id in m && d in m[id].dependsOn { var i := EntryOfStep(raw, id); }
      if DeclaresDependency(raw, id, d) {
        var i :| 0 <= i < |raw| && raw[i].id == Some(id) && raw[i].dependsOn.Some? && d in raw[i].dependsOn.value;
        StepOfEntry(raw, i);
      }
    }
  }

  lemma StepOfEntry(raw: seq<RawStep>, i: nat)
    requires HasIds(raw) && UniqueIds(FromDicts(raw)) && i < |raw|
    ensures var m := StepMapOf(FromDicts(raw)); raw[i].id.value in m && m[raw[i].id.value] == FromDict(raw[i])
  {
    var steps := FromDicts(raw);
    assert steps[i] in steps && steps[i] == FromDict(raw[i]);
  }

  lemma EntryOfStep(raw: seq<RawStep>, id: string) returns (i: nat)
    requires HasIds(raw) && id in StepMapOf(FromDicts(raw))
    ensures i < |raw| && raw[i].id == Some(id) && StepMapOf(FromDicts(raw))[id] == FromDict(raw[i])
  {
    var steps := FromDicts(raw);
    i :| 0 <= i < |steps| && steps[i] == StepMapOf(steps)[id];
    assert steps[i] == FromDict(raw[i]);
  }

  lemma UniqueInDocument(raw: seq<RawStep>)
    requires HasIds(raw)
    ensures RawUnique(raw) <==> UniqueIds(FromDicts(raw))
  {
    var steps := FromDicts(raw);
    assert forall i :: 0 <= i < |raw| ==> raw[i].id == Some(steps[i].id);
  }

  lemma CyclesOfDocument(raw: seq<RawStep>)
    requires HasIds(raw) && UniqueIds(FromDicts(raw))
    ensures Acyclic(StepMapOf(FromDicts(raw))) <==> forall p :: !RawCycle(raw, p)
  {
    var m := StepMapOf(FromDicts(raw));
    GraphOfDocument(raw);
    forall p ensures IsCycle(m, p) <==> RawCycle(raw, p) {
      if RawCycle(raw, p) {
        forall i | 0 <= i < |p| ensures p[i] in m {
          assert DeclaresDependency(raw, p[if i == 0 then 0 else i - 1], p[if i == 0 then 1 else i]);
          if i == |p| - 1 {
            assert DeclaresDependency(raw, p[0], p[1]);
          } else {
            assert DeclaresDependency(raw, p[i], p[i + 1]);
          }
        }
      }
    }
  }

  lemma WorkflowExactlyWhen(data: RawWorkflow)
    ensures IsWorkflow(data) <==> BuildsWorkflow(data)
  {
    if HasIds(data.steps) {
      var steps := FromDicts(data.steps);
      UniqueInDocument(data.steps);
      if UniqueIds(steps) {
        GraphOfDocument(data.steps);
        CyclesOfDocument(data.steps);
      }
    }
  }

  /** The error reported is a defect of the document, and the checks that come before it have passed. */
  ghost predicate IsDefect(data: RawWorkflow, e: ParseError) {
    match e
    case MissingName => data.name == None || data.name == Some("")
    case NoSteps => Named(data) && data.steps == []
    case MissingId(at) =>
      && Named(data) && at < |data.steps| && data.steps[at].id.None?
      && HasIds(data.steps[..at]) && UniqueIds(FromDicts(data.steps[..at]))
    case DuplicateId(id) =>
      && Named(data)
      && exists i, j :: 0 <= i < j < |data.steps| && data.steps[i].id == data.steps[j].id == Some(id)
                     && HasIds(data.steps[..j]) && UniqueIds(FromDicts(data.steps[..j]))
    case UnknownDependency(id, dep) =>
      && Named(data) && data.steps != [] && HasIds(data.steps) && UniqueIds(FromDicts(data.steps))
      && var m := StepMapOf(FromDicts(data.steps)); id in m && dep in m[id].dependsOn && dep !in m
    case CycleDetected(unresolvable) =>
      && Named(data) && data.steps != [] && HasIds(data.steps) && UniqueIds(FromDicts(data.steps))
      && var m := StepMapOf(FromDicts(data.steps));
         KnownDeps(m) && !Acyclic(m) && unresolvable == Unresolvable(m)
  }

  /** The first loop: ids present and unique. */
  method ReadSteps(raw: seq<RawStep>) returns (r: Result<seq<Step>, (nat, bool)>)
    ensures r.Ok? <==> HasIds(raw) && UniqueIds(FromDicts(raw))
    ensures r.Ok? ==> r.value == FromDicts(raw)
    ensures r.Err? ==> r.error.0 < |raw| && HasIds(raw[..r.error.0]) && UniqueIds(FromDicts(raw[..r.error.0]))
    ensures r.Err? && !r.error.1 ==> raw[r.error.0].id.None?
    ensures r.Err? && r.error.1 ==>
            raw[r.error.0].id.Some? && exists i :: 0 <= i < r.error.0 && raw[i].id == raw[r.error.0].id
  {
    var steps: seq<Step> := [];
    var seenIds: set<string> := {};
    for n := 0 to |raw|
      invariant HasIds(raw[..n]) && steps == FromDicts(raw[..n]) && UniqueIds(steps)
      invariant forall id :: id in seenIds <==> exists i :: 0 <= i < n && raw[i].id == Some(id)
    {
      if raw[n].id.None? {
        assert !HasIds(raw);
        return Err((n, false));
      }
      var step := FromDict(raw[n]);
      if step.id in seenIds {
        var i :| 0 <= i < n && raw[i].id == Some(step.id);
        assert HasIds(raw) ==> FromDicts(raw)[i].id == FromDicts(raw)[n].id;
        return Err((n, true));
      }
      assert raw[..n + 1] == raw[..n] + [raw[n]];
      assert raw[n].id == Some(step.id);
      seenIds := seenIds + {step.id};
      steps := steps + [step];
    }
    assert raw[..|raw|] == raw;
    return Ok(steps);
  }

  /** Dependency `k` of step `i` names no step, and all dependencies before it do. */
  ghost predicate FirstUnknown(steps: seq<Step>, i: int, k: int) {
    && 0 <= i < |steps| && 0 <= k < |steps[i].dependsOn| && steps[i].dependsOn[k] !in Ids(steps)
    && (forall d :: d in steps[i].dependsOn[..k] ==> d in Ids(steps))
    && (forall s, d :: s in steps[..i] && d in s.dependsOn ==> d in Ids(steps))
  }

  /** The second loop: the first dependency that names no step, if any. */
  method FindUnknown(steps: seq<Step>) returns (r: Option<(string, string)>)
    ensures r.None? ==> forall s, d :: s in steps && d in s.dependsOn ==> d in Ids(steps)
    ensures r.Some? ==>
            exists s :: s in steps && s.id == r.value.0 && r.value.1 in s.dependsOn && r.value.1 !in Ids(steps)
    ensures r.Some? ==> exists i, k :: FirstUnknown(steps, i, k) && r.value == (steps[i].id, steps[i].dependsOn[k])
  {
    var seenIds := Ids(steps);
    for n := 0 to |steps|
      invariant forall s, d :: s in steps[..n] && d in s.dependsOn ==> d in seenIds
    {
      for k := 0 to |steps[n].dependsOn|
        invariant forall d :: d in steps[n].dependsOn[..k] ==> d in seenIds
      {
        if steps[n].dependsOn[k] !in seenIds {
          assert FirstUnknown(steps, n, k);
          return Some((steps[n].id, steps[n].dependsOn[k]));
        }
      }
    }
    return None;
  }

  method ParseWorkflow(data: RawWorkflow) returns (r: Result<WorkflowDefinition, ParseError>)
    ensures r.Ok? <==> IsWorkflow(data)
    ensures r.Ok? ==> r.value.name == data.name.value && |r.value.steps| == |data.steps|
    ensures r.Ok? ==> forall i :: 0 <= i < |data.steps| ==> ParsedFrom(r.value.steps[i], data.steps[i])
    ensures r.Ok? ==> KnownDeps(StepMapOf(r.value.steps)) && Acyclic(StepMapOf(r.value.steps))
    ensures r.Err? ==> IsDefect(data, r.error)
  {
    WorkflowExactlyWhen(data);
    r := BuildWorkflow(data);
  }

  /** The checks in order, said of the steps as they are built. */
  method BuildWorkflow(data: RawWorkflow) returns (r: Result<WorkflowDefinition, ParseError>)
    ensures r.Ok? <==> BuildsWorkflow(data)
    ensures r.Ok? ==> r.value == WorkflowDefinition(data.name.value, FromDicts(data.steps))
    ensures r.Err? ==> IsDefect(data, r.error)
  {
    if !Named(data) {
      return Err(MissingName);
    }
    if data.steps == [] {
      return Err(NoSteps);
    }
    var read := ReadSteps(data.steps);
    if read.Err? {
      var at := read.error.0;
      return Err(if read.error.1 then DuplicateId(data.steps[at].id.value) else MissingId(at));
    }
    var steps := read.value;
    var unknown := FindUnknown(steps);
    if unknown.Some? {
      var (id, dep) := unknown.value;
      assert id in StepMapOf(steps) && dep in StepMapOf(steps)[id].dependsOn && dep !in StepMapOf(steps);
      return Err(UnknownDependency(id, dep));
    }
    assert KnownDeps(StepMapOf(steps));
    var levels := TopologicalOrder(steps);
    if levels.Err? {
      return Err(CycleDetected(levels.error));
    }
    return Ok(WorkflowDefinition(data.name.value, steps));
  }
}
