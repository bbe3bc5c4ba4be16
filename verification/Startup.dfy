/** Backend startup with retries (argus_mcp/bridge/startup_coordinator.py). */
module Startup {
  import opened Common

  /** `retries` of each backend, `BACKEND_RETRIES` when not configured. */
  type Budgets = map<string, int>

  const BACKEND_RETRIES := 3

  function RetriesOf(budgets: Budgets, name: string): int {
    if name in budgets then budgets[name] else BACKEND_RETRIES
  }

  /** The world: is there a session for the backend after this round, and is shutdown requested before it?
      Round 0 is the first pass. */
  datatype World = World(up: (string, nat) -> bool, shutdown: nat -> bool)

  /** The names without a session after the round, in order. */
  function StillDown(w: World, names: seq<string>, round: nat): (down: seq<string>)
    ensures forall n :: n in down <==> n in names && !w.up(n, round)
    ensures |down| <= |names|
  {
    if names == [] then []
    else (if w.up(names[0], round) then [] else [names[0]]) + StillDown(w, names[1..], round)
  }

  /** The names that have never had a session after rounds 1 to `round`. */
  function DownThrough(w: World, names: seq<string>, round: nat): seq<string> {
    if round == 0 then names else StillDown(w, DownThrough(w, names, round - 1), round)
  }

  /** Names keep their order in the failed list. */
  lemma {:induction false} StillDownInOrder(w: World, a: seq<string>, b: seq<string>, round: nat)
    ensures StillDown(w, a + b, round) == StillDown(w, a, round) + StillDown(w, b, round)
  {
    if a == [] {
      assert a + b == b;
    } else {
      assert (a + b)[1..] == a[1..] + b;
      StillDownInOrder(w, a[1..], b, round);
    }
  }

  /** Did the backend stay without a session through all rounds before `round`? */
  ghost predicate DownBefore(w: World, name: string, round: nat) {
    forall q :: 1 <= q < round ==> !w.up(name, q)
  }

  /** How often the backend is started in rounds 1 to `round`: in each round within its budget while it is down. */
  ghost function Starts(w: World, budgets: Budgets, name: string, round: nat): nat {
    if round == 0 then 0
    else
      var earlier := Starts(w, budgets, name, round - 1);
      if round <= RetriesOf(budgets, name) && DownBefore(w, name, round) then earlier + 1 else earlier
  }

  lemma {:induction false} DownMeansDown(w: World, names: seq<string>, round: nat, name: string)
    ensures name in DownThrough(w, names, round) <==> name in names && DownBefore(w, name, round + 1)
  {
    if round == 0 {
    } else {
      DownMeansDown(w, names, round - 1, name);
      assert DownBefore(w, name, round + 1) <==> DownBefore(w, name, round) && !w.up(name, round);
    }
  }

  /** A backend is never started more often than its own retry budget. */
  lemma {:induction false} StartsWithinBudget(w: World, budgets: Budgets, name: string, round: nat)
    ensures Starts(w, budgets, name, round) <= if RetriesOf(budgets, name) > 0 then RetriesOf(budgets, name) else 0
    ensures Starts(w, budgets, name, round) <= round
  {
    if round == 0 {
    } else {
      StartsWithinBudget(w, budgets, name, round - 1);
    }
  }

  /** A backend that stays down uses its whole budget, as far as the rounds go. */
  lemma {:induction false} DownUsesBudget(w: World, budgets: Budgets, name: string, round: nat)
    requires DownBefore(w, name, round)
    ensures var budget := RetriesOf(budgets, name);
            Starts(w, budgets, name, round) == if budget <= 0 then 0 else if budget < round then budget else round
  {
    if round == 0 {
    } else {
      DownUsesBudget(w, budgets, name, round - 1);
    }
  }

  /** Once a backend has a session it is not started again. */
  lemma {:induction false} NoStartsAfterUp(w: World, budgets: Budgets, name: string, q: nat, round: nat)
    requires 1 <= q <= round && w.up(name, q)
    ensures Starts(w, budgets, name, round) == Starts(w, budgets, name, q)
    decreases round
  {
    if q < round { NoStartsAfterUp(w, budgets, name, q, round - 1); }
  }

  /** The failed list only ever shrinks. */
  lemma {:induction false} FailedOnlyShrinks(w: World, names: seq<string>, q: nat, round: nat)
    requires q <= round
    ensures forall n :: n in DownThrough(w, names, round) ==> n in DownThrough(w, names, q)
    ensures |DownThrough(w, names, round)| <= |DownThrough(w, names, q)|
    decreases round
  {
    if q < round { FailedOnlyShrinks(w, names, q, round - 1); }
  }

  /** One retry round: every failed backend whose budget covers the attempt is started once. */
  method LaunchRetryTasks(failed: seq<string>, budgets: Budgets, attempt: nat, counts: map<string, nat>)
      returns (after: map<string, nat>)
    requires Distinct(failed) && forall n :: n in failed ==> n in counts
    ensures after.Keys == counts.Keys
    ensures forall n :: n in counts ==>
              after[n] == counts[n] + if n in failed && attempt <= RetriesOf(budgets, n) then 1 else 0
  {
    after := counts;
    for i := 0 to |failed|
      invariant after.Keys == counts.Keys
      invariant forall n :: n in counts ==>
                  after[n] == counts[n] + if n in failed[..i] && attempt <= RetriesOf(budgets, n) then 1 else 0
    {
      assert failed[i] !in failed[..i];
      assert failed[..i + 1] == failed[..i] + [failed[i]];
      if attempt > RetriesOf(budgets, failed[i]) {
        continue;
      }
      after := after[failed[i] := after[failed[i]] + 1];
    }
    assert failed[..|failed|] == failed;
  }

  /** The largest budget among the failed backends. */
  method LargestBudget(failed: seq<string>, budgets: Budgets) returns (most: int)
    requires failed != []
    ensures exists n :: n in failed && most == RetriesOf(budgets, n)
    ensures forall n :: n in failed ==> RetriesOf(budgets, n) <= most
  {
    most := RetriesOf(budgets, failed[0]);
    for i := 1 to |failed|
      invariant exists n :: n in failed && most == RetriesOf(budgets, n)
      invariant forall j :: 0 <= j < i ==> RetriesOf(budgets, failed[j]) <= most
    {
      if RetriesOf(budgets, failed[i]) > most {
        most := RetriesOf(budgets, failed[i]);
      }
    }
  }

  lemma {:induction false} DownKeepsDistinct(w: World, names: seq<string>, round: nat)
    requires Distinct(names)
    ensures Distinct(StillDown(w, names, round))
  {
    if names == [] {
    } else {
      DownKeepsDistinct(w, names[1..], round);
      assert names[0] !in names[1..];
    }
  }

  /** What one more round adds to the starts of a failed backend. */
  lemma RoundStarts(w: World, budgets: Budgets, failed: seq<string>, rounds: nat)
    ensures forall n :: n in DownThrough(w, failed, rounds) ==> n in failed
    ensures forall n :: n in failed ==>
              Starts(w, budgets, n, rounds + 1) == Starts(w, budgets, n, rounds) +
                (if n in DownThrough(w, failed, rounds) && rounds + 1 <= RetriesOf(budgets, n) then 1 else 0)
  {
    forall n ensures n in DownThrough(w, failed, rounds) <==> n in failed && DownBefore(w, n, rounds + 1) {
      DownMeansDown(w, failed, rounds, n);
    }
  }

  /** Each failed backend was started as often as `Starts` says, on top of what came before. */
  ghost predicate Tallied(
    w: World, budgets: Budgets, failed: seq<string>, rounds: nat, before: map<string, nat>, counts: map<string, nat>)
    requires counts.Keys == before.Keys
  {
    forall n :: n in before ==> counts[n] == before[n] + if n in failed then Starts(w, budgets, n, rounds) else 0
  }

  lemma TallyRound(
    w: World, budgets: Budgets, failed: seq<string>, rounds: nat, counts0: map<string, nat>, a: map<string, nat>,
    b: map<string, nat>)
    requires a.Keys == b.Keys == counts0.Keys && Tallied(w, budgets, failed, rounds, counts0, a)
    requires forall n :: n in a ==>
               var started := n in DownThrough(w, failed, rounds) && rounds + 1 <= RetriesOf(budgets, n);
               b[n] == a[n] + if started then 1 else 0
    ensures Tallied(w, budgets, failed, rounds + 1, counts0, b)
  {
    RoundStarts(w, budgets, failed, rounds);
  }

  /** The retry loop; `counts` is how often each backend was started, before and after. */
  method RetryFailedBackends(failed: seq<string>, budgets: Budgets, w: World, counts0: map<string, nat>)
      returns (counts: map<string, nat>, remaining: seq<string>, rounds: nat)
    requires failed != [] && Distinct(failed) && forall n :: n in failed ==> n in counts0
    ensures counts.Keys == counts0.Keys && Tallied(w, budgets, failed, rounds, counts0, counts)
    ensures remaining == DownThrough(w, failed, rounds)
    ensures remaining != [] && !w.shutdown(rounds + 1) ==> forall n :: n in failed ==> RetriesOf(budgets, n) <= rounds
  {
    counts, remaining, rounds := counts0, failed, 0;
    var most := LargestBudget(failed, budgets);
    while rounds < most
      invariant counts.Keys == counts0.Keys
      invariant remaining == DownThrough(w, failed, rounds) && Distinct(remaining)
      invariant Tallied(w, budgets, failed, rounds, counts0, counts)
      decreases most - rounds
    {
      if remaining == [] || w.shutdown(rounds + 1) {
        return;
      }
      RoundStarts(w, budgets, failed, rounds);
      ghost var before := counts;
      counts := LaunchRetryTasks(remaining, budgets, rounds + 1, counts);
      TallyRound(w, budgets, failed, rounds, counts0, before, counts);
      DownKeepsDistinct(w, remaining, rounds + 1);
      rounds := rounds + 1;
      remaining := StillDown(w, remaining, rounds);
    }
  }

  // ---------------------------------------------------------------------------------------------
  // The first pass

  datatype Backend = Backend(name: string, kind: Option<string>)

  function TypePriority(b: Backend): nat {
    if b.kind == Some("streamable-http") then 0 else if b.kind == Some("sse") then 1 else 2
  }

  function Filter<T(!new)>(items: seq<T>, p: T -> bool): (kept: seq<T>)
    ensures forall x :: x in kept <==> x in items && p(x)
  {
    if items == [] then [] else (if p(items[0]) then [items[0]] else []) + Filter(items[1..], p)
  }

  predicate IsHttp(b: Backend) { TypePriority(b) == 0 }

  predicate IsSse(b: Backend) { TypePriority(b) == 1 }

  predicate IsLast(b: Backend) { TypePriority(b) == 2 }

  /** Only a backend whose type is spelled "stdio" is one; a backend without a type counts as remote. */
  predicate IsStdio(b: Backend) { b.kind == Some("stdio") }

  predicate IsRemote(b: Backend) { b.kind != Some("stdio") }

  /** The stable sort by priority, which has three values. */
  function Sorted(items: seq<Backend>): seq<Backend> {
    Filter(items, IsHttp) + Filter(items, IsSse) + Filter(items, IsLast)
  }

  function Remote(items: seq<Backend>): seq<Backend> {
    Filter(Sorted(items), IsRemote)
  }

  function Stdio(items: seq<Backend>): seq<Backend> {
    Filter(Sorted(items), IsStdio)
  }

  ghost predicate UniqueNames(items: seq<Backend>) {
    forall i, j :: 0 <= i < j < |items| ==> items[i].name != items[j].name
  }

  function Names(items: seq<Backend>): (names: seq<string>)
    ensures |names| == |items| && forall i :: 0 <= i < |items| ==> names[i] == items[i].name
  {
    seq(|items|, i requires 0 <= i < |items| => items[i].name)
  }

  lemma {:induction false} FilterUnique(items: seq<Backend>, p: Backend -> bool)
    requires UniqueNames(items)
    ensures UniqueNames(Filter(items, p))
  {
    if items == [] {
    } else {
      FilterUnique(items[1..], p);
      forall b | b in Filter(items[1..], p) ensures b.name != items[0].name {
        var i :| 0 <= i < |items[1..]| && items[1..][i] == b;
        assert items[i + 1] == b;
      }
    }
  }

  lemma NamesDiffer(items: seq<Backend>, x: Backend, y: Backend)
    requires UniqueNames(items) && x in items && y in items && x != y
    ensures x.name != y.name
  {
    var i :| 0 <= i < |items| && items[i] == x;
    var j :| 0 <= j < |items| && items[j] == y;
    assert i < j || j < i;
  }

  lemma JoinUnique(items: seq<Backend>, a: seq<Backend>, b: seq<Backend>)
    requires UniqueNames(items) && UniqueNames(a) && UniqueNames(b)
    requires (forall x :: x in a ==> x in items) && (forall x :: x in b ==> x in items && x !in a)
    ensures UniqueNames(a + b)
  {
    forall i, j | 0 <= i < |a| && 0 <= j < |b| ensures a[i].name != b[j].name {
      assert a[i] in a && b[j] in b;
      NamesDiffer(items, a[i], b[j]);
    }
  }

  /** Sorting and splitting loses no backend and doubles none. */
  lemma EveryBackendOnce(items: seq<Backend>)
    requires UniqueNames(items)
    ensures UniqueNames(Remote(items) + Stdio(items))
    ensures forall b :: b in Remote(items) + Stdio(items) <==> b in items
  {
    FilterUnique(items, IsHttp);
    FilterUnique(items, IsSse);
    FilterUnique(items, IsLast);
    JoinUnique(items, Filter(items, IsHttp), Filter(items, IsSse));
    JoinUnique(items, Filter(items, IsHttp) + Filter(items, IsSse), Filter(items, IsLast));
    FilterUnique(Sorted(items), IsRemote);
    FilterUnique(Sorted(items), IsStdio);
    JoinUnique(items, Remote(items), Stdio(items));
  }

  /** Faster transports come first. */
  lemma SortedByPriority(items: seq<Backend>)
    ensures forall i, j :: 0 <= i < j < |Sorted(items)| ==>
            TypePriority(Sorted(items)[i]) <= TypePriority(Sorted(items)[j])
  {
    var a, b, c := Filter(items, IsHttp), Filter(items, IsSse), Filter(items, IsLast);
    assert forall i :: 0 <= i < |a| ==> a[i] in a;
    assert forall i :: 0 <= i < |b| ==> b[i] in b;
    assert forall i :: 0 <= i < |c| ==> c[i] in c;
  }

  /** The same in the words of the configuration, and which backends count as stdio. */
  lemma TransportsInOrder(items: seq<Backend>)
    ensures forall i, j :: 0 <= i < j < |Sorted(items)| && Sorted(items)[j].kind == Some("streamable-http") ==>
              Sorted(items)[i].kind == Some("streamable-http")
    ensures forall i, j :: 0 <= i < j < |Sorted(items)| && Sorted(items)[j].kind == Some("sse") ==>
              Sorted(items)[i].kind == Some("streamable-http") || Sorted(items)[i].kind == Some("sse")
    ensures forall b :: b in Stdio(items) <==> b in items && b.kind == Some("stdio")
    ensures forall b :: b in Remote(items) <==> b in items && b.kind != Some("stdio")
  {
    SortedByPriority(items);
  }

  /** Filtering keeps the order. */
  lemma {:induction false} FilterInOrder<T(!new)>(a: seq<T>, b: seq<T>, p: T -> bool)
    ensures Filter(a + b, p) == Filter(a, p) + Filter(b, p)
  {
    if a == [] {
      assert a + b == b;
    } else {
      assert (a + b)[1..] == a[1..] + b;
      FilterInOrder(a[1..], b, p);
    }
  }

  /** The names of the remote and then the stdio backends: each configured name once. */
  lemma StartOrder(items: seq<Backend>)
    requires UniqueNames(items)
    ensures var order := Names(Remote(items)) + Names(Stdio(items));
            Distinct(order) && forall n :: n in order <==> n in Names(items)
  {
    EveryBackendOnce(items);
    var both := Remote(items) + Stdio(items);
    assert Names(both) == Names(Remote(items)) + Names(Stdio(items));
    SameNames(both, items);
    SameNames(items, both);
  }

  lemma SameNames(a: seq<Backend>, b: seq<Backend>)
    requires forall x :: x in a ==> x in b
    ensures forall n :: n in Names(a) ==> n in Names(b)
  {
    forall n | n in Names(a) ensures n in Names(b) {
      var i :| 0 <= i < |a| && a[i].name == n;
      assert a[i] in a;
      var j :| 0 <= j < |b| && b[j] == a[i];
      assert Names(b)[j] == n;
    }
  }

  lemma {:induction false} FilterDistinct<T(!new)>(items: seq<T>, p: T -> bool)
    requires Distinct(items)
    ensures Distinct(Filter(items, p))
  {
    if items == [] {
    } else {
      FilterDistinct(items[1..], p);
      assert items[0] !in items[1..];
    }
  }

  lemma DistinctParts<T(!new)>(a: seq<T>, b: seq<T>, c: seq<T>, p: T -> bool)
    requires Distinct(a + b) && c <= b
    ensures Distinct(a) && Distinct(b) && Distinct(Filter(a, p) + c)
    ensures forall x :: x in c ==> x in b && x !in a
  {
    var all := a + b;
    assert forall i :: 0 <= i < |a| ==> all[i] == a[i];
    assert forall j :: 0 <= j < |b| ==> all[|a| + j] == b[j];
    forall x | x in c ensures x in b && x !in a {
      var j :| 0 <= j < |c| && c[j] == x;
      assert b[j] == x;
    }
    FilterDistinct(a, p);
    var kept := Filter(a, p);
    forall i, j | 0 <= i < |kept| && 0 <= j < |c| ensures kept[i] != c[j] {
      assert kept[i] in kept && c[j] in c;
    }
    forall i, j | 0 <= i < j < |c| ensures c[i] != c[j] {
      assert c[i] == b[i] && c[j] == b[j];
    }
  }

  lemma SkippedNames(remote: seq<string>, stdio: seq<string>, i: nat, fails: string -> bool)
    requires Distinct(remote + stdio) && i < |stdio|
    ensures stdio[i] !in Filter(remote, fails) && forall j :: 0 <= j < |stdio| && stdio[j] == stdio[i] ==> j == i
  {
    var all := remote + stdio;
    assert forall k :: 0 <= k < |remote| ==> all[k] == remote[k];
    assert forall k :: 0 <= k < |stdio| ==> all[|remote| + k] == stdio[k];
  }

  /** The first pass: the backends started, and those with a failed result. */
  method FirstPass(items: seq<Backend>, parallel: bool, shutdown: bool, fails: string -> bool)
      returns (started: seq<string>, failed: seq<string>)
    requires UniqueNames(items)
    ensures Distinct(started) && Distinct(failed)
    ensures forall n :: n in started || n in failed ==> n in Names(items)
    ensures !shutdown ==> forall n :: n in Names(items) ==> n in started
    ensures forall n :: n in started ==> (n in failed <==> fails(n))
    ensures started == Names(Remote(items)) + if shutdown then [] else Names(Stdio(items))
    ensures !shutdown ==> failed == Filter(started, fails)
    ensures shutdown ==>
              forall i :: 0 <= i < |Stdio(items)| ==> (Stdio(items)[i].name in failed <==> parallel || i == 0)
  {
    StartOrder(items);
    var remote, stdio := Names(Remote(items)), Names(Stdio(items));
    if shutdown {
      var skipped := if parallel || stdio == [] then stdio else stdio[..1];
      DistinctParts(remote, stdio, skipped, fails);
      forall i | 0 <= i < |stdio| ensures stdio[i] in Filter(remote, fails) + skipped <==> parallel || i == 0 {
        SkippedNames(remote, stdio, i, fails);
        assert i < |skipped| ==> stdio[i] == skipped[i];
      }
      return remote, Filter(remote, fails) + skipped;
    }
    FilterDistinct(remote + stdio, fails);
    return remote + stdio, Filter(remote + stdio, fails);
  }

  /** Startup as a whole: each backend is started once at first, and afterwards only within its own retry budget. */
  method StartAll(items: seq<Backend>, parallel: bool, budgets: Budgets, fails: string -> bool, w: World)
      returns (counts: map<string, nat>, ghost rounds: nat)
    requires UniqueNames(items)
    ensures counts.Keys == set n | n in Names(items)
    ensures forall n :: n in counts && n in budgets ==> StartedWithin(w, budgets[n], n, fails(n), rounds, counts[n])
    ensures forall n :: n in counts && n !in budgets ==> StartedWithin(w, 3, n, fails(n), rounds, counts[n])
  {
    var started, failed := FirstPass(items, parallel, w.shutdown(0), fails);
    counts := map n | n in Names(items) :: if n in started then 1 else 0;
    rounds := 0;
    if failed != [] && !w.shutdown(1) {
      ghost var before := counts;
      counts, rounds := RetryWithinBudget(failed, budgets, w, counts);
      forall n | n in counts ensures StartedWithin(w, RetriesOf(budgets, n), n, fails(n), rounds, counts[n]) {
        assert n in failed ==> WithinBudget(w, RetriesOf(budgets, n), n, rounds, before[n], counts[n]);
        assert n !in failed ==> counts[n] == before[n];
      }
    }
    assert forall n :: n in counts ==> StartedWithin(w, RetriesOf(budgets, n), n, fails(n), rounds, counts[n]);
  }

  /** A backend's number of starts: at most 1 + retries; exactly one if the first pass succeeds; and all of them
      if it stays down. Shutdown before the stdio backends, or during the retries, may cut this short. */
  ghost predicate StartedWithin(w: World, budget: int, name: string, failed: bool, rounds: nat, count: nat) {
    && count <= 1 + (if budget > 0 then budget else 0)
    && (!w.shutdown(0) ==> count >= 1 && (!failed ==> count == 1))
    && (!w.shutdown(0) && !w.shutdown(rounds + 1) && failed && budget >= 0 && DownBefore(w, name, rounds + 1) ==>
          count == 1 + budget)
  }

  /** `n` more starts than `before`: at most the budget, and all of it for a backend that stayed down. */
  ghost predicate WithinBudget(w: World, budget: int, name: string, rounds: nat, before: nat, after: nat) {
    && before <= after <= before + (if budget > 0 then budget else 0)
    && (budget >= 0 && DownBefore(w, name, rounds + 1) && !w.shutdown(rounds + 1) ==> after == before + budget)
  }

  method RetryWithinBudget(failed: seq<string>, budgets: Budgets, w: World, before: map<string, nat>)
      returns (counts: map<string, nat>, ghost rounds: nat)
    requires failed != [] && Distinct(failed) && forall n :: n in failed ==> n in before
    ensures counts.Keys == before.Keys && forall n :: n in before && n !in failed ==> counts[n] == before[n]
    ensures forall n :: n in failed ==> WithinBudget(w, RetriesOf(budgets, n), n, rounds, before[n], counts[n])
  {
    var remaining, k;
    counts, remaining, k := RetryFailedBackends(failed, budgets, w, before);
    rounds := k;
    forall n | n in failed ensures WithinBudget(w, RetriesOf(budgets, n), n, k, before[n], counts[n]) {
      StartsWithinBudget(w, budgets, n, k);
      DownMeansDown(w, failed, k, n);
      if DownBefore(w, n, k + 1) { DownUsesBudget(w, budgets, n, k); }
    }
  }
}
