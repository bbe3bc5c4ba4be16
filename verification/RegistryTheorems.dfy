/** What every reachable registry state guarantees. */
module RegistryTheorems {
  import opened Common
  import opened Conflict
  import opened CapabilityRegistry

  // ---------------------------------------------------------------------------------------------
  // Lists and routes agree

  ghost function Names(list: seq<Cap>): set<string> {
    set c | c in list :: c.name
  }

  ghost predicate NoRepeats(list: seq<Cap>) {
    forall i, j :: 0 <= i < j < |list| ==> list[i].name != list[j].name
  }

  /** The list and the names listed under the other types together are the routed names. */
  ghost predicate ShelfConsistent(shelf: Shelf, others: set<string>) {
    NoRepeats(shelf.list) && Names(shelf.list) + others == shelf.routes.Keys
  }

  lemma FirstIsFresh(list: seq<Cap>)
    requires list != []
    ensures Names(list) == {list[0].name} + Names(list[1..])
    ensures NoRepeats(list) ==> NoRepeats(list[1..]) && list[0].name !in Names(list[1..])
  {
    var rest := list[1..];
    assert list == [list[0]] + rest;
    if NoRepeats(list) {
      forall c | c in rest ensures c.name != list[0].name {
        var i :| 0 <= i < |rest| && rest[i] == c;
        assert list[i + 1] == c;
      }
    }
  }

  lemma {:induction false} WithoutMembers(list: seq<Cap>, names: set<string>)
    ensures forall c :: c in Without(list, names) <==> c in list && c.name !in names
  {
    if list == [] {
    } else {
      assert list == [list[0]] + list[1..];
      WithoutMembers(list[1..], names);
    }
  }

  lemma {:induction false} WithoutKeepsDistinct(list: seq<Cap>, names: set<string>)
    requires NoRepeats(list)
    ensures NoRepeats(Without(list, names))
  {
    if list == [] {
    } else {
      FirstIsFresh(list);
      WithoutKeepsDistinct(list[1..], names);
      WithoutMembers(list[1..], names);
      var kept := Without(list[1..], names);
      forall i | 0 <= i < |kept| ensures kept[i].name != list[0].name { assert kept[i] in kept; }
    }
  }

  lemma WithoutDrops(list: seq<Cap>, names: set<string>)
    ensures Names(Without(list, names)) == Names(list) - names
    ensures NoRepeats(list) ==> NoRepeats(Without(list, names))
  {
    WithoutMembers(list, names);
    if NoRepeats(list) { WithoutKeepsDistinct(list, names); }
  }

  lemma AppendKeepsDistinct(list: seq<Cap>, c: Cap)
    requires NoRepeats(list) && c.name !in Names(list)
    ensures NoRepeats(list + [c]) && Names(list + [c]) == Names(list) + {c.name}
  {
    var longer := list + [c];
    forall i, j | 0 <= i < j < |longer| ensures longer[i].name != longer[j].name {
      assert longer[i] in list;
    }
    assert forall x :: x in longer <==> x in list || x == c;
  }

  lemma CapKeepsConsistent(cfg: Config, shelf: Shelf, others: set<string>, server: string, kind: CapType, cap: Cap)
    requires ShelfConsistent(shelf, others)
    ensures var r := RegisterCap(cfg, shelf, server, kind, cap); r.Some? ==> ShelfConsistent(r.value, others)
    ensures var r := RegisterCap(cfg, shelf, server, kind, cap);
            r.Some? && !cfg.strategy.Priority? && Names(shelf.list) !! others ==> Names(r.value.list) !! others
  {
    var exposed := Exposed(cfg, server, kind, cap);
    var r := ResolveConflict(cfg, shelf, server, exposed);
    if r.Register? {
      var c := Cap(r.name, Renamed(cfg, server, kind, cap).description);
      if r.shelf == shelf {
        AppendKeepsDistinct(shelf.list, c);
      } else {
        WithoutDrops(shelf.list, {exposed});
        AppendKeepsDistinct(r.shelf.list, c);
      }
    }
  }

  lemma {:induction false} BatchKeepsConsistent(
    cfg: Config, shelf: Shelf, others: set<string>, server: string, kind: CapType, items: seq<RawItem>)
    requires ShelfConsistent(shelf, others)
    ensures var done := RegisterAll(cfg, shelf, server, kind, items);
            && ShelfConsistent(done, others)
            && (!cfg.strategy.Priority? && Names(shelf.list) !! others ==> Names(done.list) !! others)
    decreases |items|
  {
    if items == [] {
    } else {
      if !Accepts(cfg, server, kind, items[0]) {
        BatchKeepsConsistent(cfg, shelf, others, server, kind, items[1..]);
      } else {
        CapKeepsConsistent(cfg, shelf, others, server, kind, items[0].cap);
        var r := RegisterCap(cfg, shelf, server, kind, items[0].cap);
        if r.Some? { BatchKeepsConsistent(cfg, r.value, others, server, kind, items[1..]); }
      }
    }
  }

  /** No list repeats a name, and the listed names are exactly the routed ones. */
  ghost predicate Consistent(st: RegState) {
    && NoRepeats(st.tools) && NoRepeats(st.resources) && NoRepeats(st.prompts)
    && Names(st.tools) + Names(st.resources) + Names(st.prompts) == st.routes.Keys
  }

  /** No name is listed under two types. */
  ghost predicate OneTypePerName(st: RegState) {
    && Names(st.tools) !! Names(st.resources)
    && Names(st.tools) !! Names(st.prompts)
    && Names(st.resources) !! Names(st.prompts)
  }

  /** What every reachable state satisfies, by strategy. */
  ghost predicate Sound(cfg: Config, st: RegState) {
    Consistent(st) && (!cfg.strategy.Priority? ==> OneTypePerName(st))
  }

  lemma BatchKeepsSound(cfg: Config, st: RegState, b: Batch)
    requires Sound(cfg, st)
    ensures Sound(cfg, ApplyBatch(cfg, st, b))
  {
    var others := match b.kind
      case Tools => Names(st.resources) + Names(st.prompts)
      case Resources => Names(st.tools) + Names(st.prompts)
      case Prompts => Names(st.tools) + Names(st.resources);
    BatchKeepsConsistent(cfg, Shelf(st.routes, ListOf(st, b.kind)), others, b.server, b.kind, b.items);
  }

  lemma {:induction false} BatchesKeepSound(cfg: Config, st: RegState, bs: seq<Batch>)
    requires Sound(cfg, st)
    ensures Sound(cfg, ApplyBatches(cfg, st, bs))
    decreases |bs|
  {
    if bs == [] {
    } else {
      BatchKeepsSound(cfg, st, bs[0]);
      BatchesKeepSound(cfg, ApplyBatch(cfg, st, bs[0]), bs[1..]);
    }
  }

  lemma RemoveKeepsSound(cfg: Config, st: RegState, server: string)
    requires Sound(cfg, st)
    ensures Sound(cfg, RemoveServer(st, server))
  {
    var keys := OwnedBy(st.routes, server);
    WithoutDrops(st.tools, keys);
    WithoutDrops(st.resources, keys);
    WithoutDrops(st.prompts, keys);
    DropFromUnion(Names(st.tools), Names(st.resources), Names(st.prompts), keys);
    assert (st.routes - keys).Keys == st.routes.Keys - keys;
  }

  lemma DropFromUnion<T>(a: set<T>, b: set<T>, c: set<T>, keys: set<T>)
    ensures (a - keys) + (b - keys) + (c - keys) == (a + b + c) - keys
  {
  }

  /** In every reachable state, under any strategy, operations and arrival orders, lists and routes agree. */
  lemma {:induction false} ReachableIsSound(cfg: Config, st: RegState, ops: seq<Op>)
    requires Sound(cfg, st)
    ensures Sound(cfg, Run(cfg, st, ops))
    decreases |ops|
  {
    if ops == [] {
    } else {
      if ops[0].Remove? { RemoveKeepsSound(cfg, st, ops[0].server); }
      BatchesKeepSound(cfg, EMPTY, BatchesOf(ops[0]));
      BatchesKeepSound(cfg, st, BatchesOf(ops[0]));
      ReachableIsSound(cfg, Apply(cfg, st, ops[0]), ops[1..]);
    }
  }

  // ---------------------------------------------------------------------------------------------
  // What removal counts

  lemma {:induction false} WithoutCounts(list: seq<Cap>, names: set<string>)
    requires NoRepeats(list)
    ensures |list| - |Without(list, names)| == |Names(list) * names|
  {
    if list == [] {
      assert Names(list) * names == {};
    } else {
      FirstIsFresh(list);
      WithoutCounts(list[1..], names);
      CountOneMore(list[0].name, Names(list[1..]), names);
    }
  }

  lemma CountOneMore(n: string, rest: set<string>, names: set<string>)
    requires n !in rest
    ensures |({n} + rest) * names| == |rest * names| + if n in names then 1 else 0
  {
    if n in names {
      assert ({n} + rest) * names == {n} + rest * names;
    } else {
      assert ({n} + rest) * names == rest * names;
    }
  }

  lemma CountTwo<T>(a: set<T>, b: set<T>)
    ensures |a| + |b| == |a + b| + |a * b|
  {
    assert a + b == a + (b - a) && b == (b - a) + (a * b);
    assert |a + b| == |a| + |b - a|;
    assert |b| == |b - a| + |a * b|;
  }

  /** `keys`, all covered by three sets, is counted once per set it meets. */
  lemma CountCovered<T>(a: set<T>, b: set<T>, c: set<T>, keys: set<T>)
    requires keys <= a + b + c
    ensures |keys| <= |a * keys| + |b * keys| + |c * keys|
    ensures |keys| == |a * keys| + |b * keys| + |c * keys| <==> CoveredOnce(a, b, c, keys)
  {
    var x, y, z := a * keys, b * keys, c * keys;
    assert x + y + z == keys;
    CountTwo(x, y);
    CountTwo(x + y, z);
  }

  /** No element of `keys` lies in two of the sets. */
  ghost predicate CoveredOnce<T>(a: set<T>, b: set<T>, c: set<T>, keys: set<T>) {
    (a * keys) * (b * keys) == {} && (a * keys + b * keys) * (c * keys) == {}
  }

  lemma NoSharedNames<T>(a: set<T>, b: set<T>, c: set<T>, keys: set<T>)
    requires a !! b && a !! c && b !! c
    ensures CoveredOnce(a, b, c, keys)
  {
  }

  /** No dropped name is listed under two types. */
  ghost predicate DroppedOnce(st: RegState, keys: set<string>) {
    CoveredOnce(Names(st.tools), Names(st.resources), Names(st.prompts), keys)
  }

  /** `remove_backend` reports at least the dropped routes, and exactly those unless a dropped name has two types. */
  lemma RemovalCount(st: RegState, server: string)
    requires Consistent(st)
    ensures var keys := OwnedBy(st.routes, server);
            var removed := Listed(st) - Listed(RemoveServer(st, server));
            && |st.routes| - |RemoveServer(st, server).routes| == |keys| <= removed
            && (removed == |keys| <==> DroppedOnce(st, keys))
  {
    var keys := OwnedBy(st.routes, server);
    WithoutCounts(st.tools, keys);
    WithoutCounts(st.resources, keys);
    WithoutCounts(st.prompts, keys);
    CountCovered(Names(st.tools), Names(st.resources), Names(st.prompts), keys);
    DroppedRoutes(st.routes, keys);
  }

  lemma DroppedRoutes(routes: Routes, keys: set<string>)
    requires keys <= routes.Keys
    ensures |routes| - |routes - keys| == |keys|
  {
    assert (routes - keys).Keys == routes.Keys - keys;
    assert routes.Keys == (routes.Keys - keys) + keys;
    assert |routes.Keys| == |routes.Keys - keys| + |keys|;
    assert |routes| == |routes.Keys| && |routes - keys| == |(routes - keys).Keys|;
  }

  /** Without `priority`, removal counts the dropped routes exactly, in every reachable state. */
  lemma RemovalCountExact(cfg: Config, ops: seq<Op>, server: string)
    requires !cfg.strategy.Priority?
    ensures var st := Run(cfg, EMPTY, ops);
            Listed(st) - Listed(RemoveServer(st, server)) == |st.routes| - |RemoveServer(st, server).routes|
  {
    var st := Run(cfg, EMPTY, ops);
    ReachableIsSound(cfg, EMPTY, ops);
    RemovalCount(st, server);
    NoSharedNames(Names(st.tools), Names(st.resources), Names(st.prompts), OwnedBy(st.routes, server));
  }

  /** Under `priority` a reachable state can list one name twice: a resource replaces the route of a tool. */
  lemma PriorityCanListTwice(cfg: Config, cap: Cap)
    requires cfg.strategy == Priority(["high"], "_") && cfg.filters == map[] && cfg.renames == map[] && cap.name != ""
    ensures var st :=
            Run(cfg, EMPTY, [Discover([Batch("low", Tools, [Item(cap)]), Batch("high", Resources, [Item(cap)])])]);
            && st.routes == map[cap.name := Route("high", cap.name)] && !OneTypePerName(st)
            && Listed(st) - Listed(RemoveServer(st, "high")) == 2
  {
    assert cap == Cap(cap.name, cap.description);
    var items := [Item(cap)];
    assert items[1..] == [];
    var b, c := Batch("low", Tools, items), Batch("high", Resources, items);
    assert [b, c][1..] == [c] && [c][1..] == [];
    var s1 := ApplyBatch(cfg, EMPTY, b);
    var r1 := Shelf(map[cap.name := Route("low", cap.name)], [cap]);
    var none := Shelf(map[], []);
    assert RegisterCap(cfg, none, "low", Tools, cap)
        == Some(Place(none, cap.name, Route("low", cap.name), cap.description));
    assert [] + [cap] == [cap];
    assert RegisterAll(cfg, r1, "low", Tools, []) == r1;
    assert s1 == RegState(r1.routes, [cap], [], []);
    assert "low" !in ["high"] && "high" in ["high"];
    var r2 := Shelf(map[cap.name := Route("high", cap.name)], [cap]);
    assert Without([], {cap.name}) == [];
    assert RegisterCap(cfg, Shelf(r1.routes, []), "high", Resources, cap) == Some(r2) by {
      assert (r1.routes - {cap.name})[cap.name := Route("high", cap.name)] == r2.routes;
    }
    assert RegisterAll(cfg, r2, "high", Resources, []) == r2;
    var s2 := RegState(r2.routes, [cap], [cap], []);
    assert ApplyBatch(cfg, s1, c) == s2;
    assert ApplyBatches(cfg, s1, [c]) == s2;
    assert Run(cfg, s2, []) == s2;
    assert [Discover([b, c])][1..] == [];
    assert cap.name in Names(s2.tools) && cap.name in Names(s2.resources) by {
      assert cap in s2.tools && cap in s2.resources;
    }
    assert OwnedBy(s2.routes, "high") == {cap.name};
    assert [cap][1..] == [];
    assert Without([cap], {cap.name}) == [];
  }

  // ---------------------------------------------------------------------------------------------
  // A removal while a rediscovery is waiting for its backend

  /** A batch whose list object was replaced while it waited: its routes land in the map, its items in a lost list. */
  function ApplyLateBatch(cfg: Config, st: RegState, b: Batch, captured: seq<Cap>): RegState {
    st.(routes := RegisterAll(cfg, Shelf(st.routes, captured), b.server, b.kind, b.items).routes)
  }

  /** Judged by the route map alone: every item that is registered before a raise finds its name taken, and so is the
      prefixed name that `priority` falls back to when the holder is not outranked. */
  predicate AddsNothing(cfg: Config, routes: Routes, server: string, kind: CapType, items: seq<RawItem>)
    decreases |items|
  {
    if items == [] then
      true
    else if !Accepts(cfg, server, kind, items[0]) then
      AddsNothing(cfg, routes, server, kind, items[1..])
    else
      var exposed := Exposed(cfg, server, kind, items[0].cap);
      Raises(cfg, routes, server, exposed)
      || (NoRoom(cfg, routes, server, exposed) && AddsNothing(cfg, routes, server, kind, items[1..]))
  }

  /** Does the strategy raise over this name? */
  predicate Raises(cfg: Config, routes: Routes, server: string, exposed: string) {
    cfg.strategy.Strict? && exposed in routes && routes[exposed].server != server
  }

  /** Is the name taken, and with it the prefixed name if the strategy would try that one? */
  predicate NoRoom(cfg: Config, routes: Routes, server: string, exposed: string) {
    && exposed in routes
    && (cfg.strategy.Priority? && routes[exposed].server != server && !Outranks(cfg, server, routes[exposed].server) ==>
          server + cfg.strategy.separator + exposed in routes)
  }

  /** Does the server take names over from the holder? */
  predicate Outranks(cfg: Config, server: string, holder: string) {
    cfg.strategy.Priority? && Rank(cfg.strategy.order, server) < Rank(cfg.strategy.order, holder)
  }

  /** The same names; some of them may have been taken over by the server. */
  ghost predicate SameOrTaken(cfg: Config, server: string, was: Routes, routes: Routes) {
    && was.Keys == routes.Keys
    && forall n :: n in was ==>
                     || routes[n].server == was[n].server
                     || (routes[n].server == server && Outranks(cfg, server, was[n].server))
  }

  lemma CapAddsExactlyWhen(cfg: Config, was: Routes, shelf: Shelf, server: string, kind: CapType, cap: Cap)
    requires SameOrTaken(cfg, server, was, shelf.routes)
    ensures var r, exposed := RegisterCap(cfg, shelf, server, kind, cap), Exposed(cfg, server, kind, cap);
            && (r.None? <==> Raises(cfg, was, server, exposed))
            && (r.Some? ==> was.Keys <= r.value.routes.Keys)
            && (r.Some? ==> (r.value.routes.Keys == was.Keys <==> NoRoom(cfg, was, server, exposed)))
            && (r.Some? && r.value.routes.Keys == was.Keys ==> SameOrTaken(cfg, server, was, r.value.routes))
  {
    var exposed := Exposed(cfg, server, kind, cap);
    var done := RegisterCap(cfg, shelf, server, kind, cap);
    var r := ResolveConflict(cfg, shelf, server, exposed);
    if r.Register? {
      assert done.value.routes.Keys == shelf.routes.Keys + {r.name};
      assert r.name == exposed || r.name !in was;
    }
  }

  lemma {:induction false} NoNameAddedExactlyWhen(
    cfg: Config, was: Routes, shelf: Shelf, server: string, kind: CapType, items: seq<RawItem>)
    requires SameOrTaken(cfg, server, was, shelf.routes)
    ensures RegisterAll(cfg, shelf, server, kind, items).routes.Keys == was.Keys <==>
            AddsNothing(cfg, was, server, kind, items)
    decreases |items|
  {
    if items == [] {
    } else if !Accepts(cfg, server, kind, items[0]) {
      NoNameAddedExactlyWhen(cfg, was, shelf, server, kind, items[1..]);
    } else {
      CapAddsExactlyWhen(cfg, was, shelf, server, kind, items[0].cap);
      match RegisterCap(cfg, shelf, server, kind, items[0].cap)
      case None =>
      case Some(next) =>
        assert RegisterAll(cfg, shelf, server, kind, items) == RegisterAll(cfg, next, server, kind, items[1..]);
        if next.routes.Keys == was.Keys {
          NoNameAddedExactlyWhen(cfg, was, next, server, kind, items[1..]);
        } else {
          RoutesNeverShrink(cfg, next, server, kind, items[1..]);
        }
    }
  }

  /** A late batch leaves lists and routes in agreement exactly when the routes before it leave it no name to add. */
  lemma LateBatchConsistentExactlyWhen(cfg: Config, st: RegState, b: Batch, captured: seq<Cap>)
    requires Consistent(st)
    ensures Consistent(ApplyLateBatch(cfg, st, b, captured)) <==> AddsNothing(cfg, st.routes, b.server, b.kind, b.items)
  {
    NoNameAddedExactlyWhen(cfg, st.routes, Shelf(st.routes, captured), b.server, b.kind, b.items);
  }

  /** A tool is discovered, a rediscovery of its backend waits, the backend is removed, and then the batch arrives. */
  lemma LateBatchBreaks(cfg: Config, server: string, cap: Cap)
    requires Accepts(cfg, server, Tools, Item(cap))
    ensures var b := Batch(server, Tools, [Item(cap)]);
            var captured := Run(cfg, EMPTY, [Discover([b])]).tools;
            var st := Run(cfg, EMPTY, [Discover([b]), Remove(server)]);
            Consistent(st) && !Consistent(ApplyLateBatch(cfg, st, b, captured))
  {
    var b := Batch(server, Tools, [Item(cap)]);
    var ops := [Discover([b]), Remove(server)];
    var st := Run(cfg, EMPTY, ops);
    ReachableIsSound(cfg, EMPTY, ops);
    assert ops[1..] == [Remove(server)] && ops[1..][1..] == [];
    var found := Apply(cfg, EMPTY, Discover([b]));
    assert st == Run(cfg, found, [Remove(server)]) == RemoveServer(found, server);
    assert [b][1..] == [] && b.items[1..] == [];
    var exposed := Exposed(cfg, server, Tools, cap);
    assert found.routes == map[exposed := Route(server, cap.name)] by {
      var shelf := RegisterCap(cfg, Shelf(map[], []), server, Tools, cap).value;
      assert RegisterAll(cfg, shelf, server, Tools, []) == shelf;
      assert ApplyBatches(cfg, ApplyBatch(cfg, EMPTY, b), []) == ApplyBatch(cfg, EMPTY, b);
    }
    assert exposed in OwnedBy(found.routes, server);
    LateBatchConsistentExactlyWhen(cfg, st, b, Run(cfg, EMPTY, [Discover([b])]).tools);
  }

  // ---------------------------------------------------------------------------------------------
  // Other operations while a full discovery is under way

  /** What a full discovery has built so far: the live route map and the lists it will install at its end. */
  function Underway(cfg: Config, arrived: seq<Batch>): RegState {
    ApplyBatches(cfg, EMPTY, arrived)
  }

  /** A removal meanwhile: routes go from the live map, but the names stay in the lists to be installed. */
  function RemovedMeanwhile(st: RegState, server: string): RegState {
    st.(routes := st.routes - OwnedBy(st.routes, server))
  }

  lemma UnderwayIsSound(cfg: Config, arrived: seq<Batch>)
    ensures Sound(cfg, Underway(cfg, arrived))
  {
    BatchesKeepSound(cfg, EMPTY, arrived);
  }

  /** Agreement survives a removal during a full discovery exactly when the backend holds no route at that time; then
      it survives whatever arrives later, too. */
  lemma RemovalMeanwhileExactlyWhen(cfg: Config, arrived: seq<Batch>, server: string, later: seq<Batch>)
    ensures Consistent(RemovedMeanwhile(Underway(cfg, arrived), server)) <==>
            OwnedBy(Underway(cfg, arrived).routes, server) == {}
    ensures OwnedBy(Underway(cfg, arrived).routes, server) == {} ==>
              Consistent(ApplyBatches(cfg, RemovedMeanwhile(Underway(cfg, arrived), server), later))
  {
    var st := Underway(cfg, arrived);
    var keys := OwnedBy(st.routes, server);
    UnderwayIsSound(cfg, arrived);
    assert (st.routes - keys).Keys == st.routes.Keys - keys;
    if keys == {} {
      assert st.routes - keys == st.routes;
      BatchesKeepSound(cfg, st, later);
    } else {
      var n :| n in keys;
      assert n in st.routes.Keys && n !in st.routes.Keys - keys;
    }
  }

  /** A rediscovery during a full discovery writes into lists that are about to be replaced. Agreement survives each of
      its batches exactly when the routes built so far leave it no name to add. */
  lemma RediscoveryMeanwhileExactlyWhen(cfg: Config, arrived: seq<Batch>, b: Batch, current: seq<Cap>)
    ensures Consistent(ApplyLateBatch(cfg, Underway(cfg, arrived), b, current)) <==>
            AddsNothing(cfg, Underway(cfg, arrived).routes, b.server, b.kind, b.items)
  {
    UnderwayIsSound(cfg, arrived);
    LateBatchConsistentExactlyWhen(cfg, Underway(cfg, arrived), b, current);
  }

  lemma {:induction false} RoutesNeverShrink(
    cfg: Config, shelf: Shelf, server: string, kind: CapType, items: seq<RawItem>)
    ensures shelf.routes.Keys <= RegisterAll(cfg, shelf, server, kind, items).routes.Keys
    decreases |items|
  {
    if items == [] {
    } else {
      if !Accepts(cfg, server, kind, items[0]) {
        RoutesNeverShrink(cfg, shelf, server, kind, items[1..]);
      } else {
        var r := RegisterCap(cfg, shelf, server, kind, items[0].cap);
        if r.Some? { RoutesNeverShrink(cfg, r.value, server, kind, items[1..]); }
      }
    }
  }
}
