/** Capability discovery and routing (argus_mcp/bridge/capability_registry.py, filter.py, rename.py). */
module CapabilityRegistry {
  import opened Common
  import opened Conflict

  datatype CapType = Tools | Resources | Prompts

  datatype Cap = Cap(name: string, description: string)

  /** What a backend lists: a capability object, or something of another class. */
  datatype RawItem = Foreign | Item(cap: Cap)

  datatype Filter = Filter(allow: seq<string>, deny: seq<string>)

  datatype Override = Override(name: Option<string>, description: Option<string>)

  /** `glob` stands for `fnmatch`: does the name match the pattern? */
  datatype Config = Config(
    strategy: Strategy,
    filters: map<string, map<CapType, Filter>>,
    renames: map<string, map<string, Override>>,
    glob: (string, string) -> bool)

  /** Backend server and the name the backend knows the capability by. */
  datatype Route = Route(server: string, original: string)

  type Routes = map<string, Route>

  datatype RegState = RegState(routes: Routes, tools: seq<Cap>, resources: seq<Cap>, prompts: seq<Cap>)

  /** The route map and the one list that a batch works on. */
  datatype Shelf = Shelf(routes: Routes, list: seq<Cap>)

  datatype Batch = Batch(server: string, kind: CapType, items: seq<RawItem>)

  // ---------------------------------------------------------------------------------------------
  // One item

  predicate IsAllowed(cfg: Config, f: Filter, name: string) {
    && !(exists i :: 0 <= i < |f.deny| && cfg.glob(name, f.deny[i]))
    && (f.allow == [] || exists i :: 0 <= i < |f.allow| && cfg.glob(name, f.allow[i]))
  }

  predicate PassesFilter(cfg: Config, server: string, kind: CapType, name: string) {
    server in cfg.filters && kind in cfg.filters[server] ==> IsAllowed(cfg, cfg.filters[server][kind], name)
  }

  /** Rename and description override; tools only. */
  function Renamed(cfg: Config, server: string, kind: CapType, cap: Cap): Cap {
    if kind == Tools && server in cfg.renames && cap.name in cfg.renames[server] then
      var o := cfg.renames[server][cap.name];
      Cap(if o.name.Some? then o.name.value else cap.name,
          if o.description.Some? then o.description.value else cap.description)
    else cap
  }

  /** Is the item registered at all: a named capability that its server's filter lets through? */
  predicate Accepts(cfg: Config, server: string, kind: CapType, raw: RawItem) {
    raw.Item? && raw.cap.name != "" && PassesFilter(cfg, server, kind, raw.cap.name)
  }

  /** The name under which an accepted item is first offered. */
  function Exposed(cfg: Config, server: string, kind: CapType, cap: Cap): string {
    TransformName(cfg.strategy, server, Renamed(cfg, server, kind, cap).name)
  }

  function Without(list: seq<Cap>, names: set<string>): (rest: seq<Cap>) {
    if list == [] then []
    else (if list[0].name in names then [] else [list[0]]) + Without(list[1..], names)
  }

  datatype Resolution = Register(shelf: Shelf, name: string) | Pass | Conflicting

  function ResolveConflict(cfg: Config, shelf: Shelf, server: string, exposed: string): Resolution {
    if exposed !in shelf.routes then Register(shelf, exposed)
    else if shelf.routes[exposed].server == server then Pass
    else
      match HandleConflict(cfg.strategy, exposed, shelf.routes[exposed].server, server)
      case Skip => Pass
      case Replace => Register(Shelf(shelf.routes - {exposed}, Without(shelf.list, {exposed})), exposed)
      case Rename(newName) => if newName in shelf.routes then Pass else Register(shelf, newName)
      case Raise => Conflicting
  }

  function Place(shelf: Shelf, name: string, route: Route, description: string): Shelf {
    Shelf(shelf.routes[name := route], shelf.list + [Cap(name, description)])
  }

  /** One accepted capability; `None` when the strategy raises. */
  function RegisterCap(cfg: Config, shelf: Shelf, server: string, kind: CapType, cap: Cap): Option<Shelf> {
    match ResolveConflict(cfg, shelf, server, Exposed(cfg, server, kind, cap))
    case Register(shelf', name) =>
      Some(Place(shelf', name, Route(server, cap.name), Renamed(cfg, server, kind, cap).description))
    case Pass => Some(shelf)
    case Conflicting => None
  }

  /** A whole batch. An exception ends the batch and keeps what was registered so far. */
  function RegisterAll(cfg: Config, shelf: Shelf, server: string, kind: CapType, items: seq<RawItem>): Shelf
    decreases |items|
  {
    if items == [] then shelf
    else if !Accepts(cfg, server, kind, items[0]) then RegisterAll(cfg, shelf, server, kind, items[1..])
    else
      match RegisterCap(cfg, shelf, server, kind, items[0].cap)
      case None => shelf
      case Some(next) => RegisterAll(cfg, next, server, kind, items[1..])
  }

  // ---------------------------------------------------------------------------------------------
  // Registry operations on values

  function ListOf(st: RegState, kind: CapType): seq<Cap> {
    match kind case Tools => st.tools case Resources => st.resources case Prompts => st.prompts
  }

  function WithShelf(st: RegState, kind: CapType, shelf: Shelf): RegState {
    match kind
    case Tools => st.(routes := shelf.routes, tools := shelf.list)
    case Resources => st.(routes := shelf.routes, resources := shelf.list)
    case Prompts => st.(routes := shelf.routes, prompts := shelf.list)
  }

  function ApplyBatch(cfg: Config, st: RegState, b: Batch): RegState {
    WithShelf(st, b.kind, RegisterAll(cfg, Shelf(st.routes, ListOf(st, b.kind)), b.server, b.kind, b.items))
  }

  function ApplyBatches(cfg: Config, st: RegState, bs: seq<Batch>): RegState
    decreases |bs|
  {
    if bs == [] then st else ApplyBatches(cfg, ApplyBatch(cfg, st, bs[0]), bs[1..])
  }

  const EMPTY := RegState(map[], [], [], [])

  function OwnedBy(routes: Routes, server: string): set<string> {
    set n | n in routes && routes[n].server == server
  }

  function RemoveServer(st: RegState, server: string): RegState {
    var keys := OwnedBy(st.routes, server);
    RegState(st.routes - keys, Without(st.tools, keys), Without(st.resources, keys), Without(st.prompts, keys))
  }

  /** A full discovery in some arrival order, a rediscovery of one backend, or the removal of one. */
  datatype Op =
    | Discover(batches: seq<Batch>)
    | Rediscover(server: string, tools: seq<RawItem>, resources: seq<RawItem>, prompts: seq<RawItem>)
    | Remove(server: string)

  function BatchesOf(op: Op): seq<Batch> {
    match op
    case Discover(batches) => batches
    case Rediscover(server, tools, resources, prompts) =>
      [Batch(server, Tools, tools), Batch(server, Resources, resources), Batch(server, Prompts, prompts)]
    case Remove(_) => []
  }

  function Apply(cfg: Config, st: RegState, op: Op): RegState {
    match op
    case Discover(batches) => ApplyBatches(cfg, EMPTY, batches)
    case Rediscover(_, _, _, _) => ApplyBatches(cfg, st, BatchesOf(op))
    case Remove(server) => RemoveServer(st, server)
  }

  function Run(cfg: Config, st: RegState, ops: seq<Op>): RegState
    decreases |ops|
  {
    if ops == [] then st else Run(cfg, Apply(cfg, st, ops[0]), ops[1..])
  }

  // ---------------------------------------------------------------------------------------------
  // The registry object

  class Registry {
    const cfg: Config
    var routeMap: Routes
    var tools: seq<Cap>
    var resources: seq<Cap>
    var prompts: seq<Cap>

    ghost function State(): RegState
      reads this
    {
      RegState(routeMap, tools, resources, prompts)
    }

    constructor (cfg: Config)
      ensures this.cfg == cfg && State() == EMPTY
    {
      this.cfg := cfg;
      routeMap, tools, resources, prompts := map[], [], [], [];
    }

    /** The registration loop of one batch: works on the shared route map and on the list it is given. */
    method DiscoverCapsByType(server: string, kind: CapType, items: seq<RawItem>, agg: seq<Cap>)
        returns (list: seq<Cap>)
      modifies this`routeMap
      ensures Shelf(routeMap, list) == RegisterAll(cfg, Shelf(old(routeMap), agg), server, kind, items)
    {
      list := agg;
      ghost var goal := RegisterAll(cfg, Shelf(routeMap, list), server, kind, items);
      for n := 0 to |items|
        invariant goal == RegisterAll(cfg, Shelf(routeMap, list), server, kind, items[n..])
      {
        assert items[n..][1..] == items[n + 1..];
        if !Accepts(cfg, server, kind, items[n]) {
          continue;
        }
        var cap := Renamed(cfg, server, kind, items[n].cap);
        var exposed := TransformName(cfg.strategy, server, cap.name);
        match ResolveConflict(cfg, Shelf(routeMap, list), server, exposed) {
          case Conflicting => return;
          case Pass =>
          case Register(shelf, name) =>
            list := shelf.list + [Cap(name, cap.description)];
            routeMap := shelf.routes[name := Route(server, items[n].cap.name)];
        }
      }
    }

    /** Full discovery: the new map is installed first, the new lists when all batches have arrived. */
    method DiscoverAndRegister(arrivals: seq<Batch>)
      modifies this
      ensures State() == Apply(cfg, old(State()), Discover(arrivals))
    {
      var newTools, newResources, newPrompts := [], [], [];
      routeMap := map[];
      for n := 0 to |arrivals|
        invariant ApplyBatches(cfg, EMPTY, arrivals)
               == ApplyBatches(cfg, RegState(routeMap, newTools, newResources, newPrompts), arrivals[n..])
      {
        assert arrivals[n..][1..] == arrivals[n + 1..];
        var b := arrivals[n];
        match b.kind {
          case Tools => newTools := DiscoverCapsByType(b.server, Tools, b.items, newTools);
          case Resources => newResources := DiscoverCapsByType(b.server, Resources, b.items, newResources);
          case Prompts => newPrompts := DiscoverCapsByType(b.server, Prompts, b.items, newPrompts);
        }
      }
      tools, resources, prompts := newTools, newResources, newPrompts;
    }

    /** Rediscovery of one backend on top of the live state. */
    method DiscoverSingleBackend(
      server: string, toolItems: seq<RawItem>, resourceItems: seq<RawItem>, promptItems: seq<RawItem>)
      modifies this
      ensures State() == Apply(cfg, old(State()), Rediscover(server, toolItems, resourceItems, promptItems))
    {
      ghost var bs := BatchesOf(Rediscover(server, toolItems, resourceItems, promptItems));
      assert bs[1..] == [bs[1], bs[2]] && bs[1..][1..] == [bs[2]] && [bs[2]][1..] == [];
      ghost var s0 := State();
      tools := DiscoverCapsByType(server, Tools, toolItems, tools);
      ghost var s1 := State();
      assert s1 == ApplyBatch(cfg, s0, bs[0]);
      resources := DiscoverCapsByType(server, Resources, resourceItems, resources);
      ghost var s2 := State();
      assert s2 == ApplyBatch(cfg, s1, bs[1]);
      prompts := DiscoverCapsByType(server, Prompts, promptItems, prompts);
      assert State() == ApplyBatch(cfg, s2, bs[2]);
      assert ApplyBatches(cfg, s2, [bs[2]]) == State();
      assert ApplyBatches(cfg, s1, [bs[1], bs[2]]) == State();
    }

    /** Drops a backend; the count is the number of list entries that disappear. */
    method RemoveBackend(server: string) returns (removed: int)
      modifies this
      ensures State() == Apply(cfg, old(State()), Remove(server))
      ensures removed == Listed(old(State())) - Listed(State())
    {
      var keys := OwnedBy(routeMap, server);
      routeMap := routeMap - keys;
      var before := |tools| + |resources| + |prompts|;
      tools := Without(tools, keys);
      resources := Without(resources, keys);
      prompts := Without(prompts, keys);
      removed := before - (|tools| + |resources| + |prompts|);
    }
  }

  function Listed(st: RegState): nat {
    |st.tools| + |st.resources| + |st.prompts|
  }
}
