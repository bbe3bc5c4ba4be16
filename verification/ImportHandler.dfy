/** Merging an imported configuration into an existing one (argus_mcp/config/import_handler.py). */
module ImportHandler {
  import opened Common
  import opened ImportPlan

  /** A section of the payload: of the wrong shape, or its entries. */
  datatype Section<T> = Malformed | Entries(entries: seq<T>)

  datatype Payload = Payload(
    backends: Option<Section<(string, RawBackend)>>,
    registries: Option<Section<RawRegistry>>,
    flags: Option<Section<(string, RawFlag)>>)
  {
    /** Mappings have unique keys. */
    predicate Valid() {
      && (backends.Some? && backends.value.Entries? ==> UniqueKeys(backends.value.entries))
      && (flags.Some? && flags.value.Entries? ==> UniqueKeys(flags.value.entries))
    }
  }

  /** The entries to import: none if the section is absent, not selected or of the wrong shape. */
  function Selected<T>(section: Option<Section<T>>, selected: bool): seq<T> {
    if selected && section.Some? && section.value.Entries? then section.value.entries else []
  }

  function Length<T>(section: Option<Section<T>>): nat {
    if section.Some? && section.value.Entries? then |section.value.entries| else 0
  }

  /** Is the section above the limit? An absent one counts as empty, one of the wrong shape is not counted. */
  predicate Exceeds<T>(section: Option<Section<T>>, most: int) {
    !(section.Some? && section.value.Malformed?) && Length(section) > most
  }

  datatype LimitError = TooManyBackends(count: nat) | TooManyRegistries(count: nat)

  datatype ImportResult = ImportResult(items: seq<Item>, errors: seq<LimitError>)

  datatype Snapshot = Snapshot(
    backends: map<string, Settings>,
    registries: seq<RegistryEntry>,
    flags: map<string, bool>)

  /** What an import reports (`None` when it raises) and the configuration it leaves behind. */
  datatype Forecast = Forecast(result: Option<ImportResult>, after: Snapshot)

  datatype Options = Options(strategy: Strategy, kinds: set<Kind>, maxBackends: int, maxRegistries: int)

  function LimitErrors(payload: Payload, o: Options): seq<LimitError> {
    (if Exceeds(payload.backends, o.maxBackends) then [TooManyBackends(Length(payload.backends))] else [])
    + (if Exceeds(payload.registries, o.maxRegistries) then [TooManyRegistries(Length(payload.registries))] else [])
  }

  /** The whole import as a function of the configuration before it. */
  function ForecastImport(s: Snapshot, payload: Payload, o: Options): Forecast {
    var errors := LimitErrors(payload, o);
    if errors != [] then Forecast(Some(ImportResult([], errors)), s)
    else
      var rawBackends := Selected(payload.backends, Backend in o.kinds);
      var p1 := PlanBackends(o.strategy, s.backends.Keys, rawBackends);
      var s1 := s.(backends := BackendsAfter(s.backends, o.strategy, rawBackends));
      if p1.raised then Forecast(None, s1)
      else
        var rawRegistries := Selected(payload.registries, Registry in o.kinds);
        var p2 := PlanRegistries(o.strategy, RegistryNames(s.registries), rawRegistries);
        var s2 := s1.(registries := RegistriesAfter(s.registries, o.strategy, rawRegistries));
        if p2.raised then Forecast(None, s2)
        else
          var rawFlags := Selected(payload.flags, Flag in o.kinds);
          Forecast(Some(ImportResult(p1.items + p2.items + FlagItems(o.strategy, s.flags.Keys, rawFlags), [])),
                   s2.(flags := FlagsAfter(s.flags, o.strategy, rawFlags)))
  }

  class ArgusConfig {
    var backends: map<string, Settings>
    var registries: seq<RegistryEntry>
    var flags: map<string, bool>

    constructor (s: Snapshot)
      ensures Now() == s
    {
      backends, registries, flags := s.backends, s.registries, s.flags;
    }

    ghost function Now(): Snapshot
      reads this
    {
      Snapshot(backends, registries, flags)
    }
  }

  method ImportBackends(target: ArgusConfig, raws: Mapping<RawBackend>, strategy: Strategy, dryRun: bool)
      returns (items: seq<Item>, raised: bool)
    modifies target`backends
    ensures var plan := PlanBackends(strategy, old(target.backends).Keys, raws);
            items == plan.items && raised == plan.raised
    ensures target.backends ==
            if dryRun then old(target.backends) else BackendsAfter(old(target.backends), strategy, raws)
  {
    items, raised := [], false;
    var existing := target.backends.Keys;
    ghost var plan, goal := PlanBackends(strategy, existing, raws), BackendsAfter(target.backends, strategy, raws);
    for n := 0 to |raws|
      invariant !raised && (dryRun ==> target.backends == old(target.backends))
      invariant BackendsContinue(
                  plan, goal, items, target.backends, PlanBackends(strategy, existing, raws[n..]), dryRun)
    {
      var (name, raw) := raws[n];
      var v := Judge(strategy, existing, name, raw);
      if v.None? {
        raised := true;
        return;
      }
      assert raws[n..][1..] == raws[n + 1..];
      BackendContinues(plan, goal, items, target.backends, strategy, existing, raws[n..], dryRun);
      if v.value.key.Some? && !dryRun {
        target.backends := target.backends[v.value.key.value := raw.settings];
      }
      existing := Extend(existing, v.value.key);
      items := items + [Item(name, Backend, v.value.status)];
    }
  }

  /** What is left of a plan after some of its items. */
  ghost predicate BackendsContinue(
    plan: Plan, goal: map<string, Settings>, items: seq<Item>, target: map<string, Settings>, rest: Plan, dryRun: bool)
  {
    && plan.items == items + rest.items && plan.raised == rest.raised
    && (!dryRun ==> goal == StoreAll(target, rest.stored))
  }

  lemma BackendContinues(
    plan: Plan, goal: map<string, Settings>, items: seq<Item>, target: map<string, Settings>,
    strategy: Strategy, existing: set<string>, raws: Mapping<RawBackend>, dryRun: bool)
    requires raws != [] && JudgeBackend(strategy, existing, raws[0].0, raws[0].1).Some?
    requires BackendsContinue(plan, goal, items, target, PlanBackends(strategy, existing, raws), dryRun)
    ensures var v := JudgeBackend(strategy, existing, raws[0].0, raws[0].1).value;
            BackendsContinue(plan, goal, items + [Item(raws[0].0, Backend, v.status)],
                             if dryRun then target else StepBackend(target, v, raws[0].1),
                             PlanBackends(strategy, Extend(existing, v.key), raws[1..]), dryRun)
  {
    PlanStep(strategy, existing, raws, target);
    var v := JudgeBackend(strategy, existing, raws[0].0, raws[0].1).value;
    var rest := PlanBackends(strategy, Extend(existing, v.key), raws[1..]);
    Regroup(items, Item(raws[0].0, Backend, v.status), rest.items);
  }

  lemma Regroup<T>(a: seq<T>, x: T, b: seq<T>)
    ensures a + ([x] + b) == (a + [x]) + b
  {
  }

  /** The verdict on one backend entry, with the search for a free name as a loop. */
  method Judge(strategy: Strategy, existing: set<string>, name: string, raw: RawBackend) returns (v: Option<Verdict>)
    ensures v == JudgeBackend(strategy, existing, name, raw)
  {
    if raw.ValidBackend? && name in existing && strategy == Rename {
      var free := GenerateRename(name, existing);
      return if free.None? then None else Some(Verdict(Renamed(free.value), Some(free.value)));
    }
    return JudgeBackend(strategy, existing, name, raw);
  }

  method ImportRegistries(target: ArgusConfig, raws: seq<RawRegistry>, strategy: Strategy, dryRun: bool)
      returns (items: seq<Item>, raised: bool)
    modifies target`registries
    ensures var plan := PlanRegistries(strategy, RegistryNames(old(target.registries)), raws);
            items == plan.items && raised == plan.raised
    ensures target.registries ==
            if dryRun then old(target.registries) else RegistriesAfter(old(target.registries), strategy, raws)
  {
    items, raised := [], false;
    var existing := RegistryNames(target.registries);
    ghost var plan, goal :=
        PlanRegistries(strategy, existing, raws), RegistriesAfter(target.registries, strategy, raws);
    for n := 0 to |raws|
      invariant !raised && (dryRun ==> target.registries == old(target.registries))
      invariant RegistriesContinue(
                  plan, goal, items, target.registries, PlanRegistries(strategy, existing, raws[n..]), dryRun)
    {
      var v := JudgeRegistry(strategy, existing, raws[n]);
      if v.None? {
        raised := true;
        return;
      }
      assert raws[n..][1..] == raws[n + 1..];
      RegistryContinues(plan, goal, items, target.registries, strategy, existing, raws[n..], dryRun);
      if !dryRun {
        target.registries := ApplyEffect(target.registries, v.value.effect);
      }
      existing := ExtendBy(existing, v.value.effect);
      items := items + [v.value.item];
    }
  }

  ghost predicate RegistriesContinue(
    plan: RegistryPlan, goal: seq<RegistryEntry>, items: seq<Item>, list: seq<RegistryEntry>, rest: RegistryPlan,
    dryRun: bool)
  {
    && plan.items == items + rest.items && plan.raised == rest.raised
    && (!dryRun ==> goal == ApplyEffects(list, rest.effects))
  }

  lemma RegistryContinues(
    plan: RegistryPlan, goal: seq<RegistryEntry>, items: seq<Item>, list: seq<RegistryEntry>,
    strategy: Strategy, existing: set<string>, raws: seq<RawRegistry>, dryRun: bool)
    requires raws != [] && JudgeRegistry(strategy, existing, raws[0]).Some?
    requires RegistriesContinue(plan, goal, items, list, PlanRegistries(strategy, existing, raws), dryRun)
    ensures var v := JudgeRegistry(strategy, existing, raws[0]).value;
            RegistriesContinue(plan, goal, items + [v.item], if dryRun then list else ApplyEffect(list, v.effect),
                               PlanRegistries(strategy, ExtendBy(existing, v.effect), raws[1..]), dryRun)
  {
    RegistryStep(strategy, existing, raws, list);
    var v := JudgeRegistry(strategy, existing, raws[0]).value;
    Regroup(items, v.item, PlanRegistries(strategy, ExtendBy(existing, v.effect), raws[1..]).items);
  }

  /** Consults the live flags; with unique keys that is the same as consulting the flags before the import. */
  method ImportFlags(target: ArgusConfig, raws: Mapping<RawFlag>, strategy: Strategy, dryRun: bool)
      returns (items: seq<Item>)
    requires UniqueKeys(raws)
    modifies target`flags
    ensures items == FlagItems(strategy, old(target.flags).Keys, raws)
    ensures target.flags == if dryRun then old(target.flags) else FlagsAfter(old(target.flags), strategy, raws)
  {
    items := [];
    for n := 0 to |raws|
      invariant items == FlagItems(strategy, old(target.flags).Keys, raws[..n])
      invariant target.flags == if dryRun then old(target.flags) else FlagsAfter(old(target.flags), strategy, raws[..n])
    {
      var (name, raw) := raws[n];
      FlagUnnamed(old(target.flags), strategy, raws[..n], name);
      var status := JudgeFlag(strategy, name in target.flags, raw);
      assert raws[..n + 1][..n] == raws[..n];
      if !dryRun && (status.Added? || status.Updated?) {
        target.flags := target.flags[name := raw.value];
      }
      items := items + [Item(name, Flag, status)];
    }
    assert raws[..|raws|] == raws;
  }

  /** Imports a payload: the report is the same for a dry run, and only a real run changes the target. */
  method ImportConfig(target: ArgusConfig, payload: Payload, o: Options, dryRun: bool)
      returns (result: Option<ImportResult>)
    requires payload.Valid()
    modifies target
    ensures result == ForecastImport(old(target.Now()), payload, o).result
    ensures target.Now() == if dryRun then old(target.Now()) else ForecastImport(old(target.Now()), payload, o).after
  {
    var errors := LimitErrors(payload, o);
    if errors != [] {
      return Some(ImportResult([], errors));
    }
    var items1, raised1 := ImportBackends(target, Selected(payload.backends, Backend in o.kinds), o.strategy, dryRun);
    if raised1 {
      return None;
    }
    var items2, raised2 :=
        ImportRegistries(target, Selected(payload.registries, Registry in o.kinds), o.strategy, dryRun);
    if raised2 {
      return None;
    }
    var items3 := ImportFlags(target, Selected(payload.flags, Flag in o.kinds), o.strategy, dryRun);
    return Some(ImportResult(items1 + items2 + items3, []));
  }

  /** A dry run right before an import predicts it exactly. */
  method PreviewThenImport(target: ArgusConfig, payload: Payload, o: Options)
      returns (preview: Option<ImportResult>, result: Option<ImportResult>)
    requires payload.Valid()
    modifies target
    ensures preview == result
    ensures target.Now() == ForecastImport(old(target.Now()), payload, o).after
  {
    preview := ImportConfig(target, payload, o, true);
    result := ImportConfig(target, payload, o, false);
  }

  // ---------------------------------------------------------------------------------------------
  // Imports that break off

  /** An import raises exactly when it is within its limits, renames, and an entry of a selected section finds no name
      left; otherwise it reports. */
  lemma ImportRaisesExactlyWhen(s: Snapshot, payload: Payload, o: Options)
    ensures var backends := Selected(payload.backends, Backend in o.kinds);
            var registries := Selected(payload.registries, Registry in o.kinds);
            ForecastImport(s, payload, o).result.None? <==>
              && LimitErrors(payload, o) == [] && o.strategy == Rename
              && ((exists i :: 0 <= i < |backends| && NoNameLeft(Rename, s.backends.Keys, backends, i))
                  || (exists i :: 0 <= i < |registries|
                              && NoRegistryNameLeft(Rename, RegistryNames(s.registries), registries, i)))
  {
    BackendsRaiseExactlyWhen(o.strategy, s.backends.Keys, Selected(payload.backends, Backend in o.kinds));
    var registries := Selected(payload.registries, Registry in o.kinds);
    RegistriesRaiseExactlyWhen(o.strategy, RegistryNames(s.registries), registries);
  }

  /** A configuration and a payload with at most 1000 names of each kind together never raise. */
  lemma SmallImportReports(s: Snapshot, payload: Payload, o: Options)
    requires |s.backends| + Length(payload.backends) <= 1000
    requires |RegistryNames(s.registries)| + Length(payload.registries) <= 1000
    ensures ForecastImport(s, payload, o).result.Some?
  {
    FewBackendsNeverRaise(o.strategy, s.backends.Keys, Selected(payload.backends, Backend in o.kinds));
    FewRegistriesNeverRaise(o.strategy, RegistryNames(s.registries), Selected(payload.registries, Registry in o.kinds));
  }

  /** A new backend `b`, then one whose name `a` is taken with all its candidates: the import raises and keeps `b`. */
  lemma RaisedImportKeepsEarlier(s: Snapshot, o: Options, a: string, b: string, x: Settings, y: Settings)
    requires a in s.backends && b !in s.backends && AllTaken(a, s.backends.Keys)
    requires o.strategy == Rename && Backend in o.kinds && o.maxBackends >= 2 && o.maxRegistries >= 0
    ensures var payload := Payload(Some(Entries([(b, ValidBackend(x)), (a, ValidBackend(y))])), None, None);
            var forecast := ForecastImport(s, payload, o);
            payload.Valid() && forecast == Forecast(None, s.(backends := s.backends[b := x])) && forecast.after != s
  {
    var first, second := (b, ValidBackend(x)), (a, ValidBackend(y));
    var raws := [first, second];
    var next := s.backends[b := x];
    assert raws[1..] == [second];
    UnfoldBackends(s.backends, Rename, raws);
    PlanStep(Rename, s.backends.Keys, raws, s.backends);
    RenameFailsOnlyWhenFull(a, next.Keys);
    assert JudgeBackend(Rename, next.Keys, a, second.1).None?;
    assert PlanBackends(Rename, next.Keys, [second]) == Plan([], [], true);
    assert BackendsAfter(next, Rename, [second]) == next;
    assert b in next && b !in s.backends;
  }

  /** Such configurations exist: the name and its first `n` candidates. */
  function Crowded(name: string, n: nat, x: Settings): Snapshot {
    Snapshot(map k | k in {name} + Candidates(name, n) :: x, [], map[])
  }

  /** The import of "b" and "a" into a configuration that holds "a", "a_1" and so on up to "a_999". */
  lemma BrokenOffImport(x: Settings, o: Options)
    requires o.strategy == Rename && Backend in o.kinds && o.maxBackends >= 2 && o.maxRegistries >= 0
    ensures var s := Crowded("a", 999, x);
            var payload := Payload(Some(Entries([("b", ValidBackend(x)), ("a", ValidBackend(x))])), None, None);
            ForecastImport(s, payload, o).result.None? && ForecastImport(s, payload, o).after != s
  {
    CrowdedIsFull("a", 999, x);
    assert "a"[0] != "b"[0];
    OtherName("a", "b", 999);
    RaisedImportKeepsEarlier(Crowded("a", 999, x), o, "a", "b", x, x);
  }

  lemma CrowdedIsFull(name: string, n: nat, x: Settings)
    ensures name in Crowded(name, n, x).backends
    ensures forall i :: 1 <= i <= n ==> Candidate(name, i) in Crowded(name, n, x).backends
  {
    forall i | 1 <= i <= n ensures Candidate(name, i) in Crowded(name, n, x).backends { CandidateListed(name, n, i); }
  }

  lemma {:induction false} OtherName(name: string, other: string, n: nat)
    requires !(name <= other)
    ensures other != name && other !in Candidates(name, n)
  {
    if n == 0 {
    } else {
      OtherName(name, other, n - 1);
      assert name <= Candidate(name, n);
    }
  }

  // ---------------------------------------------------------------------------------------------
  // Limits and sections

  /** The section is well formed and has more entries than allowed; an absent one has none. */
  ghost predicate TooLong<T(!new)>(section: Option<Section<T>>, most: int) {
    (section == None && most < 0) || exists entries :: section == Some(Entries(entries)) && |entries| > most
  }

  /** An import reports limit errors exactly for the sections above their limits, and then it reports nothing else and
      changes nothing. */
  lemma RefusedExactlyWhen(s: Snapshot, payload: Payload, o: Options)
    ensures var forecast := ForecastImport(s, payload, o);
            var refused := TooLong(payload.backends, o.maxBackends) || TooLong(payload.registries, o.maxRegistries);
            && (refused <==> forecast.result.Some? && forecast.result.value.errors != [])
            && (refused ==> forecast.result.value.items == [] && forecast.after == s)
    ensures (exists n :: TooManyBackends(n) in LimitErrors(payload, o)) <==> TooLong(payload.backends, o.maxBackends)
    ensures (exists n :: TooManyRegistries(n) in LimitErrors(payload, o)) <==>
            TooLong(payload.registries, o.maxRegistries)
  {
    LongExactly(payload.backends, o.maxBackends);
    LongExactly(payload.registries, o.maxRegistries);
    var errors := LimitErrors(payload, o);
    if TooLong(payload.backends, o.maxBackends) { assert errors[0] in errors; }
    if TooLong(payload.registries, o.maxRegistries) { assert errors[|errors| - 1] in errors; }
  }

  lemma LongExactly<T(!new)>(section: Option<Section<T>>, most: int)
    ensures TooLong(section, most) <==> Exceeds(section, most)
  {
    if section.Some? && section.value.Entries? { assert section == Some(Entries(section.value.entries)); }
  }

  /** An import that is not refused and does not raise changes each selected, well-formed section as planned, and leaves
      the others alone. */
  lemma SectionsExactly(s: Snapshot, payload: Payload, o: Options)
    requires ForecastImport(s, payload, o).result.Some? && ForecastImport(s, payload, o).result.value.errors == []
    ensures var after := ForecastImport(s, payload, o).after;
            && (forall es :: Backend in o.kinds && payload.backends == Some(Entries(es)) ==>
                  after.backends == BackendsAfter(s.backends, o.strategy, es))
            && (forall es :: Registry in o.kinds && payload.registries == Some(Entries(es)) ==>
                  after.registries == RegistriesAfter(s.registries, o.strategy, es))
            && (forall es :: Flag in o.kinds && payload.flags == Some(Entries(es)) ==>
                  after.flags == FlagsAfter(s.flags, o.strategy, es))
            && (Backend !in o.kinds || payload.backends in {None, Some(Malformed)} ==> after.backends == s.backends)
            && (Registry !in o.kinds || payload.registries in {None, Some(Malformed)} ==>
                  after.registries == s.registries)
            && (Flag !in o.kinds || payload.flags in {None, Some(Malformed)} ==> after.flags == s.flags)
  {
  }

  /** The entries are those of a selected, well-formed section, or none. */
  ghost predicate IsSelection<T>(section: Option<Section<T>>, selected: bool, entries: seq<T>) {
    if selected && section != None && section != Some(Malformed) then section == Some(Entries(entries))
    else entries == []
  }

  /** The items of the selected, well-formed sections, in that order, are the whole report. */
  lemma ReportExactly(
    s: Snapshot, payload: Payload, o: Options, bs: Mapping<RawBackend>, rs: seq<RawRegistry>, fs: Mapping<RawFlag>)
    requires ForecastImport(s, payload, o).result.Some? && ForecastImport(s, payload, o).result.value.errors == []
    requires IsSelection(payload.backends, Backend in o.kinds, bs)
    requires IsSelection(payload.registries, Registry in o.kinds, rs)
    requires IsSelection(payload.flags, Flag in o.kinds, fs)
    ensures ForecastImport(s, payload, o).result.value.items
         == PlanBackends(o.strategy, s.backends.Keys, bs).items
            + PlanRegistries(o.strategy, RegistryNames(s.registries), rs).items
            + FlagItems(o.strategy, s.flags.Keys, fs)
  {
  }
}
