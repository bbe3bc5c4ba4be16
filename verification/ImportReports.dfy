/** What exactly each item of an import reports. */
module ImportReports {
  import opened Common
  import opened ImportPlan

  /** The rename of a taken name: its first candidate that is free. */
  ghost predicate FirstFreeName(name: string, taken: set<string>, n: string) {
    exists j :: 1 <= j <= 999 && n == Candidate(name, j) && n !in taken
             && forall k :: 1 <= k < j ==> Candidate(name, k) in taken
  }

  /** A candidate is the name, an underscore and a decimal number. */
  lemma {:induction false} CandidateForm(name: string, i: nat)
    ensures name + "_" <= Candidate(name, i) && Spells(Candidate(name, i)[|name| + 1..]) == i
  {
    assert Candidate(name, i)[|name + "_"|..] == Decimal(i);
    DecimalSpells(i);
  }

  lemma FirstFreeExactly(name: string, taken: set<string>, n: string, i: nat)
    requires i == 1
    ensures FirstFree(name, taken, i) == Some(n) ==> FirstFreeName(name, taken, n)
  {
    var j := FirstFreeIsLeast(name, taken, i);
  }

  /** The status of a valid entry: added exactly if its name is free, and otherwise what the strategy says. */
  ghost predicate ReportsValid(strategy: Strategy, taken: set<string>, name: string, status: Status) {
    if name !in taken then status == Added
    else
      match strategy
      case Skip => status == Skipped
      case Update => status == Updated
      case Fail => status == Failed(Exists)
      case Rename => status.Renamed? && FirstFreeName(name, taken, status.newName)
  }

  /** What the item of a registry entry reports, given the names held before it. */
  ghost predicate ReportsRegistry(strategy: Strategy, taken: set<string>, raw: RawRegistry, item: Item) {
    match raw
    case OddRegistry(title) => item == Item(title, Registry, Failed(NotAMapping))
    case RefusedRegistry(title) => item == Item(title, Registry, Failed(Invalid))
    case ValidRegistry(entry) =>
      item.name == entry.name && item.kind == Registry && ReportsValid(strategy, taken, entry.name, item.status)
  }

  /** The same for a backend entry. */
  ghost predicate ReportsBackend(strategy: Strategy, taken: set<string>, name: string, raw: RawBackend, item: Item) {
    && item.name == name && item.kind == Backend
    && match raw
       case OddBackend => item.status == Failed(NotAMapping)
       case RefusedBackend => item.status == Failed(Invalid)
       case ValidBackend(_) => ReportsValid(strategy, taken, name, item.status)
  }

  /** Every registry item reports exactly what its entry and the registries held before it call for. */
  lemma {:induction false} RegistryItemsAreExact(
    list: seq<RegistryEntry>, strategy: Strategy, raws: seq<RawRegistry>, i: nat)
    requires i < |PlanRegistries(strategy, RegistryNames(list), raws).items|
    ensures i < |raws|
    ensures ReportsRegistry(strategy, RegistryNames(RegistriesAfter(list, strategy, raws[..i])), raws[i],
                            PlanRegistries(strategy, RegistryNames(list), raws).items[i])
    decreases |raws|
  {
    var v := JudgeRegistry(strategy, RegistryNames(list), raws[0]).value;
    UnfoldRegistries(list, strategy, raws);
    var next := ApplyEffect(list, v.effect);
    if i == 0 {
      assert raws[..0] == [];
      assert RegistriesAfter(list, strategy, []) == list;
      if raws[0].ValidRegistry? && v.item.status.Renamed? {
        FirstFreeExactly(raws[0].entry.name, RegistryNames(list), v.item.status.newName, 1);
      }
    } else {
      RegistryItemsAreExact(next, strategy, raws[1..], i - 1);
      assert raws[..i][0] == raws[0] && raws[..i][1..] == raws[1..][..i - 1];
      UnfoldRegistries(list, strategy, raws[..i]);
    }
  }

  /** Every backend item reports exactly what its entry and the backends held before it call for. */
  lemma {:induction false} BackendItemsAreExact(
    target: map<string, Settings>, strategy: Strategy, raws: Mapping<RawBackend>, i: nat)
    requires i < |PlanBackends(strategy, target.Keys, raws).items|
    ensures i < |raws|
    ensures ReportsBackend(strategy, BackendsAfter(target, strategy, raws[..i]).Keys, raws[i].0, raws[i].1,
                           PlanBackends(strategy, target.Keys, raws).items[i])
    decreases |raws|
  {
    var v := JudgeBackend(strategy, target.Keys, raws[0].0, raws[0].1).value;
    UnfoldBackends(target, strategy, raws);
    var next := StepBackend(target, v, raws[0].1);
    if i == 0 {
      assert raws[..0] == [];
      assert BackendsAfter(target, strategy, []) == target;
      if v.status.Renamed? { FirstFreeExactly(raws[0].0, target.Keys, v.status.newName, 1); }
    } else {
      BackendItemsAreExact(next, strategy, raws[1..], i - 1);
      assert raws[..i][0] == raws[0] && raws[..i][1..] == raws[1..][..i - 1];
      UnfoldBackends(target, strategy, raws[..i]);
    }
  }

  /** What a flag item reports. */
  ghost predicate ReportsFlag(strategy: Strategy, existing: set<string>, name: string, raw: RawFlag, item: Item) {
    && item.name == name && item.kind == Flag
    && (item.status == Failed(NotBoolean) <==> raw.OddFlag?)
    && (item.status == Added <==> raw.ValidFlag? && name !in existing)
    && (item.status == Skipped <==> raw.ValidFlag? && name in existing && strategy == Skip)
    && (item.status == Failed(Exists) <==> raw.ValidFlag? && name in existing && strategy == Fail)
    && (item.status == Updated <==> raw.ValidFlag? && name in existing && (strategy == Update || strategy == Rename))
  }

  ghost predicate SameFlag(a: map<string, bool>, b: map<string, bool>, k: string) {
    (k in a <==> k in b) && (k in a ==> a[k] == b[k])
  }

  /** Every flag entry yields one item that reports exactly what the entry and the flags before the import call for;
      an entry that is not reported added or updated changes nothing. */
  lemma FlagItemsAreExact(flags: map<string, bool>, strategy: Strategy, raws: Mapping<RawFlag>, i: nat)
    requires UniqueKeys(raws) && i < |raws|
    ensures |FlagItems(strategy, flags.Keys, raws)| == |raws|
    ensures ReportsFlag(strategy, flags.Keys, raws[i].0, raws[i].1, FlagItems(strategy, flags.Keys, raws)[i])
    ensures var status, after := FlagItems(strategy, flags.Keys, raws)[i].status, FlagsAfter(flags, strategy, raws);
            !(status.Added? || status.Updated?) ==> SameFlag(flags, after, raws[i].0)
  {
    FlagKept(flags, strategy, raws, i);
  }

  lemma {:induction false} FlagKept(flags: map<string, bool>, strategy: Strategy, raws: Mapping<RawFlag>, i: nat)
    requires UniqueKeys(raws) && i < |raws|
    ensures var status, after := JudgeFlag(strategy, raws[i].0 in flags, raws[i].1), FlagsAfter(flags, strategy, raws);
            !(status.Added? || status.Updated?) ==> SameFlag(flags, after, raws[i].0)
  {
    var n := |raws| - 1;
    if i == n {
      FlagUnnamed(flags, strategy, raws[..n], raws[n].0);
    } else {
      FlagKept(flags, strategy, raws[..n], i);
    }
  }
}
