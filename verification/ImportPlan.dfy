/** What an import decides about each entry, and what that does to the target (argus_mcp/config/import_handler.py). */
module ImportPlan {
  import opened Common

  datatype Strategy = Skip | Update | Rename | Fail

  datatype Reason = NotAMapping | Invalid | Exists | NotBoolean

  datatype Status = Added | Updated | Skipped | Renamed(newName: string) | Failed(reason: Reason)

  datatype Kind = Backend | Registry | Flag

  datatype Item = Item(name: string, kind: Kind, status: Status)

  /** A validated configuration model; its content does not matter here. */
  type Settings = string

  /** A raw backend entry: not a mapping, refused by validation, or valid. */
  datatype RawBackend = OddBackend | RefusedBackend | ValidBackend(settings: Settings)

  datatype RegistryEntry = RegistryEntry(name: string, settings: Settings)

  /** A raw registry entry. `title` is the name a bad one is reported under: its own, or one made from its position. */
  datatype RawRegistry =
    | OddRegistry(title: string)
    | RefusedRegistry(title: string)
    | ValidRegistry(entry: RegistryEntry)

  datatype RawFlag = OddFlag | ValidFlag(value: bool)

  /** A mapping in document order. */
  type Mapping<T> = seq<(string, T)>

  /** Keys of a mapping occur once. */
  predicate UniqueKeys<T>(m: Mapping<T>) {
    forall i, j :: 0 <= i < j < |m| ==> m[i].0 != m[j].0
  }

  // ---------------------------------------------------------------------------------------------
  // Generated names

  function Digit(d: nat): (c: char)
    requires d < 10
    ensures c as int == '0' as int + d
  {
    ('0' as int + d) as char
  }

  function Decimal(n: nat): string {
    (if n >= 10 then Decimal(n / 10) else []) + [Digit(n % 10)]
  }

  function Candidate(name: string, i: nat): string {
    name + "_" + Decimal(i)
  }

  /** The first free candidate from number `i` on. */
  function FirstFree(name: string, existing: set<string>, i: nat): (r: Option<string>)
    requires i <= 1000
    ensures r.Some? ==> r.value !in existing
    decreases 1000 - i, existing
  {
    if i == 1000 then None
    else if Candidate(name, i) !in existing then Some(Candidate(name, i))
    else FirstFree(name, existing, i + 1)
  }

  /** The name found is the candidate with the least free number; none is found exactly when all are taken. */
  lemma {:induction false} FirstFreeIsLeast(name: string, existing: set<string>, i: nat) returns (j: nat)
    requires i <= 1000
    ensures i <= j <= 1000 && forall k :: i <= k < j ==> Candidate(name, k) in existing
    ensures j < 1000 ==> FirstFree(name, existing, i) == Some(Candidate(name, j))
    ensures j == 1000 <==> FirstFree(name, existing, i).None?
    decreases 1000 - i
  {
    j := i;
    if i < 1000 && Candidate(name, i) in existing { j := FirstFreeIsLeast(name, existing, i + 1); }
  }

  method GenerateRename(name: string, existing: set<string>) returns (r: Option<string>)
    ensures r == FirstFree(name, existing, 1)
  {
    for i := 1 to 1000
      invariant FirstFree(name, existing, 1) == FirstFree(name, existing, i)
    {
      var candidate := Candidate(name, i);
      if candidate !in existing {
        return Some(candidate);
      }
    }
    return None;
  }

  /** The number a decimal string spells. */
  ghost function Spells(s: string): int {
    if s == "" then 0 else Spells(s[..|s| - 1]) * 10 + (s[|s| - 1] as int - '0' as int)
  }

  lemma {:induction false} DecimalSpells(n: nat)
    ensures Spells(Decimal(n)) == n
  {
    var digit := Digit(n % 10);
    var front := if n >= 10 then Decimal(n / 10) else [];
    assert Decimal(n) == front + [digit] && (front + [digit])[..|front|] == front;
    if n >= 10 { DecimalSpells(n / 10); }
  }

  lemma CandidatesDiffer(name: string, i: nat, j: nat)
    requires Candidate(name, i) == Candidate(name, j)
    ensures i == j
  {
    var head := name + "_";
    assert Decimal(i) == Candidate(name, i)[|head|..] && Decimal(j) == Candidate(name, j)[|head|..];
    DecimalSpells(i);
    DecimalSpells(j);
  }

  function Candidates(name: string, n: nat): set<string> {
    if n == 0 then {} else Candidates(name, n - 1) + {Candidate(name, n)}
  }

  lemma {:induction false} LaterCandidateIsNew(name: string, n: nat, m: nat)
    requires m > n
    ensures Candidate(name, m) !in Candidates(name, n)
  {
    if n == 0 {
    } else {
      LaterCandidateIsNew(name, n - 1, m);
      if Candidate(name, m) == Candidate(name, n) { CandidatesDiffer(name, m, n); }
    }
  }

  lemma {:induction false} CountCandidates(name: string, n: nat, existing: set<string>)
    requires forall i :: 1 <= i <= n ==> Candidate(name, i) in existing
    ensures |Candidates(name, n)| == n && Candidates(name, n) <= existing
  {
    if n == 0 {
    } else {
      CountCandidates(name, n - 1, existing);
      LaterCandidateIsNew(name, n - 1, n);
      var earlier, next := Candidates(name, n - 1), Candidate(name, n);
      assert |earlier + {next}| == |earlier| + 1;
    }
  }

  lemma SubsetIsSmaller<T>(a: set<T>, b: set<T>)
    requires a <= b
    ensures |a| <= |b|
  {
    assert b == a + (b - a);
  }

  /** All names that a rename would try are in use. */
  ghost predicate AllTaken(name: string, existing: set<string>) {
    forall i :: 1 <= i <= 999 ==> Candidate(name, i) in existing
  }

  /** Renaming a name that is in use fails exactly when all its candidates are, so never among fewer than 1000 names. */
  lemma RenameFailsOnlyWhenFull(name: string, existing: set<string>)
    ensures FirstFree(name, existing, 1).None? <==> AllTaken(name, existing)
    ensures name in existing && FirstFree(name, existing, 1).None? ==> |existing| >= 1000
  {
    var j := FirstFreeIsLeast(name, existing, 1);
    if name in existing && AllTaken(name, existing) { TakenNames(name, existing, 999); }
  }

  lemma TakenNames(name: string, existing: set<string>, n: nat)
    requires name in existing && forall i :: 1 <= i <= n ==> Candidate(name, i) in existing
    ensures |existing| >= n + 1
  {
    CountCandidates(name, n, existing);
    NotItsCandidate(name, n);
    SubsetIsSmaller(Candidates(name, n) + {name}, existing);
  }

  lemma {:induction false} NotItsCandidate(name: string, n: nat)
    ensures name !in Candidates(name, n)
  {
    if n == 0 {
    } else {
      NotItsCandidate(name, n - 1);
      assert |Candidate(name, n)| > |name|;
    }
  }

  lemma {:induction false} CandidateListed(name: string, n: nat, i: nat)
    requires 1 <= i <= n
    ensures Candidate(name, i) in Candidates(name, n)
  {
    if i == n {
    } else {
      CandidateListed(name, n - 1, i);
    }
  }

  // ---------------------------------------------------------------------------------------------
  // Backends

  /** What one backend entry leads to: its status, and the key it is stored under if it is stored. */
  datatype Verdict = Verdict(status: Status, key: Option<string>)

  /** `None` when no free name is left. */
  function JudgeBackend(strategy: Strategy, existing: set<string>, name: string, raw: RawBackend): Option<Verdict> {
    match raw
    case OddBackend => Some(Verdict(Failed(NotAMapping), None))
    case RefusedBackend => Some(Verdict(Failed(Invalid), None))
    case ValidBackend(_) =>
      if name !in existing then Some(Verdict(Added, Some(name)))
      else
        match strategy
        case Fail => Some(Verdict(Failed(Exists), None))
        case Skip => Some(Verdict(Skipped, None))
        case Update => Some(Verdict(Updated, Some(name)))
        case Rename =>
          var free := FirstFree(name, existing, 1);
          if free.None? then None else Some(Verdict(Renamed(free.value), Some(free.value)))
  }

  function Extend(existing: set<string>, key: Option<string>): set<string> {
    if key.Some? then existing + {key.value} else existing
  }

  /** The items and the stored bindings of a whole section; `raised` when a rename failed. */
  datatype Plan = Plan(items: seq<Item>, stored: seq<(string, Settings)>, raised: bool)

  function PlanBackends(strategy: Strategy, existing: set<string>, raws: Mapping<RawBackend>): Plan
    decreases |raws|
  {
    if raws == [] then Plan([], [], false)
    else
      var (name, raw) := raws[0];
      var v := JudgeBackend(strategy, existing, name, raw);
      if v.None? then Plan([], [], true)
      else
        var rest := PlanBackends(strategy, Extend(existing, v.value.key), raws[1..]);
        Plan([Item(name, Backend, v.value.status)] + rest.items,
             (if v.value.key.Some? then [(v.value.key.value, raw.settings)] else []) + rest.stored,
             rest.raised)
  }

  function StoreAll(target: map<string, Settings>, stored: seq<(string, Settings)>): map<string, Settings>
    decreases |stored|
  {
    if stored == [] then target else StoreAll(target[stored[0].0 := stored[0].1], stored[1..])
  }

  function BackendsAfter(
    target: map<string, Settings>, strategy: Strategy, raws: Mapping<RawBackend>): map<string, Settings>
  {
    StoreAll(target, PlanBackends(strategy, target.Keys, raws).stored)
  }

  /** How many new names the items report. */
  function NewNames(items: seq<Item>): nat {
    if items == [] then 0
    else (if items[0].status.Added? || items[0].status.Renamed? then 1 else 0) + NewNames(items[1..])
  }

  /** Every raw entry yields exactly one item, in order and under its own name. */
  lemma {:induction false} OneItemEach(strategy: Strategy, existing: set<string>, raws: Mapping<RawBackend>)
    requires !PlanBackends(strategy, existing, raws).raised
    ensures var items := PlanBackends(strategy, existing, raws).items;
            |items| == |raws| && forall i :: 0 <= i < |raws| ==> items[i].name == raws[i].0 && items[i].kind == Backend
    decreases |raws|
  {
    if raws == [] {
    } else {
      var v := JudgeBackend(strategy, existing, raws[0].0, raws[0].1);
      OneItemEach(strategy, Extend(existing, v.value.key), raws[1..]);
    }
  }

  /** The bindings of `a` are all in `b`. */
  ghost predicate Preserves(a: map<string, Settings>, b: map<string, Settings>) {
    forall k :: k in a ==> k in b && b[k] == a[k]
  }

  function StepBackend(target: map<string, Settings>, v: Verdict, raw: RawBackend): map<string, Settings>
    requires v.key.Some? ==> raw.ValidBackend?
  {
    if v.key.Some? then target[v.key.value := raw.settings] else target
  }

  /** One step of a plan, on any configuration it is applied to. */
  lemma PlanStep(strategy: Strategy, existing: set<string>, raws: Mapping<RawBackend>, target: map<string, Settings>)
    requires raws != [] && JudgeBackend(strategy, existing, raws[0].0, raws[0].1).Some?
    ensures var v := JudgeBackend(strategy, existing, raws[0].0, raws[0].1).value;
            var plan, rest :=
                PlanBackends(strategy, existing, raws), PlanBackends(strategy, Extend(existing, v.key), raws[1..]);
            && plan.items == [Item(raws[0].0, Backend, v.status)] + rest.items && plan.raised == rest.raised
            && StoreAll(target, plan.stored) == StoreAll(StepBackend(target, v, raws[0].1), rest.stored)
  {
    var v := JudgeBackend(strategy, existing, raws[0].0, raws[0].1).value;
    var rest := PlanBackends(strategy, Extend(existing, v.key), raws[1..]).stored;
    if v.key.Some? {
      assert ([(v.key.value, raws[0].1.settings)] + rest)[1..] == rest;
    } else {
      assert [] + rest == rest;
    }
  }

  lemma UnfoldBackends(target: map<string, Settings>, strategy: Strategy, raws: Mapping<RawBackend>)
    requires raws != [] && JudgeBackend(strategy, target.Keys, raws[0].0, raws[0].1).Some?
    ensures var v := JudgeBackend(strategy, target.Keys, raws[0].0, raws[0].1).value;
            var next := StepBackend(target, v, raws[0].1);
            && next.Keys == Extend(target.Keys, v.key)
            && BackendsAfter(target, strategy, raws) == BackendsAfter(next, strategy, raws[1..])
            && PlanBackends(strategy, target.Keys, raws).items
               == [Item(raws[0].0, Backend, v.status)] + PlanBackends(strategy, next.Keys, raws[1..]).items
  {
    var v := JudgeBackend(strategy, target.Keys, raws[0].0, raws[0].1).value;
    assert StepBackend(target, v, raws[0].1).Keys == Extend(target.Keys, v.key);
    PlanStep(strategy, target.Keys, raws, target);
  }

  /** What an item reports is what the configuration then holds. */
  ghost predicate Honest(item: Item, raw: RawBackend, strategy: Strategy, after: map<string, Settings>) {
    match item.status
    case Added => raw.ValidBackend? && item.name in after && after[item.name] == raw.settings
    case Updated => strategy == Update && raw.ValidBackend? && item.name in after && after[item.name] == raw.settings
    case Renamed(n) =>
      strategy == Rename && raw.ValidBackend? && item.name in after && n in after && after[n] == raw.settings
    case Skipped => strategy == Skip && raw.ValidBackend? && item.name in after
    case Failed(reason) =>
      && (reason == NotAMapping <==> raw.OddBackend?) && (reason == Invalid <==> raw.RefusedBackend?)
      && (reason == Exists ==> strategy == Fail && item.name in after) && reason != NotBoolean
  }

  /** Later entries leave a key alone unless they update it by name. */
  lemma {:induction false} KeyStays(
    target: map<string, Settings>, strategy: Strategy, raws: Mapping<RawBackend>, k: string)
    requires k in target && (strategy == Update ==> forall i :: 0 <= i < |raws| ==> raws[i].0 != k)
    ensures k in BackendsAfter(target, strategy, raws) && BackendsAfter(target, strategy, raws)[k] == target[k]
    decreases |raws|
  {
    if raws == [] {
    } else {
      var v := JudgeBackend(strategy, target.Keys, raws[0].0, raws[0].1);
      if v.Some? {
        UnfoldBackends(target, strategy, raws);
        KeyStays(StepBackend(target, v.value, raws[0].1), strategy, raws[1..], k);
      }
    }
  }

  /** Skip, fail and rename never touch an existing backend, even when the import breaks off. */
  lemma ImportPreserves(target: map<string, Settings>, strategy: Strategy, raws: Mapping<RawBackend>)
    requires strategy != Update
    ensures Preserves(target, BackendsAfter(target, strategy, raws))
  {
    forall k | k in target
      ensures k in BackendsAfter(target, strategy, raws) && BackendsAfter(target, strategy, raws)[k] == target[k]
    {
      KeyStays(target, strategy, raws, k);
    }
  }

  /** For every strategy the number of backends grows by exactly the items reported added or renamed. */
  lemma {:induction false} ImportCounts(target: map<string, Settings>, strategy: Strategy, raws: Mapping<RawBackend>)
    ensures |BackendsAfter(target, strategy, raws)|
         == |target| + NewNames(PlanBackends(strategy, target.Keys, raws).items)
    decreases |raws|
  {
    if raws == [] {
    } else {
      var v := JudgeBackend(strategy, target.Keys, raws[0].0, raws[0].1);
      if v.Some? {
        var next := StepBackend(target, v.value, raws[0].1);
        UnfoldBackends(target, strategy, raws);
        ImportCounts(next, strategy, raws[1..]);
        StepCounts(target, v.value, raws[0].1);
        NewNamesMore(Item(raws[0].0, Backend, v.value.status), PlanBackends(strategy, next.Keys, raws[1..]).items);
      }
    }
  }

  lemma NewNamesMore(first: Item, rest: seq<Item>)
    ensures NewNames([first] + rest) == NewNames(rest) + if first.status.Added? || first.status.Renamed? then 1 else 0
  {
    assert ([first] + rest)[1..] == rest;
  }

  lemma StepCounts(target: map<string, Settings>, v: Verdict, raw: RawBackend)
    requires v.key.Some? ==> raw.ValidBackend?
    ensures |StepBackend(target, v, raw)| == |target| + if v.key.Some? && v.key.value !in target then 1 else 0
  {
    if v.key.Some? {
      var next := StepBackend(target, v, raw);
      assert next.Keys == target.Keys + {v.key.value};
      assert v.key.value in target ==> next.Keys == target.Keys;
      assert |next| == |next.Keys| && |target| == |target.Keys|;
    }
  }

  /** Every reported item of a real import is honest, for every strategy. */
  lemma {:induction false} ItemsAreHonest(target: map<string, Settings>, strategy: Strategy, raws: Mapping<RawBackend>)
    requires UniqueKeys(raws)
    ensures var items := PlanBackends(strategy, target.Keys, raws).items;
            |items| <= |raws| && forall i :: 0 <= i < |items| ==>
                Honest(items[i], raws[i].1, strategy, BackendsAfter(target, strategy, raws))
    decreases |raws|
  {
    if raws == [] {
    } else {
      var v := JudgeBackend(strategy, target.Keys, raws[0].0, raws[0].1);
      if v.Some? {
        UnfoldBackends(target, strategy, raws);
        var next := StepBackend(target, v.value, raws[0].1);
        ItemsAreHonest(next, strategy, raws[1..]);
        var after := BackendsAfter(target, strategy, raws);
        assert Honest(Item(raws[0].0, Backend, v.value.status), raws[0].1, strategy, after) by {
          if v.value.key.Some? { KeyStays(next, strategy, raws[1..], v.value.key.value); }
          if raws[0].0 in target { KeyStays(next, strategy, raws[1..], raws[0].0); }
        }
        var rest := PlanBackends(strategy, next.Keys, raws[1..]).items;
        forall i | 1 <= i < 1 + |rest| ensures Honest(rest[i - 1], raws[i].1, strategy, after) {
          assert raws[1..][i - 1] == raws[i];
        }
      }
    }
  }

  /** With update, a backend differs afterwards only if an item reports it updated; new keys are reported added. */
  lemma {:induction false} OnlyReportedChange(
    target: map<string, Settings>, strategy: Strategy, raws: Mapping<RawBackend>, k: string)
    ensures var after, items := BackendsAfter(target, strategy, raws), PlanBackends(strategy, target.Keys, raws).items;
            && (k in target && !(k in after && after[k] == target[k]) ==>
                  k in after && Reports(items, Item(k, Backend, Updated)))
            && (k in after && k !in target ==> Reports(items, Item(k, Backend, Added)) || ReportsRename(items, k))
    decreases |raws|
  {
    if raws == [] {
    } else {
      var v := JudgeBackend(strategy, target.Keys, raws[0].0, raws[0].1);
      if v.Some? {
        UnfoldBackends(target, strategy, raws);
        var next := StepBackend(target, v.value, raws[0].1);
        OnlyReportedChange(next, strategy, raws[1..], k);
        var first, rest := Item(raws[0].0, Backend, v.value.status), PlanBackends(strategy, next.Keys, raws[1..]).items;
        ReportsMore(first, rest, Item(k, Backend, Updated));
        ReportsMore(first, rest, Item(k, Backend, Added));
        RenameReportsMore(first, rest, k);
      }
    }
  }

  ghost predicate Reports(items: seq<Item>, item: Item) {
    item in items
  }

  ghost predicate ReportsRename(items: seq<Item>, k: string) {
    exists i :: 0 <= i < |items| && items[i].status == Renamed(k)
  }

  lemma ReportsMore(first: Item, rest: seq<Item>, item: Item)
    ensures Reports([first] + rest, item) <==> first == item || Reports(rest, item)
  {
  }

  lemma RenameReportsMore(first: Item, rest: seq<Item>, k: string)
    ensures ReportsRename([first] + rest, k) <==> first.status == Renamed(k) || ReportsRename(rest, k)
  {
    var all := [first] + rest;
    assert all[0] == first && forall i :: 0 <= i < |rest| ==> all[i + 1] == rest[i];
    if ReportsRename(all, k) {
      var i :| 0 <= i < |all| && all[i].status == Renamed(k);
      assert i == 0 || rest[i - 1] == all[i];
    }
  }

  // ---------------------------------------------------------------------------------------------
  // When a rename breaks an import off

  ghost function KeysOf(stored: seq<(string, Settings)>): set<string> {
    set b | b in stored :: b.0
  }

  /** The names in use when entry `i` is reached: those before the import and those stored by earlier entries. */
  ghost function TakenBefore(strategy: Strategy, existing: set<string>, raws: Mapping<RawBackend>, i: nat): set<string>
    requires i <= |raws|
  {
    existing + KeysOf(PlanBackends(strategy, existing, raws[..i]).stored)
  }

  /** Entry `i` is valid, its name is taken, and so are all names it could be renamed to. */
  ghost predicate NoNameLeft(strategy: Strategy, existing: set<string>, raws: Mapping<RawBackend>, i: nat)
    requires i < |raws|
  {
    var taken := TakenBefore(strategy, existing, raws, i);
    raws[i].1.ValidBackend? && raws[i].0 in taken && AllTaken(raws[i].0, taken)
  }

  lemma TakenAfterFirst(strategy: Strategy, existing: set<string>, raws: Mapping<RawBackend>, i: nat)
    requires 1 <= i <= |raws| && JudgeBackend(strategy, existing, raws[0].0, raws[0].1).Some?
    ensures var v := JudgeBackend(strategy, existing, raws[0].0, raws[0].1).value;
            TakenBefore(strategy, existing, raws, i) == TakenBefore(strategy, Extend(existing, v.key), raws[1..], i - 1)
  {
    var v := JudgeBackend(strategy, existing, raws[0].0, raws[0].1).value;
    var before, next := raws[..i], Extend(existing, v.key);
    assert before[0] == raws[0] && before[1..] == raws[1..][..i - 1];
    var rest := PlanBackends(strategy, next, before[1..]).stored;
    if v.key.Some? {
      var first := (v.key.value, raws[0].1.settings);
      assert PlanBackends(strategy, existing, before).stored == [first] + rest;
      assert KeysOf([first] + rest) == {first.0} + KeysOf(rest);
    } else {
      assert PlanBackends(strategy, existing, before).stored == rest;
    }
  }

  lemma TakenAtFirst(strategy: Strategy, existing: set<string>, raws: Mapping<RawBackend>)
    ensures TakenBefore(strategy, existing, raws, 0) == existing
  {
    assert raws[..0] == [];
    assert KeysOf([]) == {};
  }

  lemma FirstBackendRaisesExactlyWhen(strategy: Strategy, existing: set<string>, raws: Mapping<RawBackend>)
    requires raws != []
    ensures JudgeBackend(strategy, existing, raws[0].0, raws[0].1).None? <==>
            strategy == Rename && NoNameLeft(strategy, existing, raws, 0)
  {
    TakenAtFirst(strategy, existing, raws);
    RenameFailsOnlyWhenFull(raws[0].0, existing);
  }

  /** Importing backends raises exactly when renaming and some entry finds no name left. */
  lemma {:induction false} BackendsRaiseExactlyWhen(
    strategy: Strategy, existing: set<string>, raws: Mapping<RawBackend>)
    ensures PlanBackends(strategy, existing, raws).raised <==>
            strategy == Rename && exists i :: 0 <= i < |raws| && NoNameLeft(strategy, existing, raws, i)
    decreases |raws|
  {
    if raws == [] {
    } else {
      var v := JudgeBackend(strategy, existing, raws[0].0, raws[0].1);
      FirstBackendRaisesExactlyWhen(strategy, existing, raws);
      if v.Some? {
        var next, rest := Extend(existing, v.value.key), raws[1..];
        BackendsRaiseExactlyWhen(strategy, next, rest);
        if j :| 0 <= j < |rest| && NoNameLeft(strategy, next, rest, j) {
          TakenAfterFirst(strategy, existing, raws, j + 1);
          assert NoNameLeft(strategy, existing, raws, j + 1);
        }
        if i :| 1 <= i < |raws| && NoNameLeft(strategy, existing, raws, i) {
          TakenAfterFirst(strategy, existing, raws, i);
          assert NoNameLeft(strategy, next, rest, i - 1);
        }
      }
    }
  }

  lemma {:induction false} FewKeys(stored: seq<(string, Settings)>)
    ensures |KeysOf(stored)| <= |stored|
  {
    if stored == [] {
    } else {
      var rest := stored[1..];
      FewKeys(rest);
      assert stored == [stored[0]] + rest;
      assert KeysOf(stored) == {stored[0].0} + KeysOf(rest);
    }
  }

  lemma {:induction false} StoresAtMostOneEach(strategy: Strategy, existing: set<string>, raws: Mapping<RawBackend>)
    ensures |PlanBackends(strategy, existing, raws).stored| <= |raws|
    decreases |raws|
  {
    if raws == [] {
    } else {
      var v := JudgeBackend(strategy, existing, raws[0].0, raws[0].1);
      if v.Some? { StoresAtMostOneEach(strategy, Extend(existing, v.value.key), raws[1..]); }
    }
  }

  /** What a caller can check: with at most 1000 names in all no import of backends raises. */
  lemma FewBackendsNeverRaise(strategy: Strategy, existing: set<string>, raws: Mapping<RawBackend>)
    requires |existing| + |raws| <= 1000
    ensures !PlanBackends(strategy, existing, raws).raised
  {
    BackendsRaiseExactlyWhen(strategy, existing, raws);
    forall i | 0 <= i < |raws| ensures !NoNameLeft(strategy, existing, raws, i) {
      var stored := PlanBackends(strategy, existing, raws[..i]).stored;
      StoresAtMostOneEach(strategy, existing, raws[..i]);
      FewKeys(stored);
      RenameFailsOnlyWhenFull(raws[i].0, TakenBefore(strategy, existing, raws, i));
      assert |existing + KeysOf(stored)| <= |existing| + |KeysOf(stored)|;
    }
  }

  // ---------------------------------------------------------------------------------------------
  // Registries

  datatype Effect = NoEffect | Append(entry: RegistryEntry) | ReplaceNamed(entry: RegistryEntry)

  datatype RegistryVerdict = RegistryVerdict(item: Item, effect: Effect)

  function JudgeRegistry(strategy: Strategy, existing: set<string>, raw: RawRegistry): Option<RegistryVerdict> {
    match raw
    case OddRegistry(title) => Some(RegistryVerdict(Item(title, Registry, Failed(NotAMapping)), NoEffect))
    case RefusedRegistry(title) => Some(RegistryVerdict(Item(title, Registry, Failed(Invalid)), NoEffect))
    case ValidRegistry(entry) =>
      if entry.name !in existing then Some(RegistryVerdict(Item(entry.name, Registry, Added), Append(entry)))
      else
        match strategy
        case Fail => Some(RegistryVerdict(Item(entry.name, Registry, Failed(Exists)), NoEffect))
        case Skip => Some(RegistryVerdict(Item(entry.name, Registry, Skipped), NoEffect))
        case Update => Some(RegistryVerdict(Item(entry.name, Registry, Updated), ReplaceNamed(entry)))
        case Rename =>
          var free := FirstFree(entry.name, existing, 1);
          if free.None? then None
          else
            var renamed := entry.(name := free.value);
            Some(RegistryVerdict(Item(entry.name, Registry, Renamed(free.value)), Append(renamed)))
  }

  function ApplyEffect(list: seq<RegistryEntry>, e: Effect): seq<RegistryEntry> {
    match e
    case NoEffect => list
    case Append(entry) => list + [entry]
    case ReplaceNamed(entry) => Replaced(list, entry)
  }

  function Replaced(list: seq<RegistryEntry>, entry: RegistryEntry): (r: seq<RegistryEntry>)
    ensures |r| == |list|
    ensures forall i :: 0 <= i < |list| ==> r[i] == if list[i].name == entry.name then entry else list[i]
  {
    if list == [] then []
    else [if list[0].name == entry.name then entry else list[0]] + Replaced(list[1..], entry)
  }

  function ExtendBy(existing: set<string>, e: Effect): set<string> {
    if e.Append? then existing + {e.entry.name} else existing
  }

  datatype RegistryPlan = RegistryPlan(items: seq<Item>, effects: seq<Effect>, raised: bool)

  function PlanRegistries(strategy: Strategy, existing: set<string>, raws: seq<RawRegistry>): RegistryPlan
    decreases |raws|
  {
    if raws == [] then RegistryPlan([], [], false)
    else
      var v := JudgeRegistry(strategy, existing, raws[0]);
      if v.None? then RegistryPlan([], [], true)
      else
        var rest := PlanRegistries(strategy, ExtendBy(existing, v.value.effect), raws[1..]);
        RegistryPlan([v.value.item] + rest.items, [v.value.effect] + rest.effects, rest.raised)
  }

  function ApplyEffects(list: seq<RegistryEntry>, effects: seq<Effect>): seq<RegistryEntry>
    decreases |effects|
  {
    if effects == [] then list else ApplyEffects(ApplyEffect(list, effects[0]), effects[1..])
  }

  function RegistryNames(list: seq<RegistryEntry>): set<string> {
    set r | r in list :: r.name
  }

  function RegistriesAfter(list: seq<RegistryEntry>, strategy: Strategy, raws: seq<RawRegistry>): seq<RegistryEntry> {
    ApplyEffects(list, PlanRegistries(strategy, RegistryNames(list), raws).effects)
  }

  ghost predicate UniqueNames(list: seq<RegistryEntry>) {
    forall i, j :: 0 <= i < j < |list| ==> list[i].name != list[j].name
  }

  lemma EffectOnNames(list: seq<RegistryEntry>, e: Effect)
    ensures RegistryNames(ApplyEffect(list, e)) == ExtendBy(RegistryNames(list), e)
    ensures UniqueNames(list) && (e.Append? ==> e.entry.name !in RegistryNames(list)) ==>
            UniqueNames(ApplyEffect(list, e))
  {
    var after := ApplyEffect(list, e);
    forall n ensures n in RegistryNames(after) <==> n in ExtendBy(RegistryNames(list), e) {
      if n in RegistryNames(list) {
        var i :| 0 <= i < |list| && list[i].name == n;
        assert after[i] in after && after[i].name == n;
      }
      if n in RegistryNames(after) {
        var i :| 0 <= i < |after| && after[i].name == n;
        if i < |list| { assert list[i] in list && list[i].name == n; }
      }
      if e.Append? { assert after[|list|] in after; }
    }
    if UniqueNames(list) && e.Append? && e.entry.name !in RegistryNames(list) {
      forall i | 0 <= i < |list| ensures list[i].name != e.entry.name { assert list[i] in list; }
    }
  }

  /** One step of a registry plan, on any list it is applied to. */
  lemma RegistryStep(strategy: Strategy, existing: set<string>, raws: seq<RawRegistry>, list: seq<RegistryEntry>)
    requires raws != [] && JudgeRegistry(strategy, existing, raws[0]).Some?
    ensures var v := JudgeRegistry(strategy, existing, raws[0]).value;
            var plan := PlanRegistries(strategy, existing, raws);
            var rest := PlanRegistries(strategy, ExtendBy(existing, v.effect), raws[1..]);
            && plan.items == [v.item] + rest.items && plan.raised == rest.raised
            && ApplyEffects(list, plan.effects) == ApplyEffects(ApplyEffect(list, v.effect), rest.effects)
  {
    var v := JudgeRegistry(strategy, existing, raws[0]).value;
    var rest := PlanRegistries(strategy, ExtendBy(existing, v.effect), raws[1..]).effects;
    assert ([v.effect] + rest)[1..] == rest;
  }

  lemma UnfoldRegistries(list: seq<RegistryEntry>, strategy: Strategy, raws: seq<RawRegistry>)
    requires raws != [] && JudgeRegistry(strategy, RegistryNames(list), raws[0]).Some?
    ensures var v := JudgeRegistry(strategy, RegistryNames(list), raws[0]).value;
            var next := ApplyEffect(list, v.effect);
            && RegistryNames(next) == ExtendBy(RegistryNames(list), v.effect)
            && RegistriesAfter(list, strategy, raws) == RegistriesAfter(next, strategy, raws[1..])
            && PlanRegistries(strategy, RegistryNames(list), raws).items
               == [v.item] + PlanRegistries(strategy, RegistryNames(next), raws[1..]).items
  {
    var v := JudgeRegistry(strategy, RegistryNames(list), raws[0]).value;
    EffectOnNames(list, v.effect);
    RegistryStep(strategy, RegistryNames(list), raws, list);
  }

  lemma EffectIsFresh(strategy: Strategy, existing: set<string>, raw: RawRegistry)
    ensures var v := JudgeRegistry(strategy, existing, raw);
            v.Some? && v.value.effect.Append? ==> v.value.effect.entry.name !in existing
  {
  }

  /** Registry names stay unique through an import. */
  lemma {:induction false} RegistriesStayUnique(list: seq<RegistryEntry>, strategy: Strategy, raws: seq<RawRegistry>)
    requires UniqueNames(list)
    ensures UniqueNames(RegistriesAfter(list, strategy, raws))
    decreases |raws|
  {
    if raws == [] {
    } else {
      var v := JudgeRegistry(strategy, RegistryNames(list), raws[0]);
      if v.Some? {
        UnfoldRegistries(list, strategy, raws);
        EffectIsFresh(strategy, RegistryNames(list), raws[0]);
        EffectOnNames(list, v.value.effect);
        RegistriesStayUnique(ApplyEffect(list, v.value.effect), strategy, raws[1..]);
      }
    }
  }

  /** The number of registries grows by exactly the items reported added or renamed. */
  lemma {:induction false} RegistriesCount(list: seq<RegistryEntry>, strategy: Strategy, raws: seq<RawRegistry>)
    ensures |RegistriesAfter(list, strategy, raws)|
         == |list| + NewNames(PlanRegistries(strategy, RegistryNames(list), raws).items)
    decreases |raws|
  {
    if raws == [] {
    } else {
      var v := JudgeRegistry(strategy, RegistryNames(list), raws[0]);
      if v.Some? {
        UnfoldRegistries(list, strategy, raws);
        var next := ApplyEffect(list, v.value.effect);
        RegistriesCount(next, strategy, raws[1..]);
        NewNamesMore(v.value.item, PlanRegistries(strategy, RegistryNames(next), raws[1..]).items);
      }
    }
  }

  /** The same registry name, and the same registry unless an item reports it updated. */
  ghost predicate Kept(before: RegistryEntry, after: RegistryEntry, items: seq<Item>) {
    after.name == before.name && (after == before || Reports(items, Item(before.name, Registry, Updated)))
  }

  /** Existing registries keep their places and names, and change only if an item reports them updated. */
  lemma {:induction false} RegistryKeepsPlace(
    list: seq<RegistryEntry>, strategy: Strategy, raws: seq<RawRegistry>, i: nat)
    requires i < |list|
    ensures var after := RegistriesAfter(list, strategy, raws);
            i < |after| && Kept(list[i], after[i], PlanRegistries(strategy, RegistryNames(list), raws).items)
    decreases |raws|
  {
    if raws == [] {
    } else {
      var v := JudgeRegistry(strategy, RegistryNames(list), raws[0]);
      if v.Some? {
        UnfoldRegistries(list, strategy, raws);
        var next := ApplyEffect(list, v.value.effect);
        RegistryKeepsPlace(next, strategy, raws[1..], i);
        var rest := PlanRegistries(strategy, RegistryNames(next), raws[1..]).items;
        assert Kept(list[i], next[i], [v.value.item]) by { ReportsMore(v.value.item, [], v.value.item); }
        ReportsMore(v.value.item, rest, Item(list[i].name, Registry, Updated));
        ReportsMore(v.value.item, [], Item(list[i].name, Registry, Updated));
      }
    }
  }

  /** Without update no item reports an update, so the old registries stay at the front untouched. */
  lemma {:induction false} RegistriesPreserved(list: seq<RegistryEntry>, strategy: Strategy, raws: seq<RawRegistry>)
    requires strategy != Update
    ensures list <= RegistriesAfter(list, strategy, raws)
    decreases |raws|
  {
    if raws == [] {
    } else {
      var v := JudgeRegistry(strategy, RegistryNames(list), raws[0]);
      if v.Some? {
        UnfoldRegistries(list, strategy, raws);
        var next := ApplyEffect(list, v.value.effect);
        RegistriesPreserved(next, strategy, raws[1..]);
        PrefixOfPrefix(list, next, RegistriesAfter(list, strategy, raws));
      }
    }
  }

  lemma PrefixOfPrefix<T>(a: seq<T>, b: seq<T>, c: seq<T>)
    requires a <= b && b <= c
    ensures a <= c
  {
  }

  /** The entry an item claims to have stored, under the name it claims. */
  ghost predicate Stored(item: Item, raw: RawRegistry, list: seq<RegistryEntry>) {
    match item.status
    case Added => raw.ValidRegistry? && raw.entry in list
    case Updated => raw.ValidRegistry? && raw.entry in list
    case Renamed(n) => raw.ValidRegistry? && raw.entry.(name := n) in list
    case _ => true
  }

  /** The name an item claims the entry is stored under. */
  function StoredName(item: Item): string {
    if item.status.Renamed? then item.status.newName else item.name
  }

  /** A registry reported as stored is in the list unless a later item reports updating the same name. */
  lemma {:induction false} RegistriesAreHonest(
    list: seq<RegistryEntry>, strategy: Strategy, raws: seq<RawRegistry>, i: nat)
    requires i < |PlanRegistries(strategy, RegistryNames(list), raws).items|
    ensures var items := PlanRegistries(strategy, RegistryNames(list), raws).items;
            && i < |raws|
            && (Stored(items[i], raws[i], RegistriesAfter(list, strategy, raws))
                || Reports(items[i + 1..], Item(StoredName(items[i]), Registry, Updated)))
    decreases |raws|
  {
    var v := JudgeRegistry(strategy, RegistryNames(list), raws[0]).value;
    UnfoldRegistries(list, strategy, raws);
    var next := ApplyEffect(list, v.effect);
    var rest := PlanRegistries(strategy, RegistryNames(next), raws[1..]).items;
    assert ([v.item] + rest)[1..] == rest;
    if i > 0 {
      RegistriesAreHonest(next, strategy, raws[1..], i - 1);
      assert ([v.item] + rest)[i + 1..] == rest[i..];
    } else if !v.effect.NoEffect? {
      EffectStores(list, v.effect);
      StaysUnlessUpdated(next, strategy, raws[1..], v.effect.entry);
    }
  }

  lemma StaysUnlessUpdated(list: seq<RegistryEntry>, strategy: Strategy, raws: seq<RawRegistry>, entry: RegistryEntry)
    requires entry in list
    ensures entry in RegistriesAfter(list, strategy, raws)
            || Reports(PlanRegistries(strategy, RegistryNames(list), raws).items, Item(entry.name, Registry, Updated))
  {
    var j :| 0 <= j < |list| && list[j] == entry;
    RegistryKeepsPlace(list, strategy, raws, j);
    assert RegistriesAfter(list, strategy, raws)[j] in RegistriesAfter(list, strategy, raws);
  }

  lemma EffectStores(list: seq<RegistryEntry>, e: Effect)
    requires e.Append? || (e.ReplaceNamed? && e.entry.name in RegistryNames(list))
    ensures e.entry in ApplyEffect(list, e)
  {
    var after := ApplyEffect(list, e);
    if e.Append? {
      assert after[|list|] == e.entry;
    } else {
      var i :| 0 <= i < |list| && list[i].name == e.entry.name;
      assert after[i] == e.entry;
    }
  }

  lemma {:induction false} OneItemPerRegistry(strategy: Strategy, existing: set<string>, raws: seq<RawRegistry>)
    requires !PlanRegistries(strategy, existing, raws).raised
    ensures |PlanRegistries(strategy, existing, raws).items| == |raws|
    decreases |raws|
  {
    if raws == [] {
    } else {
      var v := JudgeRegistry(strategy, existing, raws[0]);
      OneItemPerRegistry(strategy, ExtendBy(existing, v.value.effect), raws[1..]);
    }
  }

  ghost function AppendedNames(effects: seq<Effect>): set<string> {
    set e | e in effects && e.Append? :: e.entry.name
  }

  /** The registry names in use when entry `i` is reached. */
  ghost function RegistriesTakenBefore(
    strategy: Strategy, existing: set<string>, raws: seq<RawRegistry>, i: nat): set<string>
    requires i <= |raws|
  {
    existing + AppendedNames(PlanRegistries(strategy, existing, raws[..i]).effects)
  }

  ghost predicate NoRegistryNameLeft(strategy: Strategy, existing: set<string>, raws: seq<RawRegistry>, i: nat)
    requires i < |raws|
  {
    var taken := RegistriesTakenBefore(strategy, existing, raws, i);
    raws[i].ValidRegistry? && raws[i].entry.name in taken && AllTaken(raws[i].entry.name, taken)
  }

  lemma AppendedMore(first: Effect, rest: seq<Effect>)
    ensures AppendedNames([first] + rest) == AppendedNames(rest) + if first.Append? then {first.entry.name} else {}
  {
  }

  lemma RegistriesTakenAfterFirst(strategy: Strategy, existing: set<string>, raws: seq<RawRegistry>, i: nat)
    requires 1 <= i <= |raws| && JudgeRegistry(strategy, existing, raws[0]).Some?
    ensures var next := ExtendBy(existing, JudgeRegistry(strategy, existing, raws[0]).value.effect);
            RegistriesTakenBefore(strategy, existing, raws, i)
            == RegistriesTakenBefore(strategy, next, raws[1..], i - 1)
  {
    var v := JudgeRegistry(strategy, existing, raws[0]).value;
    var before := raws[..i];
    assert before[0] == raws[0] && before[1..] == raws[1..][..i - 1];
    AppendedMore(v.effect, PlanRegistries(strategy, ExtendBy(existing, v.effect), before[1..]).effects);
  }

  lemma FirstRegistryRaisesExactlyWhen(strategy: Strategy, existing: set<string>, raws: seq<RawRegistry>)
    requires raws != []
    ensures JudgeRegistry(strategy, existing, raws[0]).None? <==>
            strategy == Rename && NoRegistryNameLeft(strategy, existing, raws, 0)
  {
    assert raws[..0] == [] && AppendedNames([]) == {};
    if raws[0].ValidRegistry? { RenameFailsOnlyWhenFull(raws[0].entry.name, existing); }
  }

  /** Importing registries raises exactly when renaming and some entry finds no name left. */
  lemma {:induction false} RegistriesRaiseExactlyWhen(strategy: Strategy, existing: set<string>, raws: seq<RawRegistry>)
    ensures PlanRegistries(strategy, existing, raws).raised <==>
            strategy == Rename && exists i :: 0 <= i < |raws| && NoRegistryNameLeft(strategy, existing, raws, i)
    decreases |raws|
  {
    if raws == [] {
    } else {
      var v := JudgeRegistry(strategy, existing, raws[0]);
      FirstRegistryRaisesExactlyWhen(strategy, existing, raws);
      if v.Some? {
        var next, rest := ExtendBy(existing, v.value.effect), raws[1..];
        RegistriesRaiseExactlyWhen(strategy, next, rest);
        if j :| 0 <= j < |rest| && NoRegistryNameLeft(strategy, next, rest, j) {
          RegistriesTakenAfterFirst(strategy, existing, raws, j + 1);
          assert NoRegistryNameLeft(strategy, existing, raws, j + 1);
        }
        if i :| 1 <= i < |raws| && NoRegistryNameLeft(strategy, existing, raws, i) {
          RegistriesTakenAfterFirst(strategy, existing, raws, i);
          assert NoRegistryNameLeft(strategy, next, rest, i - 1);
        }
      }
    }
  }

  lemma {:induction false} FewAppended(effects: seq<Effect>)
    ensures |AppendedNames(effects)| <= |effects|
  {
    if effects == [] {
    } else {
      FewAppended(effects[1..]);
      assert effects == [effects[0]] + effects[1..];
      AppendedMore(effects[0], effects[1..]);
    }
  }

  lemma {:induction false} OneEffectEachAtMost(strategy: Strategy, existing: set<string>, raws: seq<RawRegistry>)
    ensures |PlanRegistries(strategy, existing, raws).effects| <= |raws|
    decreases |raws|
  {
    if raws == [] {
    } else {
      var v := JudgeRegistry(strategy, existing, raws[0]);
      if v.Some? { OneEffectEachAtMost(strategy, ExtendBy(existing, v.value.effect), raws[1..]); }
    }
  }

  /** With at most 1000 names in all no import of registries raises. */
  lemma FewRegistriesNeverRaise(strategy: Strategy, existing: set<string>, raws: seq<RawRegistry>)
    requires |existing| + |raws| <= 1000
    ensures !PlanRegistries(strategy, existing, raws).raised
  {
    RegistriesRaiseExactlyWhen(strategy, existing, raws);
    forall i | 0 <= i < |raws| ensures !NoRegistryNameLeft(strategy, existing, raws, i) {
      var effects := PlanRegistries(strategy, existing, raws[..i]).effects;
      OneEffectEachAtMost(strategy, existing, raws[..i]);
      FewAppended(effects);
      if raws[i].ValidRegistry? {
        RenameFailsOnlyWhenFull(raws[i].entry.name, RegistriesTakenBefore(strategy, existing, raws, i));
      }
      assert |existing + AppendedNames(effects)| <= |existing| + |AppendedNames(effects)|;
    }
  }

  // ---------------------------------------------------------------------------------------------
  // Feature flags

  /** The status of a flag entry, given whether the flag exists before the import. */
  function JudgeFlag(strategy: Strategy, exists_: bool, raw: RawFlag): Status {
    if raw.OddFlag? then Failed(NotBoolean)
    else if exists_ && strategy == Skip then Skipped
    else if exists_ && strategy == Fail then Failed(Exists)
    else if exists_ then Updated
    else Added
  }

  function FlagItems(strategy: Strategy, existing: set<string>, raws: Mapping<RawFlag>): seq<Item> {
    seq(|raws|, i requires 0 <= i < |raws| =>
      Item(raws[i].0, Flag, JudgeFlag(strategy, raws[i].0 in existing, raws[i].1)))
  }

  function FlagsAfter(flags: map<string, bool>, strategy: Strategy, raws: Mapping<RawFlag>): map<string, bool> {
    if raws == [] then flags
    else
      var n := |raws| - 1;
      var before := FlagsAfter(flags, strategy, raws[..n]);
      var status := JudgeFlag(strategy, raws[n].0 in flags, raws[n].1);
      if status.Added? || status.Updated? then before[raws[n].0 := raws[n].1.value] else before
  }

  /** A flag the earlier entries do not name is as it was; skip and fail leave every existing flag alone. */
  lemma {:induction false} FlagUnnamed(flags: map<string, bool>, strategy: Strategy, raws: Mapping<RawFlag>, k: string)
    requires (forall i :: 0 <= i < |raws| ==> raws[i].0 != k) || (k in flags && (strategy == Skip || strategy == Fail))
    ensures var after := FlagsAfter(flags, strategy, raws);
            (k in after <==> k in flags) && (k in flags ==> after[k] == flags[k])
  {
    if raws == [] {
    } else {
      FlagUnnamed(flags, strategy, raws[..|raws| - 1], k);
    }
  }

  /** A flag reported added or updated has the imported value. */
  lemma {:induction false} FlagsAreHonest(flags: map<string, bool>, strategy: Strategy, raws: Mapping<RawFlag>, i: nat)
    requires UniqueKeys(raws) && i < |raws|
    ensures var status := FlagItems(strategy, flags.Keys, raws)[i].status;
            var after := FlagsAfter(flags, strategy, raws);
            status.Added? || status.Updated? ==>
                raws[i].1.ValidFlag? && raws[i].0 in after && after[raws[i].0] == raws[i].1.value
  {
    var n := |raws| - 1;
    if i < n { FlagsAreHonest(flags, strategy, raws[..n], i); }
  }

  /** No import under this strategy changes a flag that exists. */
  ghost predicate FlagsPreserved(strategy: Strategy) {
    forall flags, raws, k :: UniqueKeys(raws) && k in flags ==>
      k in FlagsAfter(flags, strategy, raws) && FlagsAfter(flags, strategy, raws)[k] == flags[k]
  }

  /** Existing flags are safe under skip and fail only: unlike the other sections, rename overwrites them. */
  lemma FlagsPreservedExactlyWhen(strategy: Strategy)
    ensures FlagsPreserved(strategy) <==> strategy == Skip || strategy == Fail
  {
    if strategy == Skip || strategy == Fail {
      forall flags, raws, k | UniqueKeys(raws) && k in flags
        ensures k in FlagsAfter(flags, strategy, raws) && FlagsAfter(flags, strategy, raws)[k] == flags[k]
      {
        FlagUnnamed(flags, strategy, raws, k);
      }
    } else {
      var flags, raws := map["f" := false], [("f", ValidFlag(true))];
      assert raws[..0] == [] && FlagsAfter(flags, strategy, []) == flags;
      assert UniqueKeys(raws) && FlagsAfter(flags, strategy, raws)["f"];
    }
  }
}
