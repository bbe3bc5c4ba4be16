/** Pool of backend sessions (argus_mcp/bridge/session_pool.py). */
module SessionPool {
  import opened Common

  datatype SessionKey = SessionKey(url: string, identityHash: string, transportType: string)

  class PoolEntry {
    const createdAt: real
    var lastUsed: real
    var inUse: bool

    constructor (now: real)
      ensures createdAt == lastUsed == now && !inUse
    {
      createdAt, lastUsed, inUse := now, now, false;
    }
  }

  // ---------------------------------------------------------------------------------------------
  // Conservation, on values

  /** Each entry ever added (with its key, in `home`) is pooled once under that key, or out of the pool. */
  ghost predicate Conserved<K, E>(pool: map<K, seq<E>>, home: map<E, K>, out: set<E>) {
    && (forall k :: k in pool ==> Distinct(pool[k]))
    && (forall k, e {:trigger e in pool[k]} :: k in pool && e in pool[k] ==> e in home && home[e] == k && e !in out)
    && (forall e {:trigger e in home} :: e in home && e !in out ==> home[e] in pool && e in pool[home[e]])
  }

  /** Is the entry pooled, under whatever key? */
  ghost predicate Pooled<K, E>(pool: map<K, seq<E>>, e: E) {
    exists k :: k in pool && e in pool[k]
  }

  /** Added entries that are neither pooled nor tended to. */
  ghost function Stranded<K, E>(pool: map<K, seq<E>>, home: map<E, K>, tended: set<E>): set<E> {
    set e | e in home && !Pooled(pool, e) && e !in tended
  }

  lemma StrandedWhenEmpty<K, E>(home: map<E, K>, tended: set<E>)
    ensures Stranded(map[], home, tended) == home.Keys - tended
    ensures home.Keys <= tended <==> Stranded(map[], home, tended) == {}
  {
    var none: map<K, seq<E>> := map[];
    assert Stranded(none, home, tended) == home.Keys - tended;
    assert home.Keys <= tended + (home.Keys - tended);
  }

  lemma StrandedAreOut<K, E>(pool: map<K, seq<E>>, home: map<E, K>, out: set<E>, tended: set<E>)
    requires Conserved(pool, home, out)
    ensures Stranded(pool, home, tended) == home.Keys * out - tended
  {
    forall e | e in home ensures Pooled(pool, e) <==> e !in out {
      InPoolOrOut(pool, home, out, e);
    }
  }

  /** What conservation says of one entry. */
  lemma InPoolOrOut<K, E>(pool: map<K, seq<E>>, home: map<E, K>, out: set<E>, e: E)
    requires Conserved(pool, home, out) && e in home
    ensures Pooled(pool, e) <==> e !in out
    ensures forall k, i, l, j ::
              && k in pool && l in pool && 0 <= i < |pool[k]| && 0 <= j < |pool[l]| && pool[k][i] == e == pool[l][j]
              ==> k == l && i == j
  {
    forall k, i, l, j |
      && k in pool && l in pool && 0 <= i < |pool[k]| && 0 <= j < |pool[l]|
      && pool[k][i] == e == pool[l][j]
      ensures k == l && i == j
    {
      assert pool[k][i] in pool[k] && pool[l][j] in pool[l];
    }
  }

  /** Replacing the entries of one key by some of them keeps conservation if exactly the others are out. */
  lemma ShrinkConserves<K, E>(pool: map<K, seq<E>>, home: map<E, K>, out: set<E>, key: K, rest: seq<E>, gone: set<E>)
    requires Conserved(pool, home, out) && key in pool && Distinct(rest)
    requires forall e :: e in pool[key] <==> e in rest || e in gone
    requires forall e :: e in rest ==> e !in gone
    ensures Conserved(pool[key := rest], home, out + gone)
    ensures rest == [] ==> Conserved(pool - {key}, home, out + gone)
  {
  }

  lemma GrowConserves<K, E>(pool: map<K, seq<E>>, home: map<E, K>, out: set<E>, key: K, e: E)
    requires Conserved(pool, home, out) && e !in home && e !in out
    ensures Conserved(pool[key := (if key in pool then pool[key] else []) + [e]], home[e := key], out)
  {
    var entries := if key in pool then pool[key] else [];
    assert forall x :: x in entries ==> x in home;
    assert e !in entries;
  }

  // ---------------------------------------------------------------------------------------------
  // Eviction and expiry, on lists of entries

  ghost predicate Precedes<E>(s: seq<E>, x: E, y: E) {
    exists i, j :: 0 <= i < j < |s| && s[i] == x && s[j] == y
  }

  /** What is left comes in the same order. */
  ghost predicate InOrder<E>(entries: seq<E>, rest: seq<E>) {
    forall a, b :: 0 <= a < b < |rest| ==> Precedes(entries, rest[a], rest[b])
  }

  /** `entries` was divided into `rest`, which keeps the order, and `gone`. */
  ghost predicate Divided<E>(entries: seq<E>, rest: seq<E>, gone: seq<E>) {
    && Distinct(rest) && Distinct(gone)
    && (forall e :: e in entries ==> e in rest || e in gone)
    && (forall e :: e in rest ==> e in entries)
    && (forall e :: e in gone ==> e in entries)
    && (forall e :: e in rest ==> e !in gone)
    && InOrder(entries, rest)
  }

  lemma NothingGone<E>(entries: seq<E>)
    requires Distinct(entries)
    ensures Divided(entries, entries, [])
  {
  }

  lemma OneMoreGone<E>(entries: seq<E>, rest: seq<E>, gone: seq<E>, i: nat)
    requires Divided(entries, rest, gone) && i < |rest|
    ensures Divided(entries, rest[..i] + rest[i + 1..], gone + [rest[i]])
  {
    var rest' := rest[..i] + rest[i + 1..];
    assert forall a :: 0 <= a < |rest'| ==> rest'[a] == rest[if a < i then a else a + 1];
    assert rest[i] in rest;
    forall e | e in rest ensures e in rest' || e == rest[i] {
      var j :| 0 <= j < |rest| && rest[j] == e;
      if j < i { assert rest'[j] == e; } else if j > i { assert rest'[j - 1] == e; }
    }
  }

  /** May the entry be handed out: idle and younger than the time to live? */
  predicate Available(e: PoolEntry, now: real, ttl: real)
    reads e
  {
    !e.inUse && now - e.createdAt < ttl
  }

  /** Is the entry due for reaping: idle and as old as the time to live? */
  predicate Expired(e: PoolEntry, now: real, ttl: real)
    reads e
  {
    !e.inUse && now - e.createdAt >= ttl
  }

  /** The position of the first idle entry with the least `last_used`. */
  method OldestIdle(entries: seq<PoolEntry>) returns (at: Option<nat>)
    ensures at.None? <==> forall e :: e in entries ==> e.inUse
    ensures at.Some? ==> at.value < |entries| && !entries[at.value].inUse
    ensures at.Some? ==> forall e :: e in entries && !e.inUse ==> entries[at.value].lastUsed <= e.lastUsed
    ensures at.Some? ==>
              forall i :: 0 <= i < at.value && !entries[i].inUse ==> entries[at.value].lastUsed < entries[i].lastUsed
  {
    at := None;
    for n := 0 to |entries|
      invariant at.None? ==> forall i :: 0 <= i < n ==> entries[i].inUse
      invariant at.Some? ==> at.value < n && !entries[at.value].inUse
      invariant at.Some? ==> forall i :: 0 <= i < n && !entries[i].inUse ==>
                entries[at.value].lastUsed <= entries[i].lastUsed
      invariant at.Some? ==> forall i :: 0 <= i < at.value && !entries[i].inUse ==>
                entries[at.value].lastUsed < entries[i].lastUsed
    {
      if !entries[n].inUse && (at.None? || entries[n].lastUsed < entries[at.value].lastUsed) {
        at := Some(n);
      }
    }
  }

  /** Makes room for one more entry by taking out idle entries, least recently used first. */
  method Evict(entries: seq<PoolEntry>, max: nat) returns (rest: seq<PoolEntry>, evicted: seq<PoolEntry>)
    requires Distinct(entries)
    ensures Divided(entries, rest, evicted)
    ensures forall e :: e in evicted ==> !e.inUse
    ensures forall e, f :: e in evicted && f in rest && !f.inUse ==> e.lastUsed <= f.lastUsed
    ensures forall i, j :: 0 <= i < j < |evicted| ==> evicted[i].lastUsed <= evicted[j].lastUsed
    ensures |rest| < max || forall e :: e in rest ==> e.inUse
    ensures evicted != [] ==> |rest| + 1 >= max
  {
    rest, evicted := entries, [];
    NothingGone(entries);
    while |rest| >= max
      invariant Divided(entries, rest, evicted)
      invariant forall e :: e in evicted ==> !e.inUse
      invariant forall e, f :: e in evicted && f in rest && !f.inUse ==> e.lastUsed <= f.lastUsed
      invariant forall i, j :: 0 <= i < j < |evicted| ==> evicted[i].lastUsed <= evicted[j].lastUsed
      invariant evicted != [] ==> |rest| + 1 >= max
      decreases |rest|
    {
      var at := OldestIdle(rest);
      if at.None? {
        break;
      }
      OneMoreGone(entries, rest, evicted, at.value);
      var oldest := rest[at.value];
      assert forall f :: f in rest[..at.value] + rest[at.value + 1..] ==> f in rest;
      assert forall i :: 0 <= i < |evicted| ==> evicted[i] in evicted && oldest in rest;
      rest := rest[..at.value] + rest[at.value + 1..];
      evicted := evicted + [oldest];
    }
  }

  /** `list` is `entries` without the evicted ones and with the new entry at the end: only idle entries went, least
      recently used first, no more than needed, and the list is within bounds unless all others are in use. */
  ghost predicate Admitted(
    entries: seq<PoolEntry>, list: seq<PoolEntry>, entry: PoolEntry, evicted: seq<PoolEntry>, max: nat)
    reads entries, list, evicted
  {
    && |list| > 0 && list[|list| - 1] == entry
    && (forall e :: e in entries ==> e in list || e in evicted)
    && (forall e :: e in list ==> e == entry || e in entries)
    && (forall e :: e in evicted ==> e in entries && e !in list && !e.inUse)
    && (forall a, b :: 0 <= a < b < |list| - 1 ==> Precedes(entries, list[a], list[b]))
    && (forall e, f :: e in evicted && f in list && f != entry && !f.inUse ==> e.lastUsed <= f.lastUsed)
    && (|list| <= max || forall e :: e in list && e != entry ==> e.inUse)
    && (evicted != [] ==> |list| >= max)
  }

  /** The list part of adding a session. */
  method Admit(entries: seq<PoolEntry>, max: nat, now: real)
      returns (list: seq<PoolEntry>, entry: PoolEntry, evicted: seq<PoolEntry>)
    requires Distinct(entries)
    ensures fresh(entry) && entry.createdAt == entry.lastUsed == now && !entry.inUse
    ensures Admitted(entries, list, entry, evicted, max)
    ensures list == list[..|list| - 1] + [entry] && Divided(entries, list[..|list| - 1], evicted)
  {
    var rest;
    rest, evicted := Evict(entries, max);
    entry := new PoolEntry(now);
    list := rest + [entry];
    assert list[..|list| - 1] == rest;
    assert forall e :: e in list <==> e in rest || e == entry;
  }

  /** Splits off the expired entries of one key. */
  method SplitExpired(entries: seq<PoolEntry>, now: real, ttl: real)
      returns (rest: seq<PoolEntry>, expired: seq<PoolEntry>)
    requires Distinct(entries)
    ensures Divided(entries, rest, expired)
    ensures forall e :: e in rest ==> !Expired(e, now, ttl)
    ensures forall e :: e in expired ==> Expired(e, now, ttl)
  {
    rest, expired := [], [];
    for n := 0 to |entries|
      invariant Divided(entries[..n], rest, expired)
      invariant forall e :: e in expired ==> Expired(e, now, ttl)
      invariant forall e :: e in rest ==> !Expired(e, now, ttl)
    {
      NextEntry(entries, n, rest, expired);
      if !entries[n].inUse && now - entries[n].createdAt >= ttl {
        expired := expired + [entries[n]];
      } else {
        rest := rest + [entries[n]];
      }
    }
    assert entries[..|entries|] == entries;
  }

  lemma NextEntry<E>(entries: seq<E>, n: nat, rest: seq<E>, gone: seq<E>)
    requires Distinct(entries) && n < |entries| && Divided(entries[..n], rest, gone)
    ensures Divided(entries[..n + 1], rest + [entries[n]], gone)
    ensures Divided(entries[..n + 1], rest, gone + [entries[n]])
  {
    var before, seen := entries[..n], entries[..n + 1];
    assert seen == before + [entries[n]];
    assert entries[n] !in before;
    forall a, b | 0 <= a < b < |rest| ensures Precedes(seen, rest[a], rest[b]) {
      assert Precedes(before, rest[a], rest[b]);
      var i, j :| 0 <= i < j < |before| && before[i] == rest[a] && before[j] == rest[b];
      assert seen[i] == rest[a] && seen[j] == rest[b];
    }
    forall a | 0 <= a < |rest| ensures Precedes(seen, rest[a], entries[n]) {
      assert rest[a] in before;
      var i :| 0 <= i < n && before[i] == rest[a];
      assert seen[i] == rest[a] && seen[n] == entries[n];
    }
  }

  /** Removes the first occurrence of an entry. */
  method Without(entries: seq<PoolEntry>, entry: PoolEntry) returns (rest: seq<PoolEntry>)
    requires Distinct(entries)
    ensures Distinct(rest) && forall e :: e in rest <==> e in entries && e != entry
    ensures InOrder(entries, rest)
  {
    for n := 0 to |entries|
      invariant entry !in entries[..n]
    {
      if entries[n] == entry {
        NothingGone(entries);
        OneMoreGone(entries, entries, [], n);
        assert InOrder(entries, entries[..n] + entries[n + 1..]);
        return entries[..n] + entries[n + 1..];
      }
    }
    return entries;
  }

  // ---------------------------------------------------------------------------------------------
  // Entries waiting for their close

  /** Who runs a close loop: the background reaper or a caller of the pool. */
  datatype Task = Reaper | Client(id: nat)

  /** An entry that a task took out of the pool and has yet to close. */
  datatype Waiting = Waiting(task: Task, entry: PoolEntry)

  function Queue(task: Task, entries: seq<PoolEntry>): (ws: seq<Waiting>)
    ensures |ws| == |entries| && forall i :: 0 <= i < |ws| ==> ws[i] == Waiting(task, entries[i])
  {
    seq(|entries|, i requires 0 <= i < |entries| => Waiting(task, entries[i]))
  }

  /** What is waiting, for whichever task. */
  ghost function Entries(ws: seq<Waiting>): set<PoolEntry> {
    set w | w in ws :: w.entry
  }

  /** What is waiting for one task. */
  ghost function EntriesOf(ws: seq<Waiting>, task: Task): set<PoolEntry> {
    set w | w in ws && w.task == task :: w.entry
  }

  /** What is waiting for the other tasks. */
  function Others(ws: seq<Waiting>, task: Task): seq<Waiting> {
    if ws == [] then
      []
    else if ws[0].task == task then
      Others(ws[1..], task)
    else
      [ws[0]] + Others(ws[1..], task)
  }

  lemma {:induction false} OthersAre(ws: seq<Waiting>, task: Task)
    ensures forall w :: w in Others(ws, task) <==> w in ws && w.task != task
  {
    if ws == [] {
    } else {
      assert forall w :: w in ws <==> w == ws[0] || w in ws[1..];
      OthersAre(ws[1..], task);
    }
  }

  lemma EntriesDivided(ws: seq<Waiting>, task: Task)
    ensures Entries(ws) == Entries(Others(ws, task)) + EntriesOf(ws, task)
  {
    OthersAre(ws, task);
    forall e | e in Entries(ws) ensures e in Entries(Others(ws, task)) + EntriesOf(ws, task) {
      var w :| w in ws && w.entry == e;
      assert w.task == task || w in Others(ws, task);
    }
    forall e | e in Entries(Others(ws, task)) ensures e in Entries(ws) {
      var w :| w in Others(ws, task) && w.entry == e;
      assert w in ws;
    }
  }

  lemma Queued(ws: seq<Waiting>, task: Task, entries: seq<PoolEntry>)
    ensures Entries(ws + Queue(task, entries)) == Entries(ws) + set e | e in entries
    ensures EntriesOf(ws + Queue(task, entries), task) == EntriesOf(ws, task) + set e | e in entries
    ensures Others(ws + Queue(task, entries), task) == Others(ws, task)
  {
    var q := Queue(task, entries);
    forall e | e in entries ensures Waiting(task, e) in q {
      var i :| 0 <= i < |entries| && entries[i] == e;
      assert q[i] == Waiting(task, e);
    }
    assert forall w :: w in q ==> w.task == task && w.entry in entries;
    OthersAppend(ws, q, task);
  }

  lemma {:induction false} OthersAppend(ws: seq<Waiting>, more: seq<Waiting>, task: Task)
    requires forall w :: w in more ==> w.task == task
    ensures Others(ws + more, task) == Others(ws, task)
  {
    if ws == [] {
      assert ws + more == more;
      NoOthers(more, task);
    } else {
      assert (ws + more)[1..] == ws[1..] + more;
      OthersAppend(ws[1..], more, task);
    }
  }

  lemma {:induction false} NoOthers(ws: seq<Waiting>, task: Task)
    requires forall w :: w in ws ==> w.task == task
    ensures Others(ws, task) == []
  {
    if ws == [] {
    } else {
      NoOthers(ws[1..], task);
    }
  }

  lemma {:induction false} AllOthers(ws: seq<Waiting>, task: Task)
    requires forall i :: 0 <= i < |ws| ==> ws[i].task != task
    ensures Others(ws, task) == ws
  {
    if ws == [] {
    } else {
      AllOthers(ws[1..], task);
    }
  }

  /** Taking one waiting entry out. */
  lemma EntriesDequeued(ws: seq<Waiting>, i: nat)
    requires i < |ws|
    ensures EntriesOf(ws, ws[i].task) == EntriesOf(ws[..i] + ws[i + 1..], ws[i].task) + {ws[i].entry}
    ensures Entries(ws) == Entries(ws[..i] + ws[i + 1..]) + {ws[i].entry}
  {
    assert ws == ws[..i] + [ws[i]] + ws[i + 1..];
    assert forall w :: w in ws <==> w in ws[..i] + ws[i + 1..] || w == ws[i];
  }

  lemma {:induction false} OthersDequeued(ws: seq<Waiting>, i: nat)
    requires i < |ws|
    ensures Others(ws[..i] + ws[i + 1..], ws[i].task) == Others(ws, ws[i].task)
  {
    var rest := ws[..i] + ws[i + 1..];
    if i == 0 {
      assert rest == ws[1..];
    } else {
      assert ws[1..][..i - 1] + ws[1..][i..] == rest[1..];
      OthersDequeued(ws[1..], i - 1);
    }
  }

  lemma Dequeued(ws: seq<Waiting>, i: nat)
    requires i < |ws|
    ensures Others(ws[..i] + ws[i + 1..], ws[i].task) == Others(ws, ws[i].task)
    ensures EntriesOf(ws, ws[i].task) == EntriesOf(ws[..i] + ws[i + 1..], ws[i].task) + {ws[i].entry}
  {
    OthersDequeued(ws, i);
    EntriesDequeued(ws, i);
  }

  /** Moving entries from the pool to a task's list keeps conservation and strands nothing. */
  lemma TakenOut(
    was: map<SessionKey, seq<PoolEntry>>, pool: map<SessionKey, seq<PoolEntry>>, home: map<PoolEntry, SessionKey>,
    closing: set<PoolEntry>, ws: seq<Waiting>, lost: set<PoolEntry>, task: Task, entries: seq<PoolEntry>)
    requires Conserved(was, home, closing + Entries(ws) + lost)
    requires Conserved(pool, home, closing + Entries(ws) + lost + set e | e in entries)
    requires forall e :: e in entries ==> Pooled(was, e)
    ensures Conserved(pool, home, closing + Entries(ws + Queue(task, entries)) + lost)
    ensures Stranded(pool, home, closing + Entries(ws + Queue(task, entries)))
         == Stranded(was, home, closing + Entries(ws))
  {
    var out, gone, ws' := closing + Entries(ws) + lost, (set e | e in entries), ws + Queue(task, entries);
    Queued(ws, task, entries);
    assert closing + Entries(ws') + lost == out + gone;
    StrandedAreOut(was, home, out, closing + Entries(ws));
    StrandedAreOut(pool, home, out + gone, closing + Entries(ws'));
    assert gone !! out;
  }

  // ---------------------------------------------------------------------------------------------
  // The pool object

  /** Every operation takes entries out of the pool in one step, under the lock, and closes them afterwards, one by
      one, while other tasks may run. Until its close begins such an entry is in `waiting`. A task that is cancelled
      forgets what it has yet to close. */
  class Pool {
    const perKeyMax: nat
    const ttl: real
    var pool: map<SessionKey, seq<PoolEntry>>
    var closed: bool
    /** Is there a reaper task? */
    var reaping: bool
    var waiting: seq<Waiting>
    /** Every entry ever added, with the key it was added under. */
    ghost var home: map<PoolEntry, SessionKey>
    /** Every entry whose close was attempted. */
    ghost var closing: set<PoolEntry>
    /** Every entry that was waiting for a task when that task was cancelled. */
    ghost var lost: set<PoolEntry>
    /** Entries handed out by `Acquire` and not released since. */
    ghost var held: set<PoolEntry>

    /** Whatever was taken out of the pool. */
    ghost function Out(): set<PoolEntry>
      reads this
    {
      closing + Entries(waiting) + lost
    }

    /** Each entry is pooled, waiting, close-attempted or lost, and in no other state while pooled. */
    ghost predicate Valid()
      reads this
    {
      perKeyMax >= 1 && Conserved(pool, home, Out())
    }

    /** Whatever was handed out is marked as in use. */
    ghost predicate HeldBusy()
      reads this`held, held
    {
      forall e :: e in held ==> e.inUse
    }

    /** Sessions that are out of the pool and that nobody closed or is going to close. */
    ghost function Leaked(): set<PoolEntry>
      reads this
    {
      Stranded(pool, home, closing + Entries(waiting))
    }

    /** Entries that the background reaper alone is still to close. */
    ghost function LeftToReaper(): set<PoolEntry>
      reads this
    {
      if reaping then home.Keys * EntriesOf(waiting, Reaper) - Entries(Others(waiting, Reaper)) - closing else {}
    }

    constructor (perKeyMax: int, ttl: real)
      ensures Valid() && HeldBusy() && pool == map[] && home == map[] && held == {} && closing == {} && lost == {}
      ensures waiting == [] && !closed && !reaping
      ensures this.perKeyMax == (if perKeyMax > 1 then perKeyMax else 1) && this.ttl == (if ttl > 1.0 then ttl else 1.0)
    {
      this.perKeyMax := if perKeyMax > 1 then perKeyMax else 1;
      this.ttl := if ttl > 1.0 then ttl else 1.0;
      pool, closed, reaping, waiting := map[], false, false, [];
      home, closing, lost, held := map[], {}, {}, {};
    }

    /** Hands out the first available entry of the key; `allowed` is the circuit breaker's answer. */
    method Acquire(key: SessionKey, allowed: bool, now: real) returns (r: PoolEntry?)
      requires Valid() && HeldBusy()
      modifies this`held, home.Keys
      ensures Valid() && HeldBusy()
      ensures r == null ==> held == old(held) && unchanged(home.Keys)
      ensures r == null <==>
              closed || !allowed || key !in pool || forall e :: e in pool[key] ==> !old(Available(e, now, ttl))
      ensures r != null ==>
                && r in pool[key] && old(Available(r, now, ttl)) && r.inUse && r.lastUsed == now
                && r !in old(held) && held == old(held) + {r} && unchanged(home.Keys - {r})
      ensures r != null ==>
                exists n :: 0 <= n < |pool[key]| && pool[key][n] == r
                         && forall i :: 0 <= i < n ==> !old(Available(pool[key][i], now, ttl))
    {
      if closed || !allowed || key !in pool {
        return null;
      }
      var entries := pool[key];
      for n := 0 to |entries|
        invariant forall i :: 0 <= i < n ==> !Available(entries[i], now, ttl)
        invariant held == old(held) && unchanged(home.Keys)
      {
        var entry := entries[n];
        assert entry in entries && entry in home;
        if !entry.inUse && now - entry.createdAt < ttl {
          entry.inUse := true;
          entry.lastUsed := now;
          held := held + {entry};
          assert pool[key][n] == entry;
          return entry;
        }
      }
      return null;
    }

    /** Takes an entry back, or out of the pool after a failure, for the calling task to close. */
    method Release(key: SessionKey, entry: PoolEntry, failed: bool, now: real, task: Task)
      requires Valid() && HeldBusy()
      modifies this`pool, this`waiting, this`held, entry
      ensures HeldBusy() && held == old(held) - {entry}
      ensures !failed ==> pool == old(pool) && waiting == old(waiting) && !entry.inUse && entry.lastUsed == now
      ensures failed ==> waiting == old(waiting) + Queue(task, [entry]) && unchanged(entry)
      ensures pool.Keys == old(pool).Keys && forall k :: k in pool && k != key ==> pool[k] == old(pool)[k]
      ensures failed && key in pool ==> InOrder(old(pool)[key], pool[key])
      ensures failed && entry in home && home[entry] == key ==> !Pooled(pool, entry)
      ensures Valid() <==> (failed && Pooled(old(pool), entry) ==> home[entry] == key)
    {
      held := held - {entry};
      if failed {
        TakeFailed(key, entry, task);
      } else {
        entry.inUse := false;
        entry.lastUsed := now;
      }
    }

    /** Takes a failed entry out of the list of the given key, if it is there, and has the task close it. */
    method TakeFailed(key: SessionKey, entry: PoolEntry, task: Task)
      requires Valid()
      modifies this`pool, this`waiting
      ensures waiting == old(waiting) + Queue(task, [entry])
      ensures pool.Keys == old(pool).Keys && forall k :: k in pool && k != key ==> pool[k] == old(pool)[k]
      ensures key in pool ==> InOrder(old(pool)[key], pool[key])
      ensures entry in home && home[entry] == key ==> !Pooled(pool, entry)
      ensures Valid() <==> (Pooled(old(pool), entry) ==> home[entry] == key)
    {
      var rest := Without(if key in pool then pool[key] else [], entry);
      if key in pool { NothingGone(pool[key]); }
      ReleaseVerdict(pool, home, Out(), key, entry, rest);
      OneMoreOut(closing, waiting, lost, task, entry);
      pool := if key in pool && entry in pool[key] then pool[key := rest] else pool;
      waiting := waiting + Queue(task, [entry]);
    }

    /** Pools a new session; idle ones are taken out when the key is full, for the calling task to close. */
    method Add(key: SessionKey, now: real, task: Task) returns (entry: PoolEntry, evicted: seq<PoolEntry>)
      requires Valid()
      modifies this`pool, this`home, this`waiting
      ensures Valid()
      ensures fresh(entry) && entry.createdAt == entry.lastUsed == now && !entry.inUse
      ensures home == old(home)[entry := key] && Leaked() == old(Leaked())
      ensures waiting == old(waiting) + Queue(task, evicted)
      ensures key in pool && pool == old(pool)[key := pool[key]]
      ensures Admitted(if key in old(pool) then old(pool)[key] else [], pool[key], entry, evicted, perKeyMax)
    {
      var entries := if key in pool then pool[key] else [];
      var list;
      list, entry, evicted := Admit(entries, perKeyMax, now);
      assert entries == if key in old(pool) then old(pool)[key] else [];
      Install(key, list[..|list| - 1], entry, evicted, task);
    }

    /** The list of a key, without the evicted entries and with a new one, replaces the old list. */
    method Install(key: SessionKey, rest: seq<PoolEntry>, entry: PoolEntry, evicted: seq<PoolEntry>, task: Task)
      requires Valid() && entry !in home && entry !in Out()
      requires Divided(if key in pool then pool[key] else [], rest, evicted)
      modifies this`pool, this`home, this`waiting
      ensures Valid() && home == old(home)[entry := key] && Leaked() == old(Leaked())
      ensures waiting == old(waiting) + Queue(task, evicted) && pool == old(pool)[key := rest + [entry]]
    {
      AddTakesOut(pool, home, closing, waiting, lost, task, key, rest, evicted, entry);
      pool := pool[key := rest + [entry]];
      home := home[entry := key];
      waiting := waiting + Queue(task, evicted);
    }

    /** Takes out all entries of a key, in use or not. */
    method TakeKey(key: SessionKey, task: Task) returns (entries: seq<PoolEntry>)
      requires Valid()
      modifies this`pool, this`waiting
      ensures Valid()
      ensures pool == old(pool) - {key} && entries == if key in old(pool) then old(pool)[key] else []
      ensures waiting == old(waiting) + Queue(task, entries) && Leaked() == old(Leaked())
    {
      entries := if key in pool then pool[key] else [];
      DropConserves(pool, home, Out(), key);
      TakenOut(pool, pool - {key}, home, closing, waiting, lost, task, entries);
      pool := pool - {key};
      waiting := waiting + Queue(task, entries);
    }

    /** Takes out all entries of all keys, in some order. */
    method TakeAll(task: Task) returns (entries: seq<PoolEntry>)
      requires Valid()
      modifies this`pool, this`waiting
      ensures Valid() && pool == map[]
      ensures forall e :: e in entries <==> Pooled(old(pool), e)
      ensures waiting == old(waiting) + Queue(task, entries) && Leaked() == old(Leaked())
    {
      entries := ListAll(pool);
      TakenOut(pool, map[], home, closing, waiting, lost, task, entries);
      pool := map[];
      waiting := waiting + Queue(task, entries);
    }

    /** Takes out the entries that are due for reaping. */
    method TakeExpired(now: real, task: Task) returns (expired: seq<PoolEntry>)
      requires Valid()
      modifies this`pool, this`waiting
      ensures Valid()
      ensures waiting == old(waiting) + Queue(task, expired) && Distinct(expired) && Leaked() == old(Leaked())
      ensures forall e :: e in expired <==> Pooled(old(pool), e) && Expired(e, now, ttl)
      ensures forall k, e :: k in pool && e in pool[k] ==> k in old(pool) && e in old(pool)[k]
      ensures forall k, e :: k in pool && e in pool[k] ==> !Expired(e, now, ttl)
      ensures forall k, e :: k in old(pool) && e in old(pool)[k] && !Expired(e, now, ttl) ==> k in pool && e in pool[k]
      ensures forall k :: k in pool ==> k in old(pool) && pool[k] != [] && InOrder(old(pool)[k], pool[k])
    {
      var rest;
      rest, expired := Sweep(pool, home, Out(), now, ttl);
      TakenOut(pool, rest, home, closing, waiting, lost, task, expired);
      pool := rest;
      waiting := waiting + Queue(task, expired);
    }

    /** One step of a close loop: the close of a waiting entry begins. */
    method CloseNext(i: nat)
      requires Valid() && i < |waiting|
      modifies this`waiting, this`closing
      ensures Valid() && closing + Entries(waiting) == old(closing + Entries(waiting)) && Leaked() == old(Leaked())
      ensures waiting == old(waiting)[..i] + old(waiting)[i + 1..] && closing == old(closing) + {old(waiting)[i].entry}
    {
      EntriesDequeued(waiting, i);
      closing := closing + {waiting[i].entry};
      waiting := waiting[..i] + waiting[i + 1..];
      assert Out() == old(Out());
    }

    /** A whole close loop that nothing interrupts. */
    method Drain(task: Task)
      requires Valid()
      modifies this`waiting, this`closing
      ensures Valid() && Leaked() == old(Leaked())
      ensures waiting == Others(old(waiting), task) && closing == old(closing) + EntriesOf(old(waiting), task)
    {
      var i := 0;
      while i < |waiting|
        invariant i <= |waiting| && forall j :: 0 <= j < i ==> waiting[j].task != task
        invariant Valid() && closing + Entries(waiting) == old(closing + Entries(waiting))
        invariant Others(waiting, task) == Others(old(waiting), task)
        invariant closing + EntriesOf(waiting, task) == old(closing) + EntriesOf(old(waiting), task)
        decreases |waiting| - i
      {
        if waiting[i].task == task {
          Dequeued(waiting, i);
          CloseNext(i);
        } else {
          i := i + 1;
        }
      }
      AllOthers(waiting, task);
      assert EntriesOf(waiting, task) == {};
    }

    /** The task is cancelled, in its close loop or elsewhere: what it has yet to close is forgotten. */
    method Cancel(task: Task)
      requires Valid()
      modifies this`waiting, this`lost
      ensures Valid()
      ensures waiting == Others(old(waiting), task) && lost == old(lost) + EntriesOf(old(waiting), task)
      ensures Leaked() == old(Leaked()) + (home.Keys * EntriesOf(old(waiting), task) - Entries(waiting) - closing)
    {
      EntriesDivided(waiting, task);
      lost := lost + EntriesOf(waiting, task);
      waiting := Others(waiting, task);
      assert Out() == old(Out());
    }

    /** Drops and closes all entries of a key, if nothing interrupts. */
    method RemoveAll(key: SessionKey, task: Task) returns (count: nat)
      requires Valid()
      modifies this`pool, this`waiting, this`closing
      ensures Valid()
      ensures pool == old(pool) - {key} && count == if key in old(pool) then |old(pool)[key]| else 0
      ensures waiting == Others(old(waiting), task)
      ensures closing == old(closing) + EntriesOf(old(waiting), task)
                         + if key in old(pool) then set e | e in old(pool)[key] else {}
    {
      var entries := TakeKey(key, task);
      Queued(old(waiting), task, entries);
      Drain(task);
      count := |entries|;
    }

    /** One pass of the reaper, if nothing interrupts. */
    method ReapExpired(now: real, task: Task) returns (expired: seq<PoolEntry>)
      requires Valid()
      modifies this`pool, this`waiting, this`closing
      ensures Valid()
      ensures waiting == Others(old(waiting), task)
      ensures closing == old(closing) + EntriesOf(old(waiting), task) + set e | e in expired
      ensures forall e :: e in expired <==> Pooled(old(pool), e) && Expired(e, now, ttl)
      ensures forall k, e :: k in pool && e in pool[k] ==> k in old(pool) && e in old(pool)[k]
      ensures forall k, e :: k in pool && e in pool[k] ==> !Expired(e, now, ttl)
      ensures forall k, e :: k in old(pool) && e in old(pool)[k] && !Expired(e, now, ttl) ==> k in pool && e in pool[k]
    {
      expired := TakeExpired(now, task);
      Queued(old(waiting), task, expired);
      Drain(task);
    }

    /** The first step of stopping: no more sessions are handed out and the reaper, if any, is cancelled. */
    method BeginStop()
      requires Valid()
      modifies this`closed, this`reaping, this`waiting, this`lost
      ensures Valid() && closed && !reaping
      ensures waiting == if old(reaping) then Others(old(waiting), Reaper) else old(waiting)
      ensures lost == old(lost) + if old(reaping) then EntriesOf(old(waiting), Reaper) else {}
      ensures Leaked() == old(Leaked()) + old(LeftToReaper())
    {
      closed := true;
      if reaping {
        Cancel(Reaper);
        reaping := false;
      }
    }

    /** Stops the pool; once begun, nothing interrupts. */
    method Stop(task: Task)
      requires Valid()
      modifies this`pool, this`waiting, this`closing, this`closed, this`reaping, this`lost
      ensures Valid() && closed && !reaping && pool == map[]
      ensures Leaked() == old(Leaked()) + old(LeftToReaper())
      ensures home.Keys <= closing + Entries(waiting) <==> old(Leaked()) == {} && old(LeftToReaper()) == {}
      ensures waiting == Others(if old(reaping) then Others(old(waiting), Reaper) else old(waiting), task)
    {
      BeginStop();
      CloseAll(task);
    }

    /** The second part of stopping: whatever is pooled is taken out and closed. */
    method CloseAll(task: Task)
      requires Valid()
      modifies this`pool, this`waiting, this`closing
      ensures Valid() && pool == map[] && waiting == Others(old(waiting), task) && Leaked() == old(Leaked())
      ensures home.Keys <= closing + Entries(waiting) <==> Leaked() == {}
    {
      var entries := TakeAll(task);
      Queued(old(waiting), task, entries);
      Drain(task);
      StrandedWhenEmpty(home, closing + Entries(waiting));
    }

    method Start()
      modifies this`closed, this`reaping
      ensures reaping && closed == (old(reaping) && old(closed))
    {
      if reaping {
        return;
      }
      closed, reaping := false, true;
    }
  }

  /** All entries of all keys. */
  method ListAll(pool: map<SessionKey, seq<PoolEntry>>) returns (entries: seq<PoolEntry>)
    ensures forall e :: e in entries <==> Pooled(pool, e)
  {
    entries := [];
    var todo := pool.Keys;
    while todo != {}
      invariant todo <= pool.Keys
      invariant forall e :: e in entries <==> exists k :: k in pool && k !in todo && e in pool[k]
      decreases todo
    {
      var key :| key in todo;
      todo := todo - {key};
      entries := entries + pool[key];
    }
  }

  /** The sweep over all keys; keys left without entries disappear. */
  method Sweep(
    all: map<SessionKey, seq<PoolEntry>>, ghost home: map<PoolEntry, SessionKey>, ghost out: set<PoolEntry>,
    now: real, ttl: real)
      returns (pool: map<SessionKey, seq<PoolEntry>>, expired: seq<PoolEntry>)
    requires Conserved(all, home, out)
    ensures Conserved(pool, home, out + set e | e in expired) && Distinct(expired)
    ensures forall e :: e in expired <==> Pooled(all, e) && Expired(e, now, ttl)
    ensures forall k, e :: k in pool && e in pool[k] ==> k in all && e in all[k]
    ensures forall k, e :: k in pool && e in pool[k] ==> !Expired(e, now, ttl)
    ensures forall k, e :: k in all && e in all[k] && !Expired(e, now, ttl) ==> k in pool && e in pool[k]
    ensures forall k :: k in pool ==> k in all && pool[k] != [] && InOrder(all[k], pool[k])
  {
    pool, expired := all, [];
    var todo := all.Keys;
    assert out + (set e | e in expired) == out;
    while todo != {}
      invariant todo <= all.Keys && Conserved(pool, home, out + set e | e in expired) && Distinct(expired)
      invariant forall k :: k in todo ==> k in pool && pool[k] == all[k]
      invariant forall e :: e in expired ==> Pooled(all, e) && Expired(e, now, ttl)
      invariant forall k :: k in pool ==> k in all && (k in todo || (pool[k] != [] && InOrder(all[k], pool[k])))
      invariant forall k, e :: k in pool && e in pool[k] ==> e in all[k]
      invariant forall k, e :: k in pool && k !in todo && e in pool[k] ==> !Expired(e, now, ttl)
      decreases todo
    {
      var key :| key in todo;
      todo := todo - {key};
      var rest, gone := SplitExpired(pool[key], now, ttl);
      ghost var goneSet := set e | e in gone;
      ghost var before := out + set e | e in expired;
      ShrinkConserves(pool, home, before, key, rest, goneSet);
      assert forall e :: e in gone ==> e !in before;
      JoinDistinct(expired, gone);
      expired := expired + gone;
      assert out + (set e | e in expired) == before + goneSet;
      pool := if rest == [] then pool - {key} else pool[key := rest];
    }
    StillPooledOrOut(all, pool, home, out, out + (set e | e in expired));
  }

  lemma JoinDistinct<E>(a: seq<E>, b: seq<E>)
    requires Distinct(a) && Distinct(b) && forall e :: e in b ==> e !in a
    ensures Distinct(a + b)
  {
    assert forall j :: |a| <= j < |a + b| ==> (a + b)[j] in b;
  }

  lemma StillPooledOrOut<K, E>(was: map<K, seq<E>>, pool: map<K, seq<E>>, home: map<E, K>, out: set<E>, out': set<E>)
    requires Conserved(was, home, out) && Conserved(pool, home, out')
    ensures forall k, e :: k in was && e in was[k] ==> e !in out && (e in out' || (k in pool && e in pool[k]))
  {
  }

  lemma DropConserves<K, E>(pool: map<K, seq<E>>, home: map<E, K>, out: set<E>, key: K)
    requires Conserved(pool, home, out)
    ensures Conserved(pool - {key}, home, out + if key in pool then set e | e in pool[key] else {})
  {
  }

  lemma AddConserves<K, E>(
    pool: map<K, seq<E>>, home: map<E, K>, out: set<E>, key: K, rest: seq<E>, gone: seq<E>, entry: E)
    requires Conserved(pool, home, out) && entry !in home && entry !in out
    requires Divided(if key in pool then pool[key] else [], rest, gone)
    ensures Conserved(pool[key := rest + [entry]], home[entry := key], out + set e | e in gone)
  {
    var entries := if key in pool then pool[key] else [];
    var evicted := set e | e in gone;
    SetDefault(pool, home, out, key);
    ShrinkConserves(pool[key := entries], home, out, key, rest, evicted);
    assert pool[key := entries][key := rest] == pool[key := rest];
    GrowConserves(pool[key := rest], home, out + evicted, key, entry);
    assert pool[key := rest][key := rest + [entry]] == pool[key := rest + [entry]];
  }

  lemma AddTakesOut(
    was: map<SessionKey, seq<PoolEntry>>, home: map<PoolEntry, SessionKey>, closing: set<PoolEntry>, ws: seq<Waiting>,
    lost: set<PoolEntry>, task: Task, key: SessionKey, rest: seq<PoolEntry>, evicted: seq<PoolEntry>, entry: PoolEntry)
    requires Conserved(was, home, closing + Entries(ws) + lost)
    requires entry !in home && entry !in closing + Entries(ws) + lost
    requires Divided(if key in was then was[key] else [], rest, evicted)
    ensures Conserved(
              was[key := rest + [entry]], home[entry := key], closing + Entries(ws + Queue(task, evicted)) + lost)
    ensures Stranded(was[key := rest + [entry]], home[entry := key], closing + Entries(ws + Queue(task, evicted)))
            == Stranded(was, home, closing + Entries(ws))
  {
    var out, gone, ws' := closing + Entries(ws) + lost, (set e | e in evicted), ws + Queue(task, evicted);
    AddConserves(was, home, out, key, rest, evicted, entry);
    Queued(ws, task, evicted);
    assert closing + Entries(ws') + lost == out + gone;
    StrandedAreOut(was, home, out, closing + Entries(ws));
    StrandedAreOut(was[key := rest + [entry]], home[entry := key], out + gone, closing + Entries(ws'));
    assert gone !! out;
    assert entry !in gone;
  }

  /** `setdefault(key, [])` changes nothing that matters. */
  lemma SetDefault<K, E>(pool: map<K, seq<E>>, home: map<E, K>, out: set<E>, key: K)
    requires Conserved(pool, home, out)
    ensures Conserved(pool[key := if key in pool then pool[key] else []], home, out)
  {
  }

  lemma OneMoreOut(closing: set<PoolEntry>, ws: seq<Waiting>, lost: set<PoolEntry>, task: Task, entry: PoolEntry)
    ensures closing + Entries(ws + Queue(task, [entry])) + lost == closing + Entries(ws) + lost + {entry}
  {
    Queued(ws, task, [entry]);
    assert (set e | e in [entry]) == {entry};
  }

  /** After a failed release the pool is sound exactly if the entry was not pooled under another key. */
  lemma ReleaseVerdict<K, E>(was: map<K, seq<E>>, home: map<E, K>, out: set<E>, key: K, entry: E, rest: seq<E>)
    requires Conserved(was, home, out) && Distinct(rest)
    requires key in was ==> forall e :: e in rest <==> e in was[key] && e != entry
    ensures var pool := if key in was && entry in was[key] then was[key := rest] else was;
            && (Conserved(pool, home, out + {entry}) <==> (Pooled(was, entry) ==> home[entry] == key))
            && (entry in home && home[entry] == key ==> !Pooled(pool, entry))
  {
    if key in was && entry in was[key] {
      ShrinkConserves(was, home, out, key, rest, {entry});
    }
  }

  // ---------------------------------------------------------------------------------------------
  // Whole runs

  /** The steps of clients and of the reaper, which may come in any order: a close loop is a number of `DoClose` steps
      with other steps between them. Handles number the entries obtained from adding and acquiring, in order. */
  datatype PoolOp =
    | DoAdd(key: SessionKey, now: real, task: Task)
    | DoAcquire(key: SessionKey, allowed: bool, now: real)
    | DoRelease(handle: nat, failed: bool, now: real, task: Task)
    | DoTakeKey(key: SessionKey, task: Task)
    | DoTakeExpired(now: real, task: Task)
    | DoTakeAll(task: Task)
    | DoClose(i: nat)
    | DoCancel(task: Task)
    | DoBeginStop
    | DoStart

  /** Does the step cancel a task? */
  predicate Cancels(op: PoolOp) {
    op.DoCancel? || op.DoBeginStop?
  }

  /** Any run of a fresh pool in which entries are released under their own key, with the close loops of all tasks
      interleaved: at the end every session ever added is in exactly one place, what is handed out is in use, and only
      sessions that waited for a cancelled task can have leaked. */
  method RunPool(script: seq<PoolOp>, perKeyMax: int, ttl: real)
      returns (p: Pool, handles: seq<(PoolEntry, SessionKey)>)
    ensures fresh(p) && p.Valid() && p.HeldBusy()
    ensures forall e :: e in p.home ==> (Pooled(p.pool, e) <==> e !in p.closing + Entries(p.waiting) + p.lost)
    ensures p.Leaked() <= p.lost
    ensures (forall i :: 0 <= i < |script| ==> !Cancels(script[i])) ==> p.Leaked() == {}
    ensures forall h :: h in handles ==> h.0 in p.home && p.home[h.0] == h.1
  {
    p := new Pool(perKeyMax, ttl);
    handles := [];
    for n := 0 to |script|
      invariant fresh(p) && fresh(p.home.Keys) && p.Valid() && p.HeldBusy()
      invariant (forall i :: 0 <= i < n ==> !Cancels(script[i])) ==> p.lost == {}
      invariant forall h :: h in handles ==> h.0 in p.home && p.home[h.0] == h.1
    {
      handles := RunOp(p, script[n], handles);
    }
    forall e | e in p.home ensures Pooled(p.pool, e) <==> e !in p.Out() {
      InPoolOrOut(p.pool, p.home, p.Out(), e);
    }
  }

  /** One step of a run; unknown handles and positions do nothing. */
  method RunOp(p: Pool, op: PoolOp, handles: seq<(PoolEntry, SessionKey)>) returns (more: seq<(PoolEntry, SessionKey)>)
    requires p.Valid() && p.HeldBusy()
    requires forall h :: h in handles ==> h.0 in p.home && p.home[h.0] == h.1
    modifies p, p.home.Keys
    ensures p.Valid() && p.HeldBusy() && fresh(p.home.Keys - old(p.home.Keys))
    ensures old(p.lost) <= p.lost && (!Cancels(op) ==> p.lost == old(p.lost))
    ensures forall h :: h in more ==> h.0 in p.home && p.home[h.0] == h.1
  {
    more := handles;
    match op
    case DoAdd(key, now, task) =>
      var entry, _ := p.Add(key, now, task);
      more := handles + [(entry, key)];
    case DoAcquire(key, allowed, now) =>
      var entry := p.Acquire(key, allowed, now);
      if entry != null { more := handles + [(entry, key)]; }
    case DoRelease(handle, failed, now, task) =>
      if handle < |handles| {
        assert handles[handle] in handles;
        p.Release(handles[handle].1, handles[handle].0, failed, now, task);
      }
    case DoTakeKey(key, task) => var _ := p.TakeKey(key, task);
    case DoTakeExpired(now, task) => var _ := p.TakeExpired(now, task);
    case DoTakeAll(task) => var _ := p.TakeAll(task);
    case DoClose(i) => if i < |p.waiting| { p.CloseNext(i); }
    case DoCancel(task) => p.Cancel(task);
    case DoBeginStop => p.BeginStop();
    case DoStart => p.Start();
  }

  /** Adding a session, with the close loop that follows. */
  method AddAndClose(p: Pool, key: SessionKey, now: real) returns (entry: PoolEntry)
    requires p.Valid() && p.waiting == []
    modifies p`pool, p`home, p`waiting, p`closing
    ensures p.Valid() && p.waiting == []
    ensures fresh(entry) && entry.createdAt == now && !entry.inUse
    ensures key in p.pool && entry in p.pool[key] && p.pool == old(p.pool)[key := p.pool[key]]
  {
    var evicted;
    entry, evicted := p.Add(key, now, Client(0));
    Queued([], Client(0), evicted);
    p.Drain(Client(0));
  }

  /** A list of entries that are all waiting for the reaper, at least two. */
  ghost predicate TwoForReaper(ws: seq<Waiting>) {
    |ws| >= 2 && ws[0].entry != ws[1].entry && forall i :: 0 <= i < |ws| ==> ws[i].task == Reaper
  }

  lemma BothQueued(expired: seq<PoolEntry>, a: PoolEntry, b: PoolEntry)
    requires a in expired && b in expired && a != b && Distinct(expired)
    ensures TwoForReaper([] + Queue(Reaper, expired))
  {
    assert [] + Queue(Reaper, expired) == Queue(Reaper, expired);
  }

  lemma SecondIsLeft(home: map<PoolEntry, SessionKey>, ws: seq<Waiting>, closing: set<PoolEntry>)
    requires TwoForReaper(ws) && ws[1].entry in home && ws[1].entry !in closing
    ensures var rest := ws[..0] + ws[1..];
            && Others(rest, Reaper) == []
            && ws[1].entry in home.Keys * EntriesOf(rest, Reaper)
                              - Entries(Others(rest, Reaper)) - (closing + {ws[0].entry})
  {
    var rest := ws[..0] + ws[1..];
    NoOthers(rest, Reaper);
    assert rest[0] == ws[1];
  }

  /** A reaper pass takes two sessions out. */
  method ReapTwo(p: Pool, first: SessionKey, second: SessionKey, a: PoolEntry, b: PoolEntry, now: real)
    requires p.Valid() && p.waiting == [] && a != b
    requires first in p.pool && a in p.pool[first] && second in p.pool && b in p.pool[second]
    requires Expired(a, now, p.ttl) && Expired(b, now, p.ttl)
    modifies p`pool, p`waiting
    ensures p.Valid() && TwoForReaper(p.waiting)
    ensures p.waiting[1].entry in p.home && p.waiting[1].entry !in p.closing
  {
    var expired := p.TakeExpired(now, Reaper);
    assert Pooled(old(p.pool), a) && Pooled(old(p.pool), b);
    BothQueued(expired, a, b);
    assert p.waiting[1].entry in expired;
  }

  /** A pool with two sessions of the same age under different keys. */
  method PoolOfTwo(first: SessionKey, second: SessionKey) returns (p: Pool, a: PoolEntry, b: PoolEntry)
    requires first != second
    ensures fresh(p) && p.Valid() && p.held == {} && p.reaping && p.waiting == [] && a != b && p.ttl == 300.0
    ensures fresh(a) && first in p.pool && a in p.pool[first] && !a.inUse && a.createdAt == 0.0
    ensures fresh(b) && second in p.pool && b in p.pool[second] && !b.inUse && b.createdAt == 0.0
  {
    p := new Pool(4, 300.0);
    p.Start();
    a := AddAndClose(p, first, 0.0);
    var list := p.pool[first];
    b := AddAndClose(p, second, 0.0);
    assert p.pool[first] == list;
  }

  /** Before the reaper closes the second of two expired sessions, the pool is stopped: that session leaks. */
  method StopDuringReapLeaks(first: SessionKey, second: SessionKey) returns (p: Pool, leaked: PoolEntry)
    requires first != second
    ensures p.closed && p.pool == map[] && p.Valid()
    ensures leaked in p.Leaked()
  {
    var a, b;
    p, a, b := PoolOfTwo(first, second);
    ReapTwo(p, first, second, a, b, 300.0);
    leaked := p.waiting[1].entry;
    SecondIsLeft(p.home, p.waiting, p.closing);
    p.CloseNext(0);
    assert leaked in p.LeftToReaper();
    p.Stop(Client(0));
  }

  /** A failed session is released under another key: it is to be closed and stays in the pool. */
  method ForeignReleaseBreaks(first: SessionKey, second: SessionKey) returns (p: Pool, entry: PoolEntry)
    requires first != second
    ensures !p.Valid() && Pooled(p.pool, entry) && entry in Entries(p.waiting)
  {
    var other;
    p, entry, other := PoolOfTwo(first, second);
    assert p.home[entry] == first;
    Queued([], Client(0), [entry]);
    p.Release(second, entry, true, 0.0, Client(0));
    assert entry in p.pool[first] && entry in [entry];
  }
}
