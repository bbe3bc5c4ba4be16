/** Sliding-window rate limiter with authentication lockout (argus_mcp/server/rate_limit.py). */
module RateLimit {
  import opened Common

  /** The configured limits; durations in seconds. */
  datatype Config = Config(
    enabled: bool,
    requests: nat,
    window: real,
    threshold: nat,
    failureWindow: real,
    lockoutDuration: real)
  {
    predicate Valid() {
      requests >= 1 && window > 0.0 && threshold >= 1 && failureWindow > 0.0 && lockoutDuration > 0.0
    }
  }

  // ---------------------------------------------------------------------------------------------
  // A cache whose entries expire a fixed time after they were written

  datatype Stamped<T> = Stamped(value: T, expires: real)

  type Cache<T> = map<string, Stamped<T>>

  function Lookup<T>(cache: Cache<T>, ip: string, timer: real): Option<T> {
    if ip in cache && timer < cache[ip].expires then Some(cache[ip].value) else None
  }

  function Store<T>(cache: Cache<T>, ip: string, value: T, timer: real, ttl: real): Cache<T> {
    cache[ip := Stamped(value, timer + ttl)]
  }

  function LogOf(cache: Cache<seq<real>>, ip: string, timer: real): seq<real> {
    var found := Lookup(cache, ip, timer);
    if found.Some? then found.value else []
  }

  // ---------------------------------------------------------------------------------------------
  // Windows over histories

  /** The timestamps at or after `start`. */
  function Prune(ts: seq<real>, start: real): (kept: seq<real>)
    ensures |kept| <= |ts|
  {
    if ts == [] then []
    else
      var n := |ts| - 1;
      var earlier := Prune(ts[..n], start);
      if ts[n] >= start then earlier + [ts[n]] else earlier
  }

  /** Pruning keeps exactly the timestamps at or after the start, each as often as it occurs. */
  lemma {:induction false} PruneKeeps(ts: seq<real>, start: real, t: real)
    ensures multiset(Prune(ts, start))[t] == if t >= start then multiset(ts)[t] else 0
  {
    if ts == [] {
    } else {
      var n := |ts| - 1;
      PruneKeeps(ts[..n], start, t);
      assert ts == ts[..n] + [ts[n]];
    }
  }

  /** The timestamps in the closed interval from `a` to `b`. */
  ghost function Within(ts: seq<real>, a: real, b: real): seq<real> {
    if ts == [] then []
    else
      var n := |ts| - 1;
      var earlier := Within(ts[..n], a, b);
      if a <= ts[n] <= b then earlier + [ts[n]] else earlier
  }

  lemma {:induction false} PruneTwice(ts: seq<real>, early: real, late: real)
    requires early <= late
    ensures Prune(Prune(ts, early), late) == Prune(ts, late)
  {
    if ts == [] {
    } else {
      var n := |ts| - 1;
      PruneTwice(ts[..n], early, late);
      var kept := Prune(ts[..n], early);
      if ts[n] >= early {
        assert (kept + [ts[n]])[..|kept|] == kept;
      }
    }
  }

  lemma {:induction false} PruneAll(ts: seq<real>, start: real)
    requires forall i :: 0 <= i < |ts| ==> ts[i] < start
    ensures Prune(ts, start) == []
  {
    if ts == [] {
    } else {
      PruneAll(ts[..|ts| - 1], start);
    }
  }

  lemma {:induction false} WithinIsPruned(ts: seq<real>, a: real, b: real, start: real)
    requires start <= a
    ensures |Within(ts, a, b)| <= |Prune(ts, start)|
  {
    if ts == [] {
    } else {
      WithinIsPruned(ts[..|ts| - 1], a, b, start);
    }
  }

  lemma {:induction false} WithinNothing(ts: seq<real>, a: real, b: real)
    requires forall i :: 0 <= i < |ts| ==> ts[i] < a
    ensures Within(ts, a, b) == []
  {
    if ts == [] {
    } else {
      WithinNothing(ts[..|ts| - 1], a, b);
    }
  }

  ghost predicate NoneAfter(ts: seq<real>, b: real) {
    forall i :: 0 <= i < |ts| ==> ts[i] <= b
  }

  /** A history of admissions: in order of time, each within the limit when it was granted. */
  ghost predicate Granted(cfg: Config, ts: seq<real>) {
    ts == [] ||
    var n := |ts| - 1;
    && Granted(cfg, ts[..n])
    && NoneAfter(ts[..n], ts[n])
    && |Prune(ts[..n], ts[n] - cfg.window)| < cfg.requests
  }

  /** Admission bound: no closed interval as long as the window holds more than `requests` admissions. */
  lemma {:induction false} AdmissionBound(cfg: Config, ts: seq<real>, a: real)
    requires Granted(cfg, ts)
    ensures |Within(ts, a, a + cfg.window)| <= cfg.requests
  {
    if ts == [] {
    } else {
      var n := |ts| - 1;
      var last, earlier := ts[n], ts[..n];
      if last > a + cfg.window {
        AdmissionBound(cfg, earlier, a);
      } else if last < a {
        WithinNothing(earlier, a, a + cfg.window);
      } else {
        WithinIsPruned(earlier, a, a + cfg.window, last - cfg.window);
      }
    }
  }

  lemma GrantOneMore(cfg: Config, ts: seq<real>, now: real)
    requires Granted(cfg, ts) && NoneAfter(ts, now) && |Prune(ts, now - cfg.window)| < cfg.requests
    ensures Granted(cfg, ts + [now])
  {
    assert (ts + [now])[..|ts|] == ts;
  }

  // ---------------------------------------------------------------------------------------------
  // The request log against the full history

  /** The cached log of one address tells as much about the current window as its full history. */
  ghost predicate Tracks(cfg: Config, cache: Cache<seq<real>>, ip: string, history: seq<real>, clock: real) {
    if ip in cache then
      && NoneAfter(history, cache[ip].expires - 2.0 * cfg.window)
      && Prune(cache[ip].value, clock - cfg.window) == Prune(history, clock - cfg.window)
    else history == []
  }

  lemma TracksLater(cfg: Config, cache: Cache<seq<real>>, ip: string, history: seq<real>, clock: real, now: real)
    requires Tracks(cfg, cache, ip, history, clock) && clock <= now
    ensures Tracks(cfg, cache, ip, history, now)
  {
    if ip in cache {
      PruneTwice(cache[ip].value, clock - cfg.window, now - cfg.window);
      PruneTwice(history, clock - cfg.window, now - cfg.window);
    }
  }

  /** Expiry after twice the window never forgets a timestamp that still counts. */
  lemma LogIsExact(cfg: Config, cache: Cache<seq<real>>, ip: string, history: seq<real>, now: real, timer: real)
    requires cfg.Valid() && Tracks(cfg, cache, ip, history, now) && now <= timer < now + cfg.window
    ensures Prune(LogOf(cache, ip, timer), now - cfg.window) == Prune(history, now - cfg.window)
  {
    if ip in cache && timer >= cache[ip].expires {
      PruneAll(history, now - cfg.window);
    }
  }

  lemma StoredTracks(
    cfg: Config, cache: Cache<seq<real>>, ip: string, history: seq<real>, log: seq<real>, now: real, timer: real)
    requires cfg.Valid() && now <= timer && NoneAfter(history, now)
    requires Prune(log, now - cfg.window) == Prune(history, now - cfg.window)
    ensures Tracks(cfg, Store(cache, ip, log, timer, 2.0 * cfg.window), ip, history, now)
  {
  }

  lemma AppendBoth(log: seq<real>, history: seq<real>, now: real, start: real)
    requires Prune(log, start) == Prune(history, start)
    ensures Prune(log + [now], start) == Prune(history + [now], start)
  {
    assert (log + [now])[..|log|] == log && (history + [now])[..|history|] == history;
  }

  // ---------------------------------------------------------------------------------------------
  // Lockouts

  /** The failures a new failure is counted with. */
  function Counted(cfg: Config, log: seq<real>, now: real): seq<real> {
    Prune(log, now - cfg.failureWindow) + [now]
  }

  /** All timestamps lie in the closed interval of the given length from `a` on. */
  ghost predicate Spans(ts: seq<real>, a: real, length: real) {
    forall i :: 0 <= i < |ts| ==> a <= ts[i] <= a + length
  }

  /** All timestamps fit in one failure window. */
  ghost predicate FitsWindow(cfg: Config, ts: seq<real>) {
    exists a :: Spans(ts, a, cfg.failureWindow)
  }

  /** No logged failure starts more than a window after one it is counted with, or after the new one. */
  ghost predicate NoLateFailure(cfg: Config, log: seq<real>, now: real) {
    var kept := Prune(log, now - cfg.failureWindow);
    forall i :: 0 <= i < |kept| && kept[i] > now ==>
      kept[i] - now <= cfg.failureWindow && forall j :: 0 <= j < |kept| ==> kept[i] - kept[j] <= cfg.failureWindow
  }

  lemma {:induction false} LeastIndex(ts: seq<real>) returns (k: nat)
    requires ts != []
    ensures k < |ts| && forall i :: 0 <= i < |ts| ==> ts[k] <= ts[i]
  {
    k := 0;
    if |ts| > 1 {
      var j := LeastIndex(ts[1..]);
      if ts[1..][j] < ts[0] { k := j + 1; }
      assert forall i :: 1 <= i < |ts| ==> ts[i] == ts[1..][i - 1];
    }
  }

  lemma {:induction false} PrunedAfter(ts: seq<real>, start: real)
    ensures forall i :: 0 <= i < |Prune(ts, start)| ==> Prune(ts, start)[i] >= start
    ensures forall b :: NoneAfter(ts, b) ==> NoneAfter(Prune(ts, start), b)
  {
    if ts == [] {
    } else {
      var n := |ts| - 1;
      PrunedAfter(ts[..n], start);
      forall b | NoneAfter(ts, b) ensures NoneAfter(Prune(ts, start), b) { assert NoneAfter(ts[..n], b); }
    }
  }

  /** The counted failures lie in one window exactly when no logged failure is late. */
  lemma CountedFitsExactlyWhen(cfg: Config, log: seq<real>, now: real)
    requires cfg.Valid()
    ensures FitsWindow(cfg, Counted(cfg, log, now)) <==> NoLateFailure(cfg, log, now)
    ensures NoneAfter(log, now) ==> Spans(Counted(cfg, log, now), now - cfg.failureWindow, cfg.failureWindow)
  {
    var kept, counted := Prune(log, now - cfg.failureWindow), Counted(cfg, log, now);
    PrunedAfter(log, now - cfg.failureWindow);
    assert counted[|kept|] == now && forall i :: 0 <= i < |kept| ==> counted[i] == kept[i];
    if NoLateFailure(cfg, log, now) {
      var k := LeastIndex(counted);
      assert Spans(counted, counted[k], cfg.failureWindow);
    }
    if FitsWindow(cfg, counted) {
      var a :| Spans(counted, a, cfg.failureWindow);
      assert NoLateFailure(cfg, log, now);
    }
  }

  // ---------------------------------------------------------------------------------------------
  // What the failure log keeps of the failures

  /** The log after recording these failures one by one, if it never expires. */
  function Kept(cfg: Config, fs: seq<real>): seq<real> {
    if fs == [] then [] else Counted(cfg, Kept(cfg, fs[..|fs| - 1]), fs[|fs| - 1])
  }

  /** No failure from `start` on was pruned because a later one began more than a window after it. */
  ghost predicate NoneOvertaken(cfg: Config, fs: seq<real>, start: real) {
    forall i, j :: 0 <= i < j < |fs| ==> !(start <= fs[i] < fs[j] - cfg.failureWindow)
  }

  lemma {:induction false} PruneAgain(ts: seq<real>, early: real, late: real)
    requires early <= late
    ensures Prune(Prune(ts, late), early) == Prune(ts, late)
  {
    if ts == [] {
    } else {
      var n := |ts| - 1;
      PruneAgain(ts[..n], early, late);
      var kept := Prune(ts[..n], late);
      if ts[n] >= late {
        assert (kept + [ts[n]])[..|kept|] == kept;
      }
    }
  }

  lemma {:induction false} PruneNothing(ts: seq<real>, start: real)
    ensures |Prune(ts, start)| == |ts| ==> Prune(ts, start) == ts
    ensures Prune(ts, start) == ts <==> forall i :: 0 <= i < |ts| ==> ts[i] >= start
  {
    if ts == [] {
    } else {
      var n := |ts| - 1;
      PruneNothing(ts[..n], start);
      assert ts == ts[..n] + [ts[n]];
    }
  }

  lemma {:induction false} PruneAppend(a: seq<real>, b: seq<real>, start: real)
    ensures Prune(a + b, start) == Prune(a, start) + Prune(b, start)
  {
    if b == [] {
      assert a + b == a;
    } else {
      var n := |b| - 1;
      PruneAppend(a, b[..n], start);
      assert (a + b)[..|a + b| - 1] == a + b[..n];
    }
  }

  ghost predicate NoneBetween(fs: seq<real>, start: real, end: real) {
    forall i :: 0 <= i < |fs| ==> !(start <= fs[i] < end)
  }

  /** Two ways of pruning: the log at the last failure and then at `start`, or the failures before it at `start`. */
  lemma PrunedAlikeExactlyWhen(log: seq<real>, fs: seq<real>, start: real, last: real)
    requires |Prune(log, start)| <= |Prune(fs, start)|
    ensures Prune(Prune(log, last), start) == Prune(fs, start) <==>
            Prune(log, start) == Prune(fs, start) && NoneBetween(fs, start, last)
    ensures |Prune(Prune(log, last), start)| <= |Prune(fs, start)|
  {
    if last <= start {
      PruneTwice(log, last, start);
    } else {
      PruneAgain(log, start, last);
      PruneTwice(log, start, last);
      SameAfterPruning(Prune(log, start), Prune(fs, start), last);
      PrunedIndices(fs, start, last);
    }
  }

  lemma SameAfterPruning(a: seq<real>, b: seq<real>, start: real)
    requires |a| <= |b|
    ensures Prune(a, start) == b <==> a == b && forall i :: 0 <= i < |b| ==> b[i] >= start
  {
    PruneNothing(a, start);
    PruneNothing(b, start);
  }

  lemma PrunedIndices(fs: seq<real>, start: real, last: real)
    ensures (forall i :: 0 <= i < |Prune(fs, start)| ==> Prune(fs, start)[i] >= last) <==>
            NoneBetween(fs, start, last)
  {
    var kept := Prune(fs, start);
    if forall i :: 0 <= i < |kept| ==> kept[i] >= last {
      forall i | 0 <= i < |fs| ensures !(start <= fs[i] < last) {
        PruneKeeps(fs, start, fs[i]);
        assert fs[i] in multiset(fs);
      }
    } else {
      var i :| 0 <= i < |kept| && kept[i] < last;
      PruneKeeps(fs, start, kept[i]);
      assert kept[i] in multiset(kept);
      var j :| 0 <= j < |fs| && fs[j] == kept[i];
    }
  }

  /** The log counts the window from `start` like all its failures do exactly when none of them was overtaken. */
  lemma {:induction false} KeptCountsExactlyWhen(cfg: Config, fs: seq<real>, start: real)
    ensures Prune(Kept(cfg, fs), start) == Prune(fs, start) <==> NoneOvertaken(cfg, fs, start)
    ensures |Prune(Kept(cfg, fs), start)| <= |Prune(fs, start)|
  {
    if fs == [] {
    } else {
      var n := |fs| - 1;
      var before, f := fs[..n], fs[n];
      var log := Kept(cfg, before);
      KeptCountsExactlyWhen(cfg, before, start);
      PrunedAlikeExactlyWhen(log, before, start, f - cfg.failureWindow);
      LastPruned(Prune(log, f - cfg.failureWindow), before, f, start);
      assert before + [f] == fs;
      OvertakenByLast(cfg, before, f, start);
    }
  }

  lemma LastPruned(log: seq<real>, before: seq<real>, f: real, start: real)
    ensures Prune(log + [f], start) == Prune(before + [f], start) <==> Prune(log, start) == Prune(before, start)
    ensures |Prune(log + [f], start)| - |Prune(before + [f], start)| == |Prune(log, start)| - |Prune(before, start)|
  {
    assert (log + [f])[..|log|] == log && (before + [f])[..|before|] == before;
    var a, b := Prune(log, start), Prune(before, start);
    assert a + [f] == b + [f] ==> a == (a + [f])[..|a|] == b;
  }

  lemma OvertakenByLast(cfg: Config, before: seq<real>, f: real, start: real)
    ensures NoneOvertaken(cfg, before + [f], start) <==>
            NoneOvertaken(cfg, before, start) && NoneBetween(before, start, f - cfg.failureWindow)
  {
    var fs := before + [f];
    if NoneOvertaken(cfg, fs, start) {
      assert forall i :: 0 <= i < |before| ==> fs[i] == before[i];
      forall i | 0 <= i < |before| ensures !(start <= before[i] < f - cfg.failureWindow) {
        assert fs[i] == before[i] && fs[|before|] == f;
      }
    }
  }

  lemma KeptAppend(cfg: Config, before: seq<real>, f: real)
    ensures Kept(cfg, before + [f]) == Counted(cfg, Kept(cfg, before), f)
  {
    assert (before + [f])[..|before|] == before;
  }

  lemma {:induction false} KeptDraws(cfg: Config, fs: seq<real>, t: real)
    ensures multiset(Kept(cfg, fs))[t] <= multiset(fs)[t] && |Kept(cfg, fs)| <= |fs|
  {
    if fs == [] {
    } else {
      var before, f := fs[..|fs| - 1], fs[|fs| - 1];
      KeptDraws(cfg, before, t);
      assert fs == before + [f];
      KeptAppend(cfg, before, f);
      RecordDraws(cfg, Kept(cfg, before), before, f, t);
    }
  }

  lemma KeptIsDrawn(cfg: Config, fs: seq<real>)
    ensures multiset(Kept(cfg, fs)) <= multiset(fs) && |Kept(cfg, fs)| <= |fs|
  {
    KeptDraws(cfg, fs, 0.0);
    var kept := Kept(cfg, fs);
    forall t ensures multiset(kept)[t] <= multiset(fs)[t] { KeptDraws(cfg, fs, t); }
  }

  lemma RecordDraws(cfg: Config, log: seq<real>, before: seq<real>, f: real, t: real)
    requires multiset(log)[t] <= multiset(before)[t] && |log| <= |before|
    ensures multiset(Counted(cfg, log, f))[t] <= multiset(before + [f])[t] && |Counted(cfg, log, f)| <= |before| + 1
  {
    PruneKeeps(log, f - cfg.failureWindow, t);
  }

  lemma {:induction false} PruneDraws(ts: seq<real>, start: real)
    ensures multiset(Prune(ts, start)) <= multiset(ts)
  {
    if ts == [] {
    } else {
      var n := |ts| - 1;
      PruneDraws(ts[..n], start);
      assert ts == ts[..n] + [ts[n]];
    }
  }

  // ---------------------------------------------------------------------------------------------
  // The limiter object

  ghost function HistoryOf(histories: map<string, seq<real>>, ip: string): seq<real> {
    if ip in histories then histories[ip] else []
  }

  /** The full admission history of an address is within the limits, and the cached log tracks it. */
  ghost predicate RequestsSound(cfg: Config, cache: Cache<seq<real>>, history: seq<real>, clock: real, ip: string) {
    Granted(cfg, history) && NoneAfter(history, clock) && Tracks(cfg, cache, ip, history, clock)
  }

  /** The failures of one address: all that were recorded, how many of them lockouts used up, with which one the log
      began, and how many lockouts there were. */
  datatype Account = Account(failures: seq<real>, spent: nat, begun: nat, lockouts: nat)

  ghost function AccountOf(accounts: map<string, Account>, ip: string): Account {
    if ip in accounts then accounts[ip] else Account([], 0, 0, 0)
  }

  /** Lockouts used up enough failures, and the cached log is what recording the later ones from `begun` on leaves. */
  ghost predicate AccountSound(cfg: Config, cache: Cache<seq<real>>, a: Account, ip: string) {
    && a.lockouts * cfg.threshold <= a.spent <= a.begun <= |a.failures|
    && if ip in cache then cache[ip].value == Kept(cfg, a.failures[a.begun..]) else a.spent == |a.failures|
  }

  /** With which failure the log begins that is found at this time: none of the recorded ones if it has expired. */
  ghost function LogStart(cache: Cache<seq<real>>, a: Account, ip: string, timer: real): nat {
    if Lookup(cache, ip, timer).Some? then a.begun else |a.failures|
  }

  /** The account after one more failure, with the log beginning at `start`; a lockout uses up everything so far. */
  ghost function Recorded(a: Account, start: nat, now: real, locked: bool): Account {
    var more := a.failures + [now];
    if locked then Account(more, |more|, |more|, a.lockouts + 1) else Account(more, a.spent, start, a.lockouts)
  }

  /** The failures that no lockout has used up. */
  ghost function Unspent(a: Account): seq<real> {
    if a.spent <= |a.failures| then a.failures[a.spent..] else []
  }

  lemma LogIsKept(cfg: Config, cache: Cache<seq<real>>, a: Account, ip: string, timer: real)
    requires AccountSound(cfg, cache, a, ip)
    ensures var k := LogStart(cache, a, ip, timer);
            a.spent <= k <= |a.failures| && LogOf(cache, ip, timer) == Kept(cfg, a.failures[k..])
  {
    assert a.failures[|a.failures|..] == [];
  }

  ghost predicate AllBefore(ts: seq<real>, end: real) {
    forall i :: 0 <= i < |ts| ==> ts[i] < end
  }

  /** What the log tells about a failure that began at `now`: nothing that still counts lies before its beginning, and
      nothing in it that still counts was overtaken. */
  ghost predicate NothingForgotten(cfg: Config, a: Account, k: nat, now: real) {
    && a.spent <= k <= |a.failures|
    && AllBefore(a.failures[a.spent..k], now - cfg.failureWindow)
    && NoneOvertaken(cfg, a.failures[k..], now - cfg.failureWindow)
  }

  /** In every sound state a new failure is counted like with all unspent failures exactly when nothing is forgotten,
      and never with more. */
  lemma CountsHistoryExactlyWhen(cfg: Config, cache: Cache<seq<real>>, a: Account, ip: string, now: real, timer: real)
    requires AccountSound(cfg, cache, a, ip)
    ensures var counted, ideal := Counted(cfg, LogOf(cache, ip, timer), now), Counted(cfg, Unspent(a), now);
            && (counted == ideal <==> NothingForgotten(cfg, a, LogStart(cache, a, ip, timer), now))
            && |counted| <= |ideal|
  {
    var start, k := now - cfg.failureWindow, LogStart(cache, a, ip, timer);
    LogCountsExactlyWhen(cfg, cache, a, ip, timer, start);
    AccountCounts(cfg, LogOf(cache, ip, timer), a, k, now);
  }

  lemma LogCountsExactlyWhen(cfg: Config, cache: Cache<seq<real>>, a: Account, ip: string, timer: real, start: real)
    requires AccountSound(cfg, cache, a, ip)
    ensures var log, k := LogOf(cache, ip, timer), LogStart(cache, a, ip, timer);
            && a.spent <= k <= |a.failures|
            && |Prune(log, start)| <= |Prune(a.failures[k..], start)|
            && (Prune(log, start) == Prune(a.failures[k..], start) <==> NoneOvertaken(cfg, a.failures[k..], start))
  {
    LogIsKept(cfg, cache, a, ip, timer);
    KeptCountsExactlyWhen(cfg, a.failures[LogStart(cache, a, ip, timer)..], start);
  }

  lemma UnspentSplits(a: Account, k: nat)
    requires a.spent <= k <= |a.failures|
    ensures Unspent(a) == a.failures[a.spent..k] + a.failures[k..]
  {
  }

  lemma AccountCounts(cfg: Config, log: seq<real>, a: Account, k: nat, now: real)
    requires a.spent <= k <= |a.failures|
    requires var start, rest := now - cfg.failureWindow, a.failures[k..];
             && |Prune(log, start)| <= |Prune(rest, start)|
             && (Prune(log, start) == Prune(rest, start) <==> NoneOvertaken(cfg, rest, start))
    ensures Counted(cfg, log, now) == Counted(cfg, Unspent(a), now) <==> NothingForgotten(cfg, a, k, now)
    ensures |Counted(cfg, log, now)| <= |Counted(cfg, Unspent(a), now)|
  {
    var before, rest := a.failures[a.spent..k], a.failures[k..];
    UnspentSplits(a, k);
    CountedAlikeExactlyWhen(log, before, rest, now - cfg.failureWindow, now);
  }

  /** A log that holds no more of the window than `rest` does, against all failures. */
  lemma CountedAlikeExactlyWhen(log: seq<real>, before: seq<real>, rest: seq<real>, start: real, now: real)
    requires |Prune(log, start)| <= |Prune(rest, start)|
    ensures Prune(log, start) + [now] == Prune(before + rest, start) + [now] <==>
            AllBefore(before, start) && Prune(log, start) == Prune(rest, start)
    ensures |Prune(log, start) + [now]| <= |Prune(before + rest, start) + [now]|
  {
    PruneAppend(before, rest, start);
    NonePruned(before, start);
    JoinedAlike(Prune(log, start), Prune(before, start), Prune(rest, start), now);
  }

  lemma {:induction false} NonePruned(ts: seq<real>, start: real)
    ensures Prune(ts, start) == [] <==> AllBefore(ts, start)
  {
    if AllBefore(ts, start) {
      PruneAll(ts, start);
    } else {
      var i :| 0 <= i < |ts| && ts[i] >= start;
      PruneKeeps(ts, start, ts[i]);
      assert ts[i] in multiset(ts);
    }
  }

  lemma JoinedAlike(kept: seq<real>, before: seq<real>, rest: seq<real>, now: real)
    requires |kept| <= |rest|
    ensures kept + [now] == before + rest + [now] <==> before == [] && kept == rest
    ensures |kept + [now]| <= |before + rest + [now]|
  {
    if kept + [now] == before + rest + [now] {
      assert |kept| == |before| + |rest|;
      assert kept == (kept + [now])[..|kept|];
      assert (before + rest + [now])[..|kept|] == before + rest;
    }
  }

  ghost predicate AllRequestsSound(
    cfg: Config, cache: Cache<seq<real>>, admitted: map<string, seq<real>>, clock: real)
  {
    forall ip :: RequestsSound(cfg, cache, HistoryOf(admitted, ip), clock, ip)
  }

  ghost predicate AllFailuresSound(cfg: Config, cache: Cache<seq<real>>, accounts: map<string, Account>) {
    forall ip :: AccountSound(cfg, cache, AccountOf(accounts, ip), ip)
  }

  lemma AllRequestsLater(cfg: Config, cache: Cache<seq<real>>, admitted: map<string, seq<real>>, clock: real, now: real)
    requires AllRequestsSound(cfg, cache, admitted, clock) && clock <= now
    ensures AllRequestsSound(cfg, cache, admitted, now)
  {
    forall ip ensures RequestsSound(cfg, cache, HistoryOf(admitted, ip), now, ip) {
      RequestsLater(cfg, cache, HistoryOf(admitted, ip), clock, ip, now);
    }
  }

  /** Changing one address leaves the others sound. */
  lemma OneRequestUpdated(
    cfg: Config, cache: Cache<seq<real>>, admitted: map<string, seq<real>>, clock: real, ip: string,
    stamped: Stamped<seq<real>>, admitted': map<string, seq<real>>)
    requires AllRequestsSound(cfg, cache, admitted, clock)
    requires forall other :: other != ip ==> HistoryOf(admitted', other) == HistoryOf(admitted, other)
    requires RequestsSound(cfg, cache[ip := stamped], HistoryOf(admitted', ip), clock, ip)
    ensures AllRequestsSound(cfg, cache[ip := stamped], admitted', clock)
  {
    forall other ensures RequestsSound(cfg, cache[ip := stamped], HistoryOf(admitted', other), clock, other) {
      if other != ip { assert RequestsSound(cfg, cache, HistoryOf(admitted, other), clock, other); }
    }
  }

  lemma OneFailureUpdated(
    cfg: Config, cache: Cache<seq<real>>, accounts: map<string, Account>, ip: string, cache': Cache<seq<real>>,
    a: Account)
    requires AllFailuresSound(cfg, cache, accounts) && AccountSound(cfg, cache', a, ip)
    requires forall other :: other != ip ==>
               (other in cache' <==> other in cache) && (other in cache ==> cache'[other] == cache[other])
    ensures AllFailuresSound(cfg, cache', accounts[ip := a])
  {
    var accounts' := accounts[ip := a];
    forall other ensures AccountSound(cfg, cache', AccountOf(accounts', other), other) {
      if other != ip { assert AccountSound(cfg, cache, AccountOf(accounts, other), other); }
    }
  }

  lemma RequestsLater(cfg: Config, cache: Cache<seq<real>>, history: seq<real>, clock: real, ip: string, now: real)
    requires RequestsSound(cfg, cache, history, clock, ip) && clock <= now
    ensures RequestsSound(cfg, cache, history, now, ip)
  {
    TracksLater(cfg, cache, ip, history, clock, now);
  }

  /** What storing the pruned log, with or without the new request, means for the address. */
  lemma CheckStored(cfg: Config, cache: Cache<seq<real>>, history: seq<real>, ip: string, now: real, timer: real)
    requires cfg.Valid() && RequestsSound(cfg, cache, history, now, ip) && now <= timer < now + cfg.window
    ensures var log := Prune(LogOf(cache, ip, timer), now - cfg.window);
            && log == Prune(history, now - cfg.window)
            && RequestsSound(cfg, Store(cache, ip, log, timer, 2.0 * cfg.window), history, now, ip)
            && (|log| < cfg.requests ==>
                  RequestsSound(cfg, Store(cache, ip, log + [now], timer, 2.0 * cfg.window), history + [now], now, ip))
  {
    LogIsExact(cfg, cache, ip, history, now, timer);
    var log := Prune(LogOf(cache, ip, timer), now - cfg.window);
    PruneTwice(history, now - cfg.window, now - cfg.window);
    StoredTracks(cfg, cache, ip, history, log, now, timer);
    if |log| < cfg.requests {
      GrantOneMore(cfg, history, now);
      AppendBoth(log, history, now, now - cfg.window);
      StoredTracks(cfg, cache, ip, history + [now], log + [now], now, timer);
    }
  }

  /** A check keeps every address sound, whichever way it goes. */
  lemma RequestChecked(
    cfg: Config, cache: Cache<seq<real>>, admitted: map<string, seq<real>>, clock: real, ip: string, now: real,
    timer: real)
    requires cfg.Valid() && AllRequestsSound(cfg, cache, admitted, clock) && clock <= now <= timer < now + cfg.window
    ensures var log, history := Prune(LogOf(cache, ip, timer), now - cfg.window), HistoryOf(admitted, ip);
            && log == Prune(history, now - cfg.window)
            && AllRequestsSound(cfg, Store(cache, ip, log, timer, 2.0 * cfg.window), admitted, now)
            && (|log| < cfg.requests ==>
                  AllRequestsSound(cfg, Store(cache, ip, log + [now], timer, 2.0 * cfg.window),
                                   admitted[ip := history + [now]], now))
  {
    var log, history := Prune(LogOf(cache, ip, timer), now - cfg.window), HistoryOf(admitted, ip);
    AllRequestsLater(cfg, cache, admitted, clock, now);
    CheckStored(cfg, cache, history, ip, now, timer);
    OneRequestUpdated(cfg, cache, admitted, now, ip, Stamped(log, timer + 2.0 * cfg.window), admitted);
    if |log| < cfg.requests {
      var more := admitted[ip := history + [now]];
      OneRequestUpdated(cfg, cache, admitted, now, ip, Stamped(log + [now], timer + 2.0 * cfg.window), more);
    }
  }

  /** The accounts of all addresses, and the time of the latest lockout of each. */
  datatype FailureBook = FailureBook(accounts: map<string, Account>, last: map<string, real>)

  /** The book after one more failure. */
  ghost function Booked(
    log: Cache<seq<real>>, book: FailureBook, ip: string, now: real, timer: real, locked: bool): FailureBook
  {
    var a := AccountOf(book.accounts, ip);
    FailureBook(book.accounts[ip := Recorded(a, LogStart(log, a, ip, timer), now, locked)],
                if locked then book.last[ip := timer] else book.last)
  }

  ghost predicate BookSound(cfg: Config, log: Cache<seq<real>>, lockouts: Cache<bool>, book: FailureBook) {
    && AllFailuresSound(cfg, log, book.accounts)
    && lockouts.Keys == book.last.Keys
    && (forall ip :: ip in lockouts ==> lockouts[ip].expires == book.last[ip] + cfg.lockoutDuration)
  }

  predicate IsAuthFailure(status: Option<int>) {
    status == Some(401) || status == Some(403)
  }

  /** With this failure, enough failures of the log found began within the window. */
  predicate LocksOut(cfg: Config, log: seq<real>, now: real) {
    |Prune(log, now - cfg.failureWindow)| + 1 >= cfg.threshold
  }

  /** A failure was recorded: it is in the account, and it locked the address out exactly if it was one too many. */
  ghost predicate FailureRecorded(
    cfg: Config, log: Cache<seq<real>>, lockouts: Cache<bool>, book: FailureBook, ip: string, now: real, timer: real,
    log': Cache<seq<real>>, lockouts': Cache<bool>, book': FailureBook)
  {
    var found := LogOf(log, ip, timer);
    var stored := Store(log, ip, Prune(found, now - cfg.failureWindow) + [now], timer, cfg.failureWindow);
    if LocksOut(cfg, found, now) then
      && book' == Booked(log, book, ip, now, timer, true) && book'.last == book.last[ip := timer]
      && lockouts' == Store(lockouts, ip, true, timer, cfg.lockoutDuration) && log' == stored - {ip}
    else
      && book' == Booked(log, book, ip, now, timer, false) && book'.last == book.last
      && lockouts' == lockouts && log' == stored
  }

  datatype Decision = Bypassed | LockedOut | Limited | Admitted

  class Limiter {
    const cfg: Config
    var requestLog: Cache<seq<real>>
    var failureLog: Cache<seq<real>>
    var lockouts: Cache<bool>
    /** When the latest request was checked. */
    ghost var clock: real
    /** All admissions of each address, forever. */
    ghost var admitted: map<string, seq<real>>
    /** The history of failures and lockouts. */
    ghost var book: FailureBook

    ghost predicate Valid()
      reads this
    {
      && cfg.Valid()
      && AllRequestsSound(cfg, requestLog, admitted, clock)
      && BookSound(cfg, failureLog, lockouts, book)
    }

    constructor (cfg: Config, now: real)
      requires cfg.Valid()
      ensures Valid() && this.cfg == cfg && clock == now && admitted == map[]
      ensures book == FailureBook(map[], map[]) && failureLog == map[]
    {
      this.cfg := cfg;
      requestLog, failureLog, lockouts := map[], map[], map[];
      clock, admitted, book := now, map[], FailureBook(map[], map[]);
    }

    /** Locked out: the latest lockout of the address is less than its duration ago. */
    method IsLockedOut(ip: string, timer: real) returns (locked: bool)
      requires Valid()
      ensures locked <==> ip in book.last && timer < book.last[ip] + cfg.lockoutDuration
    {
      locked := Lookup(lockouts, ip, timer).Some?;
    }

    /** Decides on the full admission history although only a pruned, expiring log is kept. */
    method CheckRateLimit(ip: string, now: real, timer: real) returns (ok: bool)
      requires Valid() && clock <= now <= timer < now + cfg.window
      modifies this`requestLog, this`admitted, this`clock
      ensures Valid() && clock == now
      ensures ok <==> |Prune(HistoryOf(old(admitted), ip), now - cfg.window)| < cfg.requests
      ensures admitted == if ok then old(admitted)[ip := HistoryOf(old(admitted), ip) + [now]] else old(admitted)
    {
      RequestChecked(cfg, requestLog, admitted, clock, ip, now, timer);
      clock := now;
      var timestamps := Prune(LogOf(requestLog, ip, timer), now - cfg.window);
      ok := |timestamps| < cfg.requests;
      if ok {
        requestLog := Store(requestLog, ip, timestamps + [now], timer, 2.0 * cfg.window);
        admitted := admitted[ip := HistoryOf(admitted, ip) + [now]];
      } else {
        requestLog := Store(requestLog, ip, timestamps, timer, 2.0 * cfg.window);
      }
    }

    /** The account of an address. */
    ghost function Of(ip: string): Account
      reads this
    {
      AccountOf(book.accounts, ip)
    }

    /** Records a failure of a request that began at `now`; `timer` is when it is recorded. */
    method RecordAuthFailure(ip: string, now: real, timer: real) returns (locked: bool, ghost counted: seq<real>)
      requires Valid()
      modifies this`failureLog, this`lockouts, this`book
      ensures Valid()
      ensures counted == Counted(cfg, LogOf(old(failureLog), ip, timer), now)
      ensures locked <==> |counted| >= cfg.threshold
      ensures counted == Counted(cfg, Unspent(old(Of(ip))), now) <==>
              NothingForgotten(cfg, old(Of(ip)), LogStart(old(failureLog), old(Of(ip)), ip, timer), now)
      ensures book == Booked(old(failureLog), old(book), ip, now, timer, locked)
      ensures multiset(counted) <= multiset(Unspent(old(Of(ip))) + [now])
      ensures !locked ==> failureLog == Store(old(failureLog), ip, counted, timer, cfg.failureWindow)
      ensures locked ==> failureLog == Store(old(failureLog), ip, counted, timer, cfg.failureWindow) - {ip}
      ensures lockouts == if locked then Store(old(lockouts), ip, true, timer, cfg.lockoutDuration) else old(lockouts)
      ensures FailureRecorded(
                cfg, old(failureLog), old(lockouts), old(book), ip, now, timer, failureLog, lockouts, book)
    {
      assert AccountSound(cfg, failureLog, Of(ip), ip);
      CountedAreRecorded(cfg, failureLog, Of(ip), ip, now, timer);
      CountsHistoryExactlyWhen(cfg, failureLog, Of(ip), ip, now, timer);
      counted := Counted(cfg, LogOf(failureLog, ip, timer), now);
      locked := StoreFailure(ip, now, timer);
    }

    /** The part that changes the state: the new log is stored, and dropped again when it leads to a lockout. */
    method StoreFailure(ip: string, now: real, timer: real) returns (locked: bool)
      requires Valid()
      modifies this`failureLog, this`lockouts, this`book
      ensures Valid() && book == Booked(old(failureLog), old(book), ip, now, timer, locked)
      ensures locked <==> |Counted(cfg, LogOf(old(failureLog), ip, timer), now)| >= cfg.threshold
      ensures var counted := Counted(cfg, LogOf(old(failureLog), ip, timer), now);
              && (!locked ==> failureLog == Store(old(failureLog), ip, counted, timer, cfg.failureWindow))
              && (locked ==> failureLog == Store(old(failureLog), ip, counted, timer, cfg.failureWindow) - {ip})
      ensures lockouts == if locked then Store(old(lockouts), ip, true, timer, cfg.lockoutDuration) else old(lockouts)
    {
      var timestamps := Counted(cfg, LogOf(failureLog, ip, timer), now);
      var stored := Store(failureLog, ip, timestamps, timer, cfg.failureWindow);
      ghost var booked := Booked(failureLog, book, ip, now, timer, |timestamps| >= cfg.threshold);
      locked := |timestamps| >= cfg.threshold;
      if locked {
        LockoutBooked(cfg, failureLog, lockouts, book, ip, now, timer);
        failureLog, lockouts, book := stored - {ip}, Store(lockouts, ip, true, timer, cfg.lockoutDuration), booked;
        assert BookSound(cfg, failureLog, lockouts, book);
      } else {
        FailureBooked(cfg, failureLog, lockouts, book, ip, now, timer);
        failureLog, book := stored, booked;
        assert BookSound(cfg, failureLog, lockouts, book);
      }
    }

    /** The decision taken before the application sees a request. */
    method Begin(ip: string, now: real, timer: real) returns (d: Decision)
      requires Valid() && clock <= now <= timer < now + cfg.window
      modifies this`requestLog, this`admitted, this`clock
      ensures Valid()
      ensures d == Bypassed <==> !cfg.enabled
      ensures d == LockedOut <==> cfg.enabled && ip in book.last && timer < book.last[ip] + cfg.lockoutDuration
      ensures d == Limited ==> |Prune(HistoryOf(old(admitted), ip), now - cfg.window)| >= cfg.requests
      ensures d == Admitted ==> |Prune(HistoryOf(old(admitted), ip), now - cfg.window)| < cfg.requests
      ensures admitted ==
              if d == Admitted then old(admitted)[ip := HistoryOf(old(admitted), ip) + [now]] else old(admitted)
      ensures d == LockedOut || d == Bypassed ==> requestLog == old(requestLog)
      ensures clock == if d == LockedOut || d == Bypassed then old(clock) else now
    {
      if !cfg.enabled {
        return Bypassed;
      }
      var locked := IsLockedOut(ip, timer);
      if locked {
        return LockedOut;
      }
      var ok := CheckRateLimit(ip, now, timer);
      return if ok then Admitted else Limited;
    }

    /** After the application answered an admitted request. A 401 or 403 locks the address out exactly when, with this
        failure, the log found holds enough failures that began within the window; nothing else locks it out. */
    method Finish(ip: string, now: real, timer: real, status: Option<int>)
      requires Valid()
      modifies this`failureLog, this`lockouts, this`book
      ensures Valid()
      ensures !IsAuthFailure(status) ==>
                book == old(book) && failureLog == old(failureLog) && lockouts == old(lockouts)
      ensures IsAuthFailure(status) ==>
                FailureRecorded(
                  cfg, old(failureLog), old(lockouts), old(book), ip, now, timer, failureLog, lockouts, book)
    {
      if IsAuthFailure(status) {
        var locked, counted := RecordAuthFailure(ip, now, timer);
      }
    }

    /** In every state: the admissions of each address obey the bound in every interval of the window's length. */
    lemma BoundHolds(ip: string, a: real)
      requires Valid()
      ensures |Within(HistoryOf(admitted, ip), a, a + cfg.window)| <= cfg.requests
    {
      assert RequestsSound(cfg, requestLog, HistoryOf(admitted, ip), clock, ip);
      AdmissionBound(cfg, HistoryOf(admitted, ip), a);
    }

    /** In every state: lockouts times threshold never exceeds the recorded failures. */
    lemma LockoutsAreEarned(ip: string)
      requires Valid()
      ensures Of(ip).lockouts * cfg.threshold <= |Of(ip).failures|
    {
      assert AccountSound(cfg, failureLog, Of(ip), ip);
    }
  }

  /** The failures counted now are recorded failures that no lockout used up, none of them counted twice. */
  lemma CountedAreRecorded(cfg: Config, cache: Cache<seq<real>>, a: Account, ip: string, now: real, timer: real)
    requires AccountSound(cfg, cache, a, ip)
    ensures multiset(Counted(cfg, LogOf(cache, ip, timer), now)) <= multiset(Unspent(a) + [now])
    ensures |Counted(cfg, LogOf(cache, ip, timer), now)| <= |Unspent(a)| + 1
  {
    var k := LogStart(cache, a, ip, timer);
    LogIsKept(cfg, cache, a, ip, timer);
    KeptIsDrawn(cfg, a.failures[k..]);
    CountedDraws(cfg, LogOf(cache, ip, timer), a, k, now);
  }

  lemma CountedDraws(cfg: Config, log: seq<real>, a: Account, k: nat, now: real)
    requires a.spent <= k <= |a.failures| && multiset(log) <= multiset(a.failures[k..]) && |log| <= |a.failures[k..]|
    ensures multiset(Counted(cfg, log, now)) <= multiset(Unspent(a) + [now])
    ensures |Counted(cfg, log, now)| <= |Unspent(a)| + 1
  {
    UnspentSplits(a, k);
    LogDraws(log, a.failures[a.spent..k], a.failures[k..], now - cfg.failureWindow, now);
  }

  lemma LogDraws(log: seq<real>, before: seq<real>, rest: seq<real>, start: real, now: real)
    requires multiset(log) <= multiset(rest)
    ensures multiset(Prune(log, start) + [now]) <= multiset(before + rest + [now])
  {
    PruneDraws(log, start);
    OneMoreDrawn(Prune(log, start), before, rest, now);
  }

  lemma OneMoreDrawn(kept: seq<real>, before: seq<real>, rest: seq<real>, now: real)
    requires multiset(kept) <= multiset(rest)
    ensures multiset(kept + [now]) <= multiset(before + rest + [now])
  {
    var a, b, c := multiset(kept), multiset(rest), multiset(before);
    assert multiset(kept + [now]) == a + multiset{now};
    assert multiset(before + rest + [now]) == c + b + multiset{now};
  }

  /** Storing a failure keeps the account: the new log is what the failures from its beginning on leave. */
  lemma FailureStored(cfg: Config, cache: Cache<seq<real>>, a: Account, ip: string, now: real, timer: real)
    requires AccountSound(cfg, cache, a, ip)
    ensures AccountSound(cfg, Store(cache, ip, Counted(cfg, LogOf(cache, ip, timer), now), timer, cfg.failureWindow),
                         Recorded(a, LogStart(cache, a, ip, timer), now, false), ip)
  {
    var k := LogStart(cache, a, ip, timer);
    LogIsKept(cfg, cache, a, ip, timer);
    var rest, more := a.failures[k..], (a.failures + [now])[k..];
    assert more == rest + [now] && more[..|more| - 1] == rest;
  }

  /** Spending the unspent failures on a lockout keeps the account. */
  lemma FailuresSpent(cfg: Config, cache: Cache<seq<real>>, a: Account, ip: string, now: real, timer: real)
    requires AccountSound(cfg, cache, a, ip) && |Counted(cfg, LogOf(cache, ip, timer), now)| >= cfg.threshold
    ensures AccountSound(
              cfg, Store(cache, ip, Counted(cfg, LogOf(cache, ip, timer), now), timer, cfg.failureWindow) - {ip},
              Recorded(a, LogStart(cache, a, ip, timer), now, true), ip)
  {
    CountedAreRecorded(cfg, cache, a, ip, now, timer);
    OneMoreLockout(a.lockouts, cfg.threshold, a.spent, |a.failures| + 1);
  }

  lemma OneMoreLockout(lockouts: nat, threshold: nat, spent: nat, failures: nat)
    requires lockouts * threshold <= spent && spent + threshold <= failures
    ensures (lockouts + 1) * threshold <= failures
  {
    assert (lockouts + 1) * threshold == lockouts * threshold + threshold;
  }

  lemma FailureBooked(
    cfg: Config, log: Cache<seq<real>>, lockouts: Cache<bool>, book: FailureBook, ip: string, now: real, timer: real)
    requires BookSound(cfg, log, lockouts, book)
    ensures var stored := Store(log, ip, Counted(cfg, LogOf(log, ip, timer), now), timer, cfg.failureWindow);
            BookSound(cfg, stored, lockouts, Booked(log, book, ip, now, timer, false))
  {
    var a := AccountOf(book.accounts, ip);
    assert AccountSound(cfg, log, a, ip);
    FailureStored(cfg, log, a, ip, now, timer);
    var stored := Store(log, ip, Counted(cfg, LogOf(log, ip, timer), now), timer, cfg.failureWindow);
    OneFailureUpdated(cfg, log, book.accounts, ip, stored, Recorded(a, LogStart(log, a, ip, timer), now, false));
  }

  lemma LockoutBooked(
    cfg: Config, log: Cache<seq<real>>, lockouts: Cache<bool>, book: FailureBook, ip: string, now: real, timer: real)
    requires BookSound(cfg, log, lockouts, book)
    requires |Counted(cfg, LogOf(log, ip, timer), now)| >= cfg.threshold
    ensures var stored := Store(log, ip, Counted(cfg, LogOf(log, ip, timer), now), timer, cfg.failureWindow);
            BookSound(cfg, stored - {ip}, Store(lockouts, ip, true, timer, cfg.lockoutDuration),
                      Booked(log, book, ip, now, timer, true))
  {
    var a := AccountOf(book.accounts, ip);
    assert AccountSound(cfg, log, a, ip);
    FailuresSpent(cfg, log, a, ip, now, timer);
    var rest := Store(log, ip, Counted(cfg, LogOf(log, ip, timer), now), timer, cfg.failureWindow) - {ip};
    OneFailureUpdated(cfg, log, book.accounts, ip, rest, Recorded(a, LogStart(log, a, ip, timer), now, true));
  }

  // ---------------------------------------------------------------------------------------------
  // Enough failures in one window lock an address out

  /** Requests that began in order inside one window, each recorded before the log of the one before it expires. */
  ghost predicate InOneWindow(cfg: Config, starts: seq<real>, timers: seq<real>) {
    && |starts| == |timers|
    && (forall i, j :: 0 <= i < j < |starts| ==> starts[i] <= starts[j] <= starts[i] + cfg.failureWindow)
    && (forall i :: 0 < i < |timers| ==> timers[i] < timers[i - 1] + cfg.failureWindow)
  }

  /** Failures of one window are all counted with the next one. */
  lemma AllCounted(cfg: Config, before: seq<real>, starts: seq<real>, n: nat)
    requires n < |starts| && forall i :: 0 <= i < n ==> starts[n] <= starts[i] + cfg.failureWindow
    ensures var start := starts[n] - cfg.failureWindow;
            Prune(before + starts[..n], start) + [starts[n]] == Prune(before, start) + starts[..n + 1]
  {
    var start := starts[n] - cfg.failureWindow;
    PruneAppend(before, starts[..n], start);
    PruneNothing(starts[..n], start);
    OneMoreAtEnd(Prune(before, start), starts, n);
  }

  lemma OneMoreAtEnd(kept: seq<real>, starts: seq<real>, n: nat)
    requires n < |starts|
    ensures kept + starts[..n] + [starts[n]] == kept + starts[..n + 1]
  {
  }

  /** Where a series of failures stands: the address was locked out by one of them, or the log ends with all of them. */
  ghost predicate Halfway(
    limiter: Limiter, ip: string, starts: seq<real>, timers: seq<real>, n: nat, before: seq<real>, locked: Option<nat>)
    requires n <= |starts| == |timers|
    reads limiter
  {
    match locked
    case Some(i) => i < n && ip in limiter.book.last && limiter.book.last[ip] == timers[i]
    case None =>
      n == 0 || Logged(limiter.failureLog, ip, before + starts[..n], timers[n - 1] + limiter.cfg.failureWindow)
  }

  /** As many failures as the threshold, in one window: one of them locks the address out, and if the log found at
      first is empty it is the last one. */
  method FailInOneWindow(limiter: Limiter, ip: string, starts: seq<real>, timers: seq<real>, statuses: seq<int>)
      returns (ghost locked: nat)
    requires limiter.Valid() && InOneWindow(limiter.cfg, starts, timers) && |starts| == limiter.cfg.threshold
    requires |statuses| == |starts| && forall i :: 0 <= i < |statuses| ==> statuses[i] == 401 || statuses[i] == 403
    modifies limiter`failureLog, limiter`lockouts, limiter`book
    ensures limiter.Valid() && locked < |timers|
    ensures ip in limiter.book.last && limiter.book.last[ip] == timers[locked]
    ensures LogOf(old(limiter.failureLog), ip, timers[0]) == [] ==> locked == |timers| - 1
  {
    ghost var before := LogOf(limiter.failureLog, ip, timers[0]);
    ghost var lockedAt: Option<nat> := None;
    ghost var clean := before == [];
    for n := 0 to |starts|
      invariant limiter.Valid() && Halfway(limiter, ip, starts, timers, n, before, lockedAt)
      invariant n == 0 ==> lockedAt.None? && LogOf(limiter.failureLog, ip, timers[0]) == before
      invariant clean ==> before == [] && (lockedAt.Some? ==> lockedAt.value == |starts| - 1)
      invariant n == |starts| ==> lockedAt.Some?
    {
      before, lockedAt := FailOnce(
        limiter, ip, starts, timers, n, before, lockedAt, starts[n], timers[n], statuses[n]);
    }
    locked := lockedAt.value;
  }

  /** One failure of the series. */
  method FailOnce(
    limiter: Limiter, ip: string, ghost starts: seq<real>, ghost timers: seq<real>, ghost n: nat,
    ghost before: seq<real>, ghost locked: Option<nat>, now: real, timer: real, status: int)
      returns (ghost before': seq<real>, ghost locked': Option<nat>)
    requires limiter.Valid() && InOneWindow(limiter.cfg, starts, timers) && n < |starts|
    requires now == starts[n] && timer == timers[n] && (status == 401 || status == 403)
    requires Halfway(limiter, ip, starts, timers, n, before, locked)
    requires n == 0 ==> locked.None? && LogOf(limiter.failureLog, ip, timer) == before
    modifies limiter`failureLog, limiter`lockouts, limiter`book
    ensures limiter.Valid() && Halfway(limiter, ip, starts, timers, n + 1, before', locked')
    ensures n + 1 >= limiter.cfg.threshold ==> locked'.Some?
    ensures locked.Some? ==> locked'.Some?
    ensures before == [] && locked.None? ==> before' == [] && (locked'.Some? <==> n + 1 >= limiter.cfg.threshold)
    ensures locked'.Some? ==> locked' == locked || locked' == Some(n)
  {
    before', locked' := before, locked;
    ghost var log := LogOf(limiter.failureLog, ip, timer);
    if locked.None? {
      assert log == before + starts[..n];
      AllCounted(limiter.cfg, before, starts, n);
      before' := Prune(before, now - limiter.cfg.failureWindow);
    }
    if LocksOut(limiter.cfg, log, now) { locked' := Some(n); }
    limiter.Finish(ip, now, timer, Some(status));
  }

  /** After as many failures as the threshold in one window, starting from an empty log, the address is turned away
      until the lockout has passed. */
  method LockedOutAfterFailures(
    limiter: Limiter, ip: string, starts: seq<real>, timers: seq<real>, statuses: seq<int>, now: real, timer: real)
      returns (d: Decision)
    requires limiter.Valid() && limiter.cfg.enabled
    requires InOneWindow(limiter.cfg, starts, timers) && |starts| == limiter.cfg.threshold
    requires LogOf(limiter.failureLog, ip, timers[0]) == []
    requires |statuses| == |starts| && forall i :: 0 <= i < |statuses| ==> statuses[i] == 401 || statuses[i] == 403
    requires limiter.clock <= now <= timer < now + limiter.cfg.window
    modifies limiter
    ensures d == LockedOut <==> timer < timers[|timers| - 1] + limiter.cfg.lockoutDuration
  {
    var _ := FailInOneWindow(limiter, ip, starts, timers, statuses);
    d := limiter.Begin(ip, now, timer);
  }

  // ---------------------------------------------------------------------------------------------
  // Three runs

  /** A log of one failure that began at `start`, seen by one that began at `now`. */
  lemma CountedWithOne(cfg: Config, start: real, now: real)
    ensures Counted(cfg, [], now) == [now]
    ensures Counted(cfg, [start], now) == if start >= now - cfg.failureWindow then [start, now] else [now]
  {
    assert [start][..0] == [] && Prune([], now - cfg.failureWindow) == [];
  }

  /** The cached log of an address. */
  ghost predicate Logged(cache: Cache<seq<real>>, ip: string, log: seq<real>, expires: real) {
    ip in cache && cache[ip] == Stamped(log, expires)
  }

  /** A failure recorded on top of a given log. */
  method RecordNext(limiter: Limiter, ip: string, ghost log: seq<real>, now: real, timer: real)
      returns (locked: bool, ghost counted: seq<real>)
    requires limiter.Valid() && LogOf(limiter.failureLog, ip, timer) == log
    modifies limiter`failureLog, limiter`lockouts, limiter`book
    ensures limiter.Valid() && counted == Counted(limiter.cfg, log, now)
    ensures locked <==> |counted| >= limiter.cfg.threshold
    ensures !locked ==> Logged(limiter.failureLog, ip, counted, timer + limiter.cfg.failureWindow)
  {
    locked, counted := limiter.RecordAuthFailure(ip, now, timer);
  }

  /** The first two failures of an address: began at `a` and `b`, recorded at `atA` and `atB`. */
  method RecordTwo(limiter: Limiter, ip: string, a: real, atA: real, b: real, atB: real)
      returns (locked: bool, ghost counted: seq<real>)
    requires limiter.Valid() && limiter.failureLog == map[] && limiter.cfg.threshold >= 2
    modifies limiter`failureLog, limiter`lockouts, limiter`book
    ensures limiter.Valid() && (locked <==> |counted| >= limiter.cfg.threshold)
    ensures counted == Counted(limiter.cfg, if atB < atA + limiter.cfg.failureWindow then [a] else [], b)
    ensures !locked ==> Logged(limiter.failureLog, ip, counted, atB + limiter.cfg.failureWindow)
  {
    CountedWithOne(limiter.cfg, a, a);
    locked, counted := RecordNext(limiter, ip, [], a, atA);
    locked, counted := RecordNext(limiter, ip, if atB < atA + limiter.cfg.failureWindow then [a] else [], b, atB);
  }

  /** Overlapping requests: one begins at 0 and one at 95; they fail at 100 and 96. With a window of 10 s the address is
      locked out for two failures that began 95 s apart. */
  method OverlapBreaksWindow(cfg: Config, ip: string) returns (locked: bool, ghost counted: seq<real>)
    requires cfg.Valid() && cfg.enabled && cfg.requests >= 2 && cfg.failureWindow == 10.0 && cfg.threshold == 2
    ensures locked && counted == [95.0, 0.0] && !FitsWindow(cfg, counted)
  {
    var limiter := new Limiter(cfg, 0.0);
    var first := limiter.Begin(ip, 0.0, 0.0);
    var second := limiter.Begin(ip, 95.0, 95.0);
    assert first == second == Admitted;
    CountedWithOne(cfg, 95.0, 0.0);
    locked, counted := RecordTwo(limiter, ip, 95.0, 96.0, 0.0, 100.0);
    assert !FitsWindow(cfg, counted) by {
      assert [95.0, 0.0][0] == 95.0 && [95.0, 0.0][1] == 0.0;
    }
  }

  /** Slow requests: failures that began at 0 and 9 lie in one window of 10 s, but when the second one is recorded, at
      11, the log has expired and there is no lockout. */
  method LateRecordForgets(cfg: Config, ip: string) returns (locked: bool, ghost counted: seq<real>)
    requires cfg.Valid() && cfg.failureWindow == 10.0 && cfg.threshold == 2
    ensures !locked && counted == [9.0]
    ensures Counted(cfg, [0.0], 9.0) == [0.0, 9.0] && FitsWindow(cfg, [0.0, 9.0])
  {
    var limiter := new Limiter(cfg, 0.0);
    locked, counted := RecordTwo(limiter, ip, 0.0, 0.0, 9.0, 11.0);
    CountedWithOne(cfg, 0.0, 9.0);
    assert Spans([0.0, 9.0], 0.0, cfg.failureWindow);
  }

  /** Overlapping requests: failures that began at 0, 12 and 8 are recorded at 5, 12.5 and 13, so the log never
      expires. The one that began at 12 prunes the first one, which the third one should still count. */
  method OvertakenIsForgotten(cfg: Config, ip: string) returns (locked: bool, ghost counted: seq<real>)
    requires cfg.Valid() && cfg.failureWindow == 10.0 && cfg.threshold == 3
    ensures !locked && counted == [12.0, 8.0] && Counted(cfg, [0.0, 12.0], 8.0) == [0.0, 12.0, 8.0]
  {
    var limiter := new Limiter(cfg, 0.0);
    CountedWithOne(cfg, 0.0, 12.0);
    locked, counted := RecordTwo(limiter, ip, 0.0, 5.0, 12.0, 12.5);
    CountedWithOne(cfg, 12.0, 8.0);
    locked, counted := RecordNext(limiter, ip, [12.0], 8.0, 13.0);
    AllThree(cfg, 0.0, 12.0, 8.0);
  }

  lemma AllThree(cfg: Config, a: real, b: real, now: real)
    requires a >= now - cfg.failureWindow && b >= now - cfg.failureWindow
    ensures Counted(cfg, [a, b], now) == [a, b, now]
  {
    var start := now - cfg.failureWindow;
    PruneAppend([a], [b], start);
    assert [a] + [b] == [a, b];
    PruneNothing([a], start);
    PruneNothing([b], start);
  }
}
