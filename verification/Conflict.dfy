/** Conflict strategies for capability names (argus_mcp/bridge/conflict.py). */
module Conflict {

  datatype Strategy =
    | FirstWins
    | Prefix(separator: string)
    | Priority(order: seq<string>, separator: string)
    | Strict

  datatype Action = Skip | Replace | Rename(newName: string) | Raise

  function TransformName(strategy: Strategy, server: string, name: string): string {
    if strategy.Prefix? then server + strategy.separator + name else name
  }

  /** Position in the order list, the last one if listed twice; unlisted servers come after all listed ones. */
  function Rank(order: seq<string>, server: string): (rank: nat)
    ensures rank <= |order|
    ensures rank < |order| ==> order[rank] == server && forall j :: rank < j < |order| ==> order[j] != server
    ensures rank == |order| <==> server !in order
  {
    LastPosition(order, |order|, server)
  }

  function LastPosition(order: seq<string>, n: nat, server: string): (rank: nat)
    requires n <= |order| && forall j :: n <= j < |order| ==> order[j] != server
    ensures rank <= |order|
    ensures rank < |order| ==> order[rank] == server && forall j :: rank < j < |order| ==> order[j] != server
    ensures rank == |order| <==> server !in order
  {
    if n == 0 then |order|
    else if order[n - 1] == server then n - 1
    else LastPosition(order, n - 1, server)
  }

  function HandleConflict(strategy: Strategy, exposed: string, existing: string, newcomer: string): Action {
    match strategy
    case FirstWins => Skip
    case Prefix(_) => Skip
    case Priority(order, separator) =>
      if Rank(order, newcomer) < Rank(order, existing) then Replace else Rename(newcomer + separator + exposed)
    case Strict => Raise
  }

  // ---------------------------------------------------------------------------------------------
  // When prefixing separates servers

  /** No server's prefix begins another server's prefix. */
  ghost predicate PrefixFree(servers: set<string>, separator: string) {
    forall s, t :: s in servers && t in servers && s != t ==> !(s + separator <= t + separator)
  }

  /** Prefixed names determine both the server and the name. */
  ghost predicate PrefixingInjective(servers: set<string>, separator: string) {
    forall s, t, x, y ::
      && s in servers && t in servers
      && TransformName(Prefix(separator), s, x) == TransformName(Prefix(separator), t, y)
      ==> s == t && x == y
  }

  lemma SameStart(a: string, x: string, b: string, y: string)
    requires a + x == b + y && |a| <= |b|
    ensures a <= b
  {
    assert a == (a + x)[..|a|];
    assert b[..|a|] == (b + y)[..|a|];
  }

  lemma SameHead(a: string, x: string, y: string)
    requires a + x == a + y
    ensures x == y
  {
    assert x == (a + x)[|a|..];
    assert y == (a + y)[|a|..];
  }

  /** Prefixing is injective on a set of servers exactly when their prefixes are prefix-free. */
  lemma PrefixingInjectiveExactlyWhen(servers: set<string>, separator: string)
    ensures PrefixingInjective(servers, separator) <==> PrefixFree(servers, separator)
  {
    if PrefixFree(servers, separator) {
      forall s, t, x, y | s in servers && t in servers && s + separator + x == t + separator + y
        ensures s == t && x == y
      {
        if |s + separator| <= |t + separator| {
          SameStart(s + separator, x, t + separator, y);
        } else {
          SameStart(t + separator, y, s + separator, x);
        }
        SameHead(s + separator, x, y);
      }
    }
    if !PrefixFree(servers, separator) {
      var s, t :| s in servers && t in servers && s != t && s + separator <= t + separator;
      var x := (t + separator)[|s + separator|..];
      assert TransformName(Prefix(separator), s, x) == TransformName(Prefix(separator), t, "");
    }
  }

  /** A separator whose first character occurs in no server name is enough. */
  lemma FreshSeparatorSuffices(servers: set<string>, separator: string)
    requires separator != "" && forall s :: s in servers ==> separator[0] !in s
    ensures PrefixFree(servers, separator)
  {
    forall s, t | s in servers && t in servers && s + separator <= t + separator ensures s == t {
      var a, b := s + separator, t + separator;
      assert a[|s|] == separator[0] == b[|s|];
      assert b[|t|] == separator[0];
      assert forall i :: 0 <= i < |s| ==> a[i] == s[i] && s[i] != separator[0];
      assert forall i :: 0 <= i < |t| ==> b[i] == t[i] && t[i] != separator[0];
      assert !(|s| < |t|) && !(|t| < |s|);
      assert s == a[..|s|] && t == b[..|s|];
    }
  }

  /** With the default separator, servers "a" and "a_b" collide. */
  lemma PrefixesCanCollide()
    ensures TransformName(Prefix("_"), "a", "b_c") == TransformName(Prefix("_"), "a_b", "c")
    ensures !PrefixFree({"a", "a_b"}, "_")
  {
    assert TransformName(Prefix("_"), "a", "b_c") == "a_b_c";
    assert TransformName(Prefix("_"), "a_b", "c") == "a_b_c";
    assert "a" + "_" == "a_" && "a_b" + "_" == "a_b_" && "a_" <= "a_b_";
  }
}
