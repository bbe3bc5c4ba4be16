/** Who ends up owning a name, and where every route comes from. */
module RegistryRouting {
  import opened Common
  import opened Conflict
  import opened CapabilityRegistry
  import RegistryTheorems

  /** A server offers a capability under an exposed name. */
  datatype Offer = Offer(server: string, name: string)

  ghost function OffersOf(cfg: Config, b: Batch): set<Offer> {
    set raw | raw in b.items && Accepts(cfg, b.server, b.kind, raw) ::
      Offer(b.server, Exposed(cfg, b.server, b.kind, raw.cap))
  }

  ghost function Offers(cfg: Config, bs: seq<Batch>): set<Offer> {
    set b, o | b in bs && o in OffersOf(cfg, b) :: o
  }

  lemma SplitOffers(cfg: Config, bs: seq<Batch>)
    requires bs != []
    ensures Offers(cfg, bs) == OffersOf(cfg, bs[0]) + Offers(cfg, bs[1..])
  {
    assert bs == [bs[0]] + bs[1..];
  }

  lemma SplitBatch(cfg: Config, b: Batch)
    requires b.items != []
    ensures OffersOf(cfg, b) == OffersOf(cfg, b.(items := b.items[1..])) +
              if Accepts(cfg, b.server, b.kind, b.items[0])
              then {Offer(b.server, Exposed(cfg, b.server, b.kind, b.items[0].cap))} else {}
  {
    assert b.items == [b.items[0]] + b.items[1..];
  }

  // ---------------------------------------------------------------------------------------------
  // Strategies that never replace

  /** Registered routes stay as they are. */
  ghost predicate KeepsRoutes(a: Routes, b: Routes) {
    forall n :: n in a ==> n in b && b[n] == a[n]
  }

  lemma {:induction false} BatchKeepsRoutes(
    cfg: Config, shelf: Shelf, server: string, kind: CapType, items: seq<RawItem>)
    requires !cfg.strategy.Priority?
    ensures KeepsRoutes(shelf.routes, RegisterAll(cfg, shelf, server, kind, items).routes)
    decreases |items|
  {
    if items == [] {
    } else {
      if !Accepts(cfg, server, kind, items[0]) {
        BatchKeepsRoutes(cfg, shelf, server, kind, items[1..]);
      } else {
        var r := RegisterCap(cfg, shelf, server, kind, items[0].cap);
        if r.Some? { BatchKeepsRoutes(cfg, r.value, server, kind, items[1..]); }
      }
    }
  }

  /** Unless the strategy is `priority`, whoever registered a name first keeps it through any further batches. */
  lemma {:induction false} FirstRegistrationStays(cfg: Config, st: RegState, bs: seq<Batch>)
    requires !cfg.strategy.Priority?
    ensures KeepsRoutes(st.routes, ApplyBatches(cfg, st, bs).routes)
    decreases |bs|
  {
    if bs == [] {
    } else {
      BatchKeepsRoutes(cfg, Shelf(st.routes, ListOf(st, bs[0].kind)), bs[0].server, bs[0].kind, bs[0].items);
      FirstRegistrationStays(cfg, ApplyBatch(cfg, st, bs[0]), bs[1..]);
    }
  }

  /** Under `first-wins` a batch routes every name it offers, adds no other name, and owns the names it adds. */
  lemma {:induction false} FirstWinsBatch(cfg: Config, shelf: Shelf, b: Batch)
    requires cfg.strategy.FirstWins?
    ensures var done := RegisterAll(cfg, shelf, b.server, b.kind, b.items).routes;
            && (forall o :: o in OffersOf(cfg, b) ==> o.name in done)
            && (forall n :: n in done && n !in shelf.routes ==>
                  Offer(b.server, n) in OffersOf(cfg, b) && done[n].server == b.server)
    decreases |b.items|
  {
    if b.items == [] {
    } else {
      SplitBatch(cfg, b);
      var rest := b.(items := b.items[1..]);
      if !Accepts(cfg, b.server, b.kind, b.items[0]) {
        FirstWinsBatch(cfg, shelf, rest);
      } else {
        var next := RegisterCap(cfg, shelf, b.server, b.kind, b.items[0].cap).value;
        FirstWinsBatch(cfg, next, rest);
        BatchKeepsRoutes(cfg, next, b.server, b.kind, rest.items);
      }
    }
  }

  /** Under `first-wins` the owner of a name is the server of the first batch that offers it. */
  lemma {:induction false} FirstOfferWins(cfg: Config, st: RegState, bs: seq<Batch>, k: nat, n: string)
    requires cfg.strategy.FirstWins? && k < |bs| && n !in st.routes
    requires Offer(bs[k].server, n) in OffersOf(cfg, bs[k])
    requires forall j :: 0 <= j < k ==> Offer(bs[j].server, n) !in OffersOf(cfg, bs[j])
    ensures var done := ApplyBatches(cfg, st, bs).routes; n in done && done[n].server == bs[k].server
    decreases k
  {
    var next := ApplyBatch(cfg, st, bs[0]);
    FirstWinsBatch(cfg, Shelf(st.routes, ListOf(st, bs[0].kind)), bs[0]);
    if k == 0 {
      assert Offer(bs[0].server, n).name in next.routes;
      FirstRegistrationStays(cfg, next, bs[1..]);
    } else {
      assert Offer(bs[0].server, n) !in OffersOf(cfg, bs[0]);
      FirstOfferWins(cfg, next, bs[1..], k - 1, n);
    }
  }

  /** Under `error`, a name held by another server ends the batch: the rest of its items is not registered. */
  lemma {:induction false} StrictStopsBatch(
    cfg: Config, shelf: Shelf, server: string, kind: CapType, items: seq<RawItem>, k: nat)
    requires cfg.strategy.Strict? && k < |items| && Accepts(cfg, server, kind, items[k])
    requires var exposed := Exposed(cfg, server, kind, items[k].cap);
             var so := RegisterAll(cfg, shelf, server, kind, items[..k]).routes;
             exposed in so && so[exposed].server != server
    ensures RegisterAll(cfg, shelf, server, kind, items) == RegisterAll(cfg, shelf, server, kind, items[..k])
    decreases k
  {
    if k == 0 {
    } else {
      assert items[..k][0] == items[0] && items[..k][1..] == items[1..][..k - 1];
      if !Accepts(cfg, server, kind, items[0]) {
        StrictStopsBatch(cfg, shelf, server, kind, items[1..], k - 1);
      } else {
        var r := RegisterCap(cfg, shelf, server, kind, items[0].cap);
        if r.Some? { StrictStopsBatch(cfg, r.value, server, kind, items[1..], k - 1); }
      }
    }
  }

  // ---------------------------------------------------------------------------------------------
  // Priority

  /** Every routed name stays routed, to a server of the same or a better rank. */
  ghost predicate Improves(order: seq<string>, a: Routes, b: Routes) {
    forall n :: n in a ==> n in b && Rank(order, b[n].server) <= Rank(order, a[n].server)
  }

  /** Every offered name is routed to a server that ranks at least as high as the one that offered it. */
  ghost predicate HeldByBest(order: seq<string>, offers: set<Offer>, routes: Routes) {
    forall o :: o in offers ==> o.name in routes && Rank(order, routes[o.name].server) <= Rank(order, o.server)
  }

  lemma ImprovesTransitive(order: seq<string>, a: Routes, b: Routes, c: Routes)
    requires Improves(order, a, b) && Improves(order, b, c)
    ensures Improves(order, a, c)
  {
    forall n | n in a ensures n in c && Rank(order, c[n].server) <= Rank(order, a[n].server) {
      assert n in b;
    }
  }

  lemma ImprovesHolds(order: seq<string>, offers: set<Offer>, a: Routes, b: Routes)
    requires HeldByBest(order, offers, a) && Improves(order, a, b)
    ensures HeldByBest(order, offers, b)
  {
    forall o | o in offers ensures o.name in b && Rank(order, b[o.name].server) <= Rank(order, o.server) {
      assert o.name in a;
    }
  }

  lemma CapImproves(cfg: Config, shelf: Shelf, server: string, kind: CapType, cap: Cap)
    requires cfg.strategy.Priority?
    ensures var r := RegisterCap(cfg, shelf, server, kind, cap);
            && r.Some? && Improves(cfg.strategy.order, shelf.routes, r.value.routes)
            && HeldByBest(cfg.strategy.order, {Offer(server, Exposed(cfg, server, kind, cap))}, r.value.routes)
  {
    var exposed := Exposed(cfg, server, kind, cap);
    var r := ResolveConflict(cfg, shelf, server, exposed);
    if r.Register? {
      var route := Route(server, cap.name);
      assert RegisterCap(cfg, shelf, server, kind, cap).value.routes == r.shelf.routes[r.name := route];
      RouteAdded(cfg.strategy.order, shelf.routes, r.name, route);
      if exposed in shelf.routes && r.name == exposed {
        assert (shelf.routes - {exposed})[exposed := route] == shelf.routes[exposed := route];
      }
    }
  }

  /** Adding a name, or giving it to a server of a better rank, is an improvement. */
  lemma RouteAdded(order: seq<string>, routes: Routes, name: string, route: Route)
    requires name in routes ==> Rank(order, route.server) <= Rank(order, routes[name].server)
    ensures Improves(order, routes, routes[name := route])
  {
  }

  lemma {:induction false} BatchImproves(cfg: Config, shelf: Shelf, b: Batch)
    requires cfg.strategy.Priority?
    ensures var done := RegisterAll(cfg, shelf, b.server, b.kind, b.items).routes;
            && Improves(cfg.strategy.order, shelf.routes, done)
            && HeldByBest(cfg.strategy.order, OffersOf(cfg, b), done)
    decreases |b.items|
  {
    if b.items == [] {
    } else {
      SplitBatch(cfg, b);
      var rest := b.(items := b.items[1..]);
      if !Accepts(cfg, b.server, b.kind, b.items[0]) {
        BatchImproves(cfg, shelf, rest);
      } else {
        CapImproves(cfg, shelf, b.server, b.kind, b.items[0].cap);
        var r := RegisterCap(cfg, shelf, b.server, b.kind, b.items[0].cap);
        BatchImproves(cfg, r.value, rest);
        var o := Offer(b.server, Exposed(cfg, b.server, b.kind, b.items[0].cap));
        var done := RegisterAll(cfg, shelf, b.server, b.kind, b.items).routes;
        ImprovesHolds(cfg.strategy.order, {o}, r.value.routes, done);
      }
    }
  }

  /** Over any batches in any order, a name's holder ranks at least as high as every server that offered it. */
  lemma {:induction false} PriorityHolderIsBest(cfg: Config, st: RegState, bs: seq<Batch>)
    requires cfg.strategy.Priority?
    ensures var done := ApplyBatches(cfg, st, bs).routes;
            && Improves(cfg.strategy.order, st.routes, done)
            && HeldByBest(cfg.strategy.order, Offers(cfg, bs), done)
    decreases |bs|
  {
    if bs == [] {
    } else {
      SplitOffers(cfg, bs);
      BatchImproves(cfg, Shelf(st.routes, ListOf(st, bs[0].kind)), bs[0]);
      var next := ApplyBatch(cfg, st, bs[0]);
      PriorityHolderIsBest(cfg, next, bs[1..]);
      var done := ApplyBatches(cfg, next, bs[1..]).routes;
      ImprovesHolds(cfg.strategy.order, OffersOf(cfg, bs[0]), next.routes, done);
      ImprovesTransitive(cfg.strategy.order, st.routes, next.routes, done);
    }
  }

  /** Every routed name was offered by its owner, or is its owner's prefix of a name the owner offered. */
  ghost predicate OwnersOffered(separator: string, offers: set<Offer>, routes: Routes) {
    forall n :: n in routes ==>
        Offer(routes[n].server, n) in offers || IsPrefixed(separator, offers, routes[n].server, n)
  }

  ghost predicate IsPrefixed(separator: string, offers: set<Offer>, server: string, n: string) {
    exists o :: o in offers && o.server == server && n == o.server + separator + o.name
  }

  lemma CapOwnersOffered(cfg: Config, shelf: Shelf, offers: set<Offer>, server: string, kind: CapType, cap: Cap)
    requires cfg.strategy.Priority? && OwnersOffered(cfg.strategy.separator, offers, shelf.routes)
    requires Offer(server, Exposed(cfg, server, kind, cap)) in offers
    ensures OwnersOffered(cfg.strategy.separator, offers, RegisterCap(cfg, shelf, server, kind, cap).value.routes)
  {
    var done := RegisterCap(cfg, shelf, server, kind, cap).value.routes;
    var exposed := Exposed(cfg, server, kind, cap);
    var prefixed := server + cfg.strategy.separator + exposed;
    var o := Offer(server, exposed);
    assert o.server + cfg.strategy.separator + o.name == prefixed;
    assert IsPrefixed(cfg.strategy.separator, offers, server, prefixed);
    forall n | n in done
      ensures Offer(done[n].server, n) in offers || IsPrefixed(cfg.strategy.separator, offers, done[n].server, n)
    {
      assert n == exposed || n == prefixed || (n in shelf.routes && done[n] == shelf.routes[n]);
    }
  }

  lemma {:induction false} BatchOwnersOffered(cfg: Config, shelf: Shelf, offers: set<Offer>, b: Batch)
    requires cfg.strategy.Priority? && OwnersOffered(cfg.strategy.separator, offers, shelf.routes)
    requires OffersOf(cfg, b) <= offers
    ensures OwnersOffered(cfg.strategy.separator, offers, RegisterAll(cfg, shelf, b.server, b.kind, b.items).routes)
    decreases |b.items|
  {
    if b.items == [] {
    } else {
      SplitBatch(cfg, b);
      var rest := b.(items := b.items[1..]);
      if !Accepts(cfg, b.server, b.kind, b.items[0]) {
        BatchOwnersOffered(cfg, shelf, offers, rest);
      } else {
        CapOwnersOffered(cfg, shelf, offers, b.server, b.kind, b.items[0].cap);
        BatchOwnersOffered(cfg, RegisterCap(cfg, shelf, b.server, b.kind, b.items[0].cap).value, offers, rest);
      }
    }
  }

  lemma {:induction false} BatchesOwnersOffered(cfg: Config, st: RegState, offers: set<Offer>, bs: seq<Batch>)
    requires cfg.strategy.Priority? && OwnersOffered(cfg.strategy.separator, offers, st.routes)
    requires Offers(cfg, bs) <= offers
    ensures OwnersOffered(cfg.strategy.separator, offers, ApplyBatches(cfg, st, bs).routes)
    decreases |bs|
  {
    if bs == [] {
    } else {
      SplitOffers(cfg, bs);
      BatchOwnersOffered(cfg, Shelf(st.routes, ListOf(st, bs[0].kind)), offers, bs[0]);
      BatchesOwnersOffered(cfg, ApplyBatch(cfg, st, bs[0]), offers, bs[1..]);
    }
  }

  /** Losing a conflict over one of the offers would not generate this name. */
  ghost predicate NotGenerated(separator: string, offers: set<Offer>, n: string) {
    forall p :: p in offers ==> n != p.server + separator + p.name
  }

  /** Of the servers that offer the name, none ranks above this one. */
  ghost predicate BestOffer(order: seq<string>, offers: set<Offer>, o: Offer) {
    && o in offers
    && forall p :: p in offers && p.name == o.name ==> Rank(order, o.server) <= Rank(order, p.server)
  }

  /** The best rank among the servers that offer the name belongs to one server. */
  ghost predicate OneBest(order: seq<string>, offers: set<Offer>, n: string) {
    forall o, p :: BestOffer(order, offers, o) && BestOffer(order, offers, p) && o.name == n == p.name ==>
      o.server == p.server
  }

  /** Who holds the name after these batches. */
  ghost function HolderAfter(cfg: Config, bs: seq<Batch>, n: string): Option<string> {
    var done := ApplyBatches(cfg, EMPTY, bs).routes;
    if n in done then Some(done[n].server) else None
  }

  /** The holder of an offered name is one of its best-ranked offerers. */
  lemma HolderIsBestOffer(cfg: Config, bs: seq<Batch>, n: string)
    requires cfg.strategy.Priority? && NotGenerated(cfg.strategy.separator, Offers(cfg, bs), n)
    requires exists o :: o in Offers(cfg, bs) && o.name == n
    ensures HolderAfter(cfg, bs, n).Some?
    ensures BestOffer(cfg.strategy.order, Offers(cfg, bs), Offer(HolderAfter(cfg, bs, n).value, n))
  {
    PriorityHolderIsBest(cfg, EMPTY, bs);
    BatchesOwnersOffered(cfg, EMPTY, Offers(cfg, bs), bs);
    var o :| o in Offers(cfg, bs) && o.name == n;
    assert o.name in ApplyBatches(cfg, EMPTY, bs).routes;
  }

  lemma CapKeepsBest(cfg: Config, shelf: Shelf, server: string, kind: CapType, cap: Cap, n: string)
    requires cfg.strategy.Priority? && n in shelf.routes
    requires Exposed(cfg, server, kind, cap) == n ==>
               Rank(cfg.strategy.order, shelf.routes[n].server) <= Rank(cfg.strategy.order, server)
    ensures var r := RegisterCap(cfg, shelf, server, kind, cap);
            r.Some? && n in r.value.routes && r.value.routes[n] == shelf.routes[n]
  {
  }

  lemma {:induction false} BatchKeepsBest(cfg: Config, shelf: Shelf, b: Batch, n: string)
    requires cfg.strategy.Priority? && n in shelf.routes
    requires Offer(b.server, n) in OffersOf(cfg, b) ==>
               Rank(cfg.strategy.order, shelf.routes[n].server) <= Rank(cfg.strategy.order, b.server)
    ensures var done := RegisterAll(cfg, shelf, b.server, b.kind, b.items).routes;
            n in done && done[n] == shelf.routes[n]
    decreases |b.items|
  {
    if b.items == [] {
    } else {
      SplitBatch(cfg, b);
      var rest := b.(items := b.items[1..]);
      if !Accepts(cfg, b.server, b.kind, b.items[0]) {
        BatchKeepsBest(cfg, shelf, rest, n);
      } else {
        CapKeepsBest(cfg, shelf, b.server, b.kind, b.items[0].cap, n);
        BatchKeepsBest(cfg, RegisterCap(cfg, shelf, b.server, b.kind, b.items[0].cap).value, rest, n);
      }
    }
  }

  /** A holder that no offerer outranks is never replaced. */
  lemma {:induction false} BestHolderStays(cfg: Config, st: RegState, bs: seq<Batch>, n: string)
    requires cfg.strategy.Priority? && n in st.routes
    requires forall o :: o in Offers(cfg, bs) && o.name == n ==>
               Rank(cfg.strategy.order, st.routes[n].server) <= Rank(cfg.strategy.order, o.server)
    ensures var done := ApplyBatches(cfg, st, bs).routes; n in done && done[n] == st.routes[n]
    decreases |bs|
  {
    if bs == [] {
    } else {
      SplitOffers(cfg, bs);
      BatchKeepsBest(cfg, Shelf(st.routes, ListOf(st, bs[0].kind)), bs[0], n);
      BestHolderStays(cfg, ApplyBatch(cfg, st, bs[0]), bs[1..], n);
    }
  }

  lemma OneItem(cfg: Config, st: RegState, server: string, kind: CapType, cap: Cap)
    requires Accepts(cfg, server, kind, Item(cap))
    ensures var b := Batch(server, kind, [Item(cap)]);
            var r := RegisterCap(cfg, Shelf(st.routes, ListOf(st, kind)), server, kind, cap);
            && OffersOf(cfg, b) == {Offer(server, Exposed(cfg, server, kind, cap))}
            && (r.Some? ==> ApplyBatch(cfg, st, b) == WithShelf(st, kind, r.value))
  {
    var b := Batch(server, kind, [Item(cap)]);
    assert b.items[1..] == [] && b.items[0] in b.items;
    var r := RegisterCap(cfg, Shelf(st.routes, ListOf(st, kind)), server, kind, cap);
    assert r.Some? ==> RegisterAll(cfg, r.value, server, kind, []) == r.value;
  }

  /** Any of the best-ranked offerers holds the name if its offer comes first. */
  lemma FirstOfBestHolds(cfg: Config, bs: seq<Batch>, o: Offer) returns (a: seq<Batch>)
    requires cfg.strategy.Priority? && BestOffer(cfg.strategy.order, Offers(cfg, bs), o)
    ensures Offers(cfg, a) == Offers(cfg, bs) && HolderAfter(cfg, a, o.name) == Some(o.server)
  {
    var b :| b in bs && o in OffersOf(cfg, b);
    var raw :| raw in b.items && Accepts(cfg, b.server, b.kind, raw)
            && Offer(b.server, Exposed(cfg, b.server, b.kind, raw.cap)) == o;
    assert raw == Item(raw.cap);
    var first := Batch(b.server, b.kind, [raw]);
    OneItem(cfg, EMPTY, b.server, b.kind, raw.cap);
    a := [first] + bs;
    assert a[1..] == bs;
    SplitOffers(cfg, a);
    BestHolderStays(cfg, ApplyBatch(cfg, EMPTY, first), bs, o.name);
  }

  /** The holder of an offered name is the same for all batch sequences that make these offers. */
  ghost predicate OrderIrrelevant(cfg: Config, offers: set<Offer>, n: string) {
    forall a, b :: Offers(cfg, a) == offers == Offers(cfg, b) ==> HolderAfter(cfg, a, n) == HolderAfter(cfg, b, n)
  }

  /** Arrival order does not decide who holds an offered name exactly when one server alone has the best rank. */
  lemma PriorityOrderIrrelevantExactlyWhen(cfg: Config, bs: seq<Batch>, n: string)
    requires cfg.strategy.Priority? && NotGenerated(cfg.strategy.separator, Offers(cfg, bs), n)
    requires exists o :: o in Offers(cfg, bs) && o.name == n
    ensures OrderIrrelevant(cfg, Offers(cfg, bs), n) <==> OneBest(cfg.strategy.order, Offers(cfg, bs), n)
  {
    var offers := Offers(cfg, bs);
    if OneBest(cfg.strategy.order, offers, n) {
      forall a, b | Offers(cfg, a) == offers == Offers(cfg, b)
        ensures HolderAfter(cfg, a, n) == HolderAfter(cfg, b, n)
      {
        HolderIsBestOffer(cfg, a, n);
        HolderIsBestOffer(cfg, b, n);
      }
    } else {
      var o, p :| BestOffer(cfg.strategy.order, offers, o) && BestOffer(cfg.strategy.order, offers, p)
               && o.name == n == p.name && o.server != p.server;
      var a := FirstOfBestHolds(cfg, bs, o);
      var b := FirstOfBestHolds(cfg, bs, p);
    }
  }

  /** Two servers of equal rank that offer one name: whoever comes first holds it. */
  lemma TieDependsOnOrder(cfg: Config, p: string, q: string, cap: Cap)
    requires cfg.strategy.Priority? && p != q && Rank(cfg.strategy.order, p) == Rank(cfg.strategy.order, q)
    requires cfg.filters == map[] && cfg.renames == map[] && cap.name != ""
    ensures var a, b := Batch(p, Tools, [Item(cap)]), Batch(q, Tools, [Item(cap)]);
            && Offers(cfg, [a, b]) == Offers(cfg, [b, a])
            && HolderAfter(cfg, [a, b], cap.name) == Some(p) && HolderAfter(cfg, [b, a], cap.name) == Some(q)
  {
    var a, b := Batch(p, Tools, [Item(cap)]), Batch(q, Tools, [Item(cap)]);
    FirstOfTwoHolds(cfg, p, q, cap);
    FirstOfTwoHolds(cfg, q, p, cap);
    SameBatches(cfg, [a, b], [b, a]);
  }

  lemma SameBatches(cfg: Config, a: seq<Batch>, b: seq<Batch>)
    requires forall c :: c in a <==> c in b
    ensures Offers(cfg, a) == Offers(cfg, b)
  {
  }

  lemma FirstOfTwoHolds(cfg: Config, p: string, q: string, cap: Cap)
    requires cfg.strategy.Priority? && Rank(cfg.strategy.order, p) <= Rank(cfg.strategy.order, q)
    requires cfg.filters == map[] && cfg.renames == map[] && cap.name != ""
    ensures HolderAfter(cfg, [Batch(p, Tools, [Item(cap)]), Batch(q, Tools, [Item(cap)])], cap.name) == Some(p)
  {
    var a, b := Batch(p, Tools, [Item(cap)]), Batch(q, Tools, [Item(cap)]);
    OneItem(cfg, EMPTY, p, Tools, cap);
    OneItem(cfg, EMPTY, q, Tools, cap);
    assert [a, b][1..] == [b] && [b][1..] == [];
    SplitOffers(cfg, [b]);
    assert Offers(cfg, []) == {};
    BestHolderStays(cfg, ApplyBatch(cfg, EMPTY, a), [b], cap.name);
  }

  /** A generated name: `q` loses its offer to `p` and falls back to its prefixed name. Server `r` offers that very name
      and no other server does, yet `r` holds it only if it comes first. */
  lemma GeneratedNameDependsOnOrder(cfg: Config, p: string, q: string, r: string, x: string)
    requires cfg.strategy.Priority? && cfg.strategy.order == [] && p != q && q != r
    requires cfg.filters == map[] && cfg.renames == map[] && x != "" && q != ""
    ensures var n := q + cfg.strategy.separator + x;
            var a, b := Batch(p, Tools, [Item(Cap(x, ""))]), Batch(q, Tools, [Item(Cap(x, ""))]);
            var c := Batch(r, Tools, [Item(Cap(n, ""))]);
            && Offers(cfg, [a, b, c]) == Offers(cfg, [c, a, b])
            && HolderAfter(cfg, [a, b, c], n) == Some(q) && HolderAfter(cfg, [c, a, b], n) == Some(r)
  {
    var n, cap := q + cfg.strategy.separator + x, Cap(x, "");
    var a, b, c := Batch(p, Tools, [Item(cap)]), Batch(q, Tools, [Item(cap)]), Batch(r, Tools, [Item(Cap(n, ""))]);
    SameBatches(cfg, [a, b, c], [c, a, b]);
    FallsBack(cfg, p, q, cap);
    var st := ApplyBatch(cfg, EMPTY, a);
    assert [a, b, c][1..] == [b, c] && [b, c][1..] == [c];
    assert ApplyBatches(cfg, EMPTY, [a, b, c]) == ApplyBatches(cfg, st, [b, c]);
    assert ApplyBatches(cfg, st, [b, c]) == ApplyBatches(cfg, ApplyBatch(cfg, st, b), [c]);
    StaysAmongEquals(cfg, ApplyBatch(cfg, st, b), [c], n);
    OneItem(cfg, EMPTY, r, Tools, Cap(n, ""));
    assert [c, a, b][1..] == [a, b];
    StaysAmongEquals(cfg, ApplyBatch(cfg, EMPTY, c), [a, b], n);
  }

  lemma FallsBack(cfg: Config, p: string, q: string, cap: Cap)
    requires cfg.strategy.Priority? && cfg.strategy.order == [] && p != q
    requires cfg.filters == map[] && cfg.renames == map[] && cap.name != "" && q != ""
    ensures var n := q + cfg.strategy.separator + cap.name;
            var st := ApplyBatch(cfg, EMPTY, Batch(p, Tools, [Item(cap)]));
            var routes := ApplyBatch(cfg, st, Batch(q, Tools, [Item(cap)])).routes;
            n in routes && routes[n].server == q
  {
    var n := q + cfg.strategy.separator + cap.name;
    var st := ApplyBatch(cfg, EMPTY, Batch(p, Tools, [Item(cap)]));
    OneItem(cfg, EMPTY, p, Tools, cap);
    assert st.routes == map[cap.name := Route(p, cap.name)];
    assert |n| > |cap.name|;
    OneItem(cfg, st, q, Tools, cap);
  }

  /** Without a rank order whoever holds a name keeps it. */
  lemma StaysAmongEquals(cfg: Config, st: RegState, bs: seq<Batch>, n: string)
    requires cfg.strategy.Priority? && cfg.strategy.order == [] && n in st.routes
    ensures var done := ApplyBatches(cfg, st, bs).routes; n in done && done[n] == st.routes[n]
  {
    BestHolderStays(cfg, st, bs, n);
  }

  // ---------------------------------------------------------------------------------------------
  // Names that nobody contests

  /** No two servers offer the same name. */
  ghost predicate NoConflict(offers: set<Offer>) {
    forall o, p :: o in offers && p in offers && o.name == p.name ==> o.server == p.server
  }

  /** Every routed name was offered by the server that holds it. */
  ghost predicate OwnNames(offers: set<Offer>, routes: Routes) {
    forall n :: n in routes ==> Offer(routes[n].server, n) in offers
  }

  /** Every offer is routed to the server that made it. */
  ghost predicate OffersHeld(offers: set<Offer>, routes: Routes) {
    forall o :: o in offers ==> o.name in routes && routes[o.name].server == o.server
  }

  ghost function ServersOf(bs: seq<Batch>): set<string> {
    set b | b in bs :: b.server
  }

  lemma KeepsTransitive(a: Routes, b: Routes, c: Routes)
    requires KeepsRoutes(a, b) && KeepsRoutes(b, c)
    ensures KeepsRoutes(a, c)
  {
  }

  lemma HeldStays(offers: set<Offer>, a: Routes, b: Routes)
    requires OffersHeld(offers, a) && KeepsRoutes(a, b)
    ensures OffersHeld(offers, b)
  {
  }

  /** Uncontested, a capability is placed whatever the strategy. */
  lemma UncontestedCapHeld(cfg: Config, shelf: Shelf, offers: set<Offer>, server: string, kind: CapType, cap: Cap)
    requires NoConflict(offers) && Offer(server, Exposed(cfg, server, kind, cap)) in offers
    requires OwnNames(offers, shelf.routes)
    ensures var r := RegisterCap(cfg, shelf, server, kind, cap);
            && r.Some? && OwnNames(offers, r.value.routes) && KeepsRoutes(shelf.routes, r.value.routes)
            && OffersHeld({Offer(server, Exposed(cfg, server, kind, cap))}, r.value.routes)
  {
    var exposed := Exposed(cfg, server, kind, cap);
    if exposed in shelf.routes {
      assert Offer(shelf.routes[exposed].server, exposed).server == server;
      assert RegisterCap(cfg, shelf, server, kind, cap) == Some(shelf);
    } else {
      var done := RegisterCap(cfg, shelf, server, kind, cap).value.routes;
      assert done == shelf.routes[exposed := Route(server, cap.name)];
    }
  }

  lemma {:induction false} UncontestedBatchHeld(cfg: Config, shelf: Shelf, offers: set<Offer>, b: Batch)
    requires NoConflict(offers) && OffersOf(cfg, b) <= offers && OwnNames(offers, shelf.routes)
    ensures var done := RegisterAll(cfg, shelf, b.server, b.kind, b.items).routes;
            && OwnNames(offers, done) && KeepsRoutes(shelf.routes, done)
            && OffersHeld(OffersOf(cfg, b), done)
    decreases |b.items|
  {
    if b.items == [] {
    } else {
      SplitBatch(cfg, b);
      var rest := b.(items := b.items[1..]);
      if !Accepts(cfg, b.server, b.kind, b.items[0]) {
        UncontestedBatchHeld(cfg, shelf, offers, rest);
      } else {
        UncontestedCapHeld(cfg, shelf, offers, b.server, b.kind, b.items[0].cap);
        var next := RegisterCap(cfg, shelf, b.server, b.kind, b.items[0].cap).value;
        UncontestedBatchHeld(cfg, next, offers, rest);
        HeldStays({Offer(b.server, Exposed(cfg, b.server, b.kind, b.items[0].cap))}, next.routes,
                  RegisterAll(cfg, shelf, b.server, b.kind, b.items).routes);
      }
    }
  }

  /** Uncontested offers all survive, under any strategy and in any batch order. */
  lemma {:induction false} UncontestedOffersHeld(cfg: Config, st: RegState, offers: set<Offer>, bs: seq<Batch>)
    requires NoConflict(offers) && Offers(cfg, bs) <= offers && OwnNames(offers, st.routes)
    ensures var done := ApplyBatches(cfg, st, bs).routes;
            && OwnNames(offers, done) && KeepsRoutes(st.routes, done)
            && OffersHeld(Offers(cfg, bs), done)
    decreases |bs|
  {
    if bs == [] {
    } else {
      SplitOffers(cfg, bs);
      UncontestedBatchHeld(cfg, Shelf(st.routes, ListOf(st, bs[0].kind)), offers, bs[0]);
      var next := ApplyBatch(cfg, st, bs[0]);
      UncontestedOffersHeld(cfg, next, offers, bs[1..]);
      var done := ApplyBatches(cfg, next, bs[1..]).routes;
      HeldStays(OffersOf(cfg, bs[0]), next.routes, done);
      KeepsTransitive(st.routes, next.routes, done);
    }
  }

  /** Under any strategy, filters and renames: a discovery keeps all its offers exactly when no two servers offer the
      same name. */
  lemma OffersHeldExactlyWhen(cfg: Config, bs: seq<Batch>)
    ensures OffersHeld(Offers(cfg, bs), ApplyBatches(cfg, EMPTY, bs).routes) <==> NoConflict(Offers(cfg, bs))
  {
    if NoConflict(Offers(cfg, bs)) { UncontestedOffersHeld(cfg, EMPTY, Offers(cfg, bs), bs); }
  }

  // ---------------------------------------------------------------------------------------------
  // Servers that cannot contest a name

  /** Is there a capability that the server could be allowed to offer under this name? */
  ghost predicate CanExpose(cfg: Config, server: string, n: string) {
    exists kind, cap :: Accepts(cfg, server, kind, Item(cap)) && Exposed(cfg, server, kind, cap) == n
  }

  /** No two of the servers can expose the same name. */
  ghost predicate Uncontested(cfg: Config, servers: set<string>) {
    forall s, t, n :: s in servers && t in servers && CanExpose(cfg, s, n) && CanExpose(cfg, t, n) ==> s == t
  }

  /** Every batch sequence of these servers keeps all its offers. */
  ghost predicate KeepsAllOffers(cfg: Config, servers: set<string>) {
    forall bs :: ServersOf(bs) <= servers ==> OffersHeld(Offers(cfg, bs), ApplyBatches(cfg, EMPTY, bs).routes)
  }

  lemma UncontestedOffers(cfg: Config, servers: set<string>, bs: seq<Batch>)
    requires Uncontested(cfg, servers) && ServersOf(bs) <= servers
    ensures NoConflict(Offers(cfg, bs))
  {
    forall o | o in Offers(cfg, bs) ensures o.server in servers && CanExpose(cfg, o.server, o.name) {
      var b :| b in bs && o in OffersOf(cfg, b);
      var raw :| raw in b.items && Accepts(cfg, b.server, b.kind, raw)
              && Offer(b.server, Exposed(cfg, b.server, b.kind, raw.cap)) == o;
      assert raw == Item(raw.cap);
    }
  }

  /** Two batches that offer the same name for different servers. */
  lemma ContestedLoses(cfg: Config, s: string, t: string, n: string) returns (bs: seq<Batch>)
    requires s != t && CanExpose(cfg, s, n) && CanExpose(cfg, t, n)
    ensures ServersOf(bs) == {s, t} && !OffersHeld(Offers(cfg, bs), ApplyBatches(cfg, EMPTY, bs).routes)
  {
    var k, c :| Accepts(cfg, s, k, Item(c)) && Exposed(cfg, s, k, c) == n;
    var l, d :| Accepts(cfg, t, l, Item(d)) && Exposed(cfg, t, l, d) == n;
    var first, second := Batch(s, k, [Item(c)]), Batch(t, l, [Item(d)]);
    bs := [first, second];
    assert Item(c) in first.items && Offer(s, n) in OffersOf(cfg, first);
    assert Item(d) in second.items && Offer(t, n) in OffersOf(cfg, second);
    assert first in bs && second in bs;
    var both := Offers(cfg, bs);
    assert Offer(s, n) in both && Offer(t, n) in both;
  }

  /** Under any strategy, filters and renames: all offers of these servers survive exactly when no name is contested. */
  lemma OffersSafeExactlyWhen(cfg: Config, servers: set<string>)
    ensures KeepsAllOffers(cfg, servers) <==> Uncontested(cfg, servers)
  {
    if Uncontested(cfg, servers) {
      forall bs | ServersOf(bs) <= servers ensures OffersHeld(Offers(cfg, bs), ApplyBatches(cfg, EMPTY, bs).routes) {
        UncontestedOffers(cfg, servers, bs);
        OffersHeldExactlyWhen(cfg, bs);
      }
    } else {
      var s, t, n :| s in servers && t in servers && s != t && CanExpose(cfg, s, n) && CanExpose(cfg, t, n);
      var bs := ContestedLoses(cfg, s, t, n);
      assert ServersOf(bs) <= servers;
    }
  }

  // ---------------------------------------------------------------------------------------------
  // Prefix

  /** Prefix-free servers never contest a name, whatever is filtered or renamed. */
  lemma PrefixFreeIsUncontested(cfg: Config, servers: set<string>)
    requires cfg.strategy.Prefix? && PrefixFree(servers, cfg.strategy.separator)
    ensures Uncontested(cfg, servers)
  {
    PrefixingInjectiveExactlyWhen(servers, cfg.strategy.separator);
    forall s, t, n | s in servers && t in servers && CanExpose(cfg, s, n) && CanExpose(cfg, t, n) ensures s == t {
      var k, c :| Accepts(cfg, s, k, Item(c)) && Exposed(cfg, s, k, c) == n;
      var l, d :| Accepts(cfg, t, l, Item(d)) && Exposed(cfg, t, l, d) == n;
      var x, y := Renamed(cfg, s, k, c).name, Renamed(cfg, t, l, d).name;
      assert TransformName(cfg.strategy, s, x) == TransformName(cfg.strategy, t, y);
    }
  }

  /** Under `prefix`, prefix-free servers never conflict: every offer survives, in any batch order. */
  lemma PrefixedOffersHeld(cfg: Config, servers: set<string>, bs: seq<Batch>)
    requires cfg.strategy.Prefix? && PrefixFree(servers, cfg.strategy.separator) && ServersOf(bs) <= servers
    ensures OffersHeld(Offers(cfg, bs), ApplyBatches(cfg, EMPTY, bs).routes)
  {
    PrefixFreeIsUncontested(cfg, servers);
    UncontestedOffers(cfg, servers, bs);
    OffersHeldExactlyWhen(cfg, bs);
  }

  /** What a user can check: the separator is not empty and no server name contains its first character. */
  lemma FreshSeparatorKeepsOffers(cfg: Config, bs: seq<Batch>)
    requires cfg.strategy.Prefix? && cfg.strategy.separator != ""
    requires forall b :: b in bs ==> cfg.strategy.separator[0] !in b.server
    ensures OffersHeld(Offers(cfg, bs), ApplyBatches(cfg, EMPTY, bs).routes)
  {
    FreshSeparatorSuffices(ServersOf(bs), cfg.strategy.separator);
    PrefixedOffersHeld(cfg, ServersOf(bs), bs);
  }

  /** The server's resources or its prompts are not filtered. Only tools are ever renamed. */
  ghost predicate HasOpenKind(cfg: Config, server: string) {
    exists kind :: kind != Tools && !(server in cfg.filters && kind in cfg.filters[server])
  }

  lemma OpenKindExposes(cfg: Config, server: string, x: string)
    requires cfg.strategy.Prefix? && HasOpenKind(cfg, server) && x != ""
    ensures CanExpose(cfg, server, server + cfg.strategy.separator + x)
  {
    var kind :| kind != Tools && !(server in cfg.filters && kind in cfg.filters[server]);
    assert Accepts(cfg, server, kind, Item(Cap(x, "")));
    assert Exposed(cfg, server, kind, Cap(x, "")) == server + cfg.strategy.separator + x;
  }

  /** Under `prefix`, for servers with unfiltered resources or prompts, all offers survive in every discovery exactly
      when the servers are prefix-free. */
  lemma PrefixSafeExactlyWhen(cfg: Config, servers: set<string>)
    requires cfg.strategy.Prefix? && forall s :: s in servers ==> HasOpenKind(cfg, s)
    ensures KeepsAllOffers(cfg, servers) <==> PrefixFree(servers, cfg.strategy.separator)
  {
    OffersSafeExactlyWhen(cfg, servers);
    var sep := cfg.strategy.separator;
    if PrefixFree(servers, sep) {
      PrefixFreeIsUncontested(cfg, servers);
    } else {
      var s, t :| s in servers && t in servers && s != t && s + sep <= t + sep;
      var gap := (t + sep)[|s + sep|..];
      OpenKindExposes(cfg, s, gap + "x");
      OpenKindExposes(cfg, t, "x");
      assert s + sep + (gap + "x") == t + sep + "x";
    }
  }

  // ---------------------------------------------------------------------------------------------
  // Provenance

  /** A capability as a backend listed it. */
  datatype Source = Source(server: string, kind: CapType, cap: Cap)

  ghost function FetchedBy(b: Batch): set<Source> {
    set raw | raw in b.items && raw.Item? :: Source(b.server, b.kind, raw.cap)
  }

  ghost function Fetched(bs: seq<Batch>): set<Source> {
    set b, s | b in bs && s in FetchedBy(b) :: s
  }

  ghost function FetchedIn(ops: seq<Op>): set<Source> {
    set op, s | op in ops && s in Fetched(BatchesOf(op)) :: s
  }

  /** `n` is a name the source may be exposed under: its transformed name, or its prefix after a lost conflict. */
  ghost predicate Yields(cfg: Config, s: Source, n: string) {
    && Accepts(cfg, s.server, s.kind, Item(s.cap))
    && var exposed := Exposed(cfg, s.server, s.kind, s.cap);
       n == exposed || (cfg.strategy.Priority? && n == s.server + cfg.strategy.separator + exposed)
  }

  ghost predicate RouteSourced(cfg: Config, fetched: set<Source>, n: string, r: Route) {
    exists s :: s in fetched && s.server == r.server && s.cap.name == r.original && Yields(cfg, s, n)
  }

  ghost predicate CapSourced(cfg: Config, fetched: set<Source>, kind: CapType, c: Cap) {
    exists s :: s in fetched && s.kind == kind && Yields(cfg, s, c.name)
             && c.description == Renamed(cfg, s.server, kind, s.cap).description
  }

  ghost predicate ShelfSourced(cfg: Config, fetched: set<Source>, kind: CapType, shelf: Shelf) {
    && (forall n :: n in shelf.routes ==> RouteSourced(cfg, fetched, n, shelf.routes[n]))
    && (forall c :: c in shelf.list ==> CapSourced(cfg, fetched, kind, c))
  }

  ghost predicate Sourced(cfg: Config, fetched: set<Source>, st: RegState) {
    forall kind :: ShelfSourced(cfg, fetched, kind, Shelf(st.routes, ListOf(st, kind)))
  }

  lemma CapSourcedStep(cfg: Config, fetched: set<Source>, shelf: Shelf, server: string, kind: CapType, cap: Cap)
    requires ShelfSourced(cfg, fetched, kind, shelf) && Accepts(cfg, server, kind, Item(cap))
    requires Source(server, kind, cap) in fetched
    ensures var r := RegisterCap(cfg, shelf, server, kind, cap); r.Some? ==> ShelfSourced(cfg, fetched, kind, r.value)
  {
    var exposed := Exposed(cfg, server, kind, cap);
    var r := ResolveConflict(cfg, shelf, server, exposed);
    RegistryTheorems.WithoutMembers(shelf.list, {exposed});
    if r.Register? {
      var s := Source(server, kind, cap);
      assert Yields(cfg, s, r.name);
      assert RouteSourced(cfg, fetched, r.name, Route(server, cap.name));
      assert CapSourced(cfg, fetched, kind, Cap(r.name, Renamed(cfg, server, kind, cap).description));
    }
  }

  lemma {:induction false} BatchSourced(cfg: Config, fetched: set<Source>, shelf: Shelf, b: Batch)
    requires ShelfSourced(cfg, fetched, b.kind, shelf) && FetchedBy(b) <= fetched
    ensures ShelfSourced(cfg, fetched, b.kind, RegisterAll(cfg, shelf, b.server, b.kind, b.items))
    decreases |b.items|
  {
    if b.items == [] {
    } else {
      var rest := b.(items := b.items[1..]);
      assert FetchedBy(rest) <= FetchedBy(b);
      if !Accepts(cfg, b.server, b.kind, b.items[0]) {
        BatchSourced(cfg, fetched, shelf, rest);
      } else {
        assert b.items[0] in b.items && b.items[0] == Item(b.items[0].cap);
        assert Source(b.server, b.kind, b.items[0].cap) in FetchedBy(b);
        CapSourcedStep(cfg, fetched, shelf, b.server, b.kind, b.items[0].cap);
        var r := RegisterCap(cfg, shelf, b.server, b.kind, b.items[0].cap);
        if r.Some? { BatchSourced(cfg, fetched, r.value, rest); }
      }
    }
  }

  lemma {:induction false} BatchesSourced(cfg: Config, fetched: set<Source>, st: RegState, bs: seq<Batch>)
    requires Sourced(cfg, fetched, st) && Fetched(bs) <= fetched
    ensures Sourced(cfg, fetched, ApplyBatches(cfg, st, bs))
    decreases |bs|
  {
    if bs == [] {
    } else {
      assert bs[0] in bs && FetchedBy(bs[0]) <= Fetched(bs) && Fetched(bs[1..]) <= Fetched(bs);
      var shelf := Shelf(st.routes, ListOf(st, bs[0].kind));
      assert ShelfSourced(cfg, fetched, bs[0].kind, shelf);
      BatchSourced(cfg, fetched, shelf, bs[0]);
      OtherShelves(cfg, fetched, st, bs[0]);
      BatchesSourced(cfg, fetched, ApplyBatch(cfg, st, bs[0]), bs[1..]);
    }
  }

  lemma OtherShelves(cfg: Config, fetched: set<Source>, st: RegState, b: Batch)
    requires Sourced(cfg, fetched, st)
    requires var shelf := Shelf(st.routes, ListOf(st, b.kind));
             ShelfSourced(cfg, fetched, b.kind, RegisterAll(cfg, shelf, b.server, b.kind, b.items))
    ensures Sourced(cfg, fetched, ApplyBatch(cfg, st, b))
  {
    var done := ApplyBatch(cfg, st, b);
    forall kind ensures ShelfSourced(cfg, fetched, kind, Shelf(done.routes, ListOf(done, kind))) {
      assert ShelfSourced(cfg, fetched, kind, Shelf(st.routes, ListOf(st, kind)));
    }
  }

  lemma RemoveSourced(cfg: Config, fetched: set<Source>, st: RegState, server: string)
    requires Sourced(cfg, fetched, st)
    ensures Sourced(cfg, fetched, RemoveServer(st, server))
  {
    var keys := OwnedBy(st.routes, server);
    forall kind
      ensures ShelfSourced(cfg, fetched, kind, Shelf(st.routes - keys, ListOf(RemoveServer(st, server), kind)))
    {
      assert ShelfSourced(cfg, fetched, kind, Shelf(st.routes, ListOf(st, kind)));
      RegistryTheorems.WithoutMembers(ListOf(st, kind), keys);
      assert ListOf(RemoveServer(st, server), kind) == Without(ListOf(st, kind), keys);
    }
  }

  /** In every reachable state each route and each listed capability goes back to an allowed item of its server. */
  lemma {:induction false} ReachableIsSourced(cfg: Config, fetched: set<Source>, st: RegState, ops: seq<Op>)
    requires Sourced(cfg, fetched, st) && FetchedIn(ops) <= fetched
    ensures Sourced(cfg, fetched, Run(cfg, st, ops))
    decreases |ops|
  {
    if ops == [] {
    } else {
      assert ops[0] in ops && Fetched(BatchesOf(ops[0])) <= FetchedIn(ops) && FetchedIn(ops[1..]) <= FetchedIn(ops);
      if ops[0].Remove? { RemoveSourced(cfg, fetched, st, ops[0].server); }
      assert Sourced(cfg, fetched, EMPTY);
      BatchesSourced(cfg, fetched, EMPTY, BatchesOf(ops[0]));
      BatchesSourced(cfg, fetched, st, BatchesOf(ops[0]));
      ReachableIsSourced(cfg, fetched, Apply(cfg, st, ops[0]), ops[1..]);
    }
  }

  /** Provenance of a resolved name after any run from an empty registry. */
  lemma RouteProvenance(cfg: Config, ops: seq<Op>, n: string)
    requires n in Run(cfg, EMPTY, ops).routes
    ensures RouteSourced(cfg, FetchedIn(ops), n, Run(cfg, EMPTY, ops).routes[n])
  {
    ReachableIsSourced(cfg, FetchedIn(ops), EMPTY, ops);
    var st := Run(cfg, EMPTY, ops);
    assert ShelfSourced(cfg, FetchedIn(ops), Tools, Shelf(st.routes, ListOf(st, Tools)));
  }

  /** A deny pattern of the server's filter for this type matches the name. */
  ghost predicate Denied(cfg: Config, server: string, kind: CapType, name: string) {
    && server in cfg.filters && kind in cfg.filters[server]
    && exists i :: 0 <= i < |cfg.filters[server][kind].deny| && cfg.glob(name, cfg.filters[server][kind].deny[i])
  }

  /** A name its server denies for every type is never routed, whatever is allowed, renamed or rediscovered. */
  lemma DeniedNeverRouted(cfg: Config, ops: seq<Op>, server: string, original: string, n: string)
    requires forall kind :: Denied(cfg, server, kind, original)
    requires n in Run(cfg, EMPTY, ops).routes
    ensures Run(cfg, EMPTY, ops).routes[n] != Route(server, original)
  {
    RouteProvenance(cfg, ops, n);
    var r := Run(cfg, EMPTY, ops).routes[n];
    var s :| s in FetchedIn(ops) && s.server == r.server && s.cap.name == r.original && Yields(cfg, s, n);
    assert Denied(cfg, server, s.kind, original);
  }

  // ---------------------------------------------------------------------------------------------
  // Filters and renames, said with patterns and overrides only

  /** The server has an allow list for this type, and none of its patterns matches the name. */
  ghost predicate NotAllowed(cfg: Config, server: string, kind: CapType, name: string) {
    && server in cfg.filters && kind in cfg.filters[server] && cfg.filters[server][kind].allow != []
    && forall i :: 0 <= i < |cfg.filters[server][kind].allow| ==> !cfg.glob(name, cfg.filters[server][kind].allow[i])
  }

  ghost predicate Hidden(cfg: Config, server: string, kind: CapType, name: string) {
    Denied(cfg, server, kind, name) || NotAllowed(cfg, server, kind, name)
  }

  /** Named capabilities that no filter hides are accepted, and nothing else is. */
  lemma AcceptedExactlyWhen(cfg: Config, server: string, kind: CapType, raw: RawItem)
    ensures Accepts(cfg, server, kind, raw) <==>
            raw.Item? && raw.cap.name != "" && !Hidden(cfg, server, kind, raw.cap.name)
  {
  }

  /** A name that its server's filters hide for every type is never routed, whatever is renamed or rediscovered. */
  lemma HiddenNeverRouted(cfg: Config, ops: seq<Op>, server: string, original: string, n: string)
    requires forall kind :: Hidden(cfg, server, kind, original)
    requires n in Run(cfg, EMPTY, ops).routes
    ensures Run(cfg, EMPTY, ops).routes[n] != Route(server, original)
  {
    RouteProvenance(cfg, ops, n);
    var r := Run(cfg, EMPTY, ops).routes[n];
    var s :| s in FetchedIn(ops) && s.server == r.server && s.cap.name == r.original && Yields(cfg, s, n);
    AcceptedExactlyWhen(cfg, s.server, s.kind, Item(s.cap));
    assert Hidden(cfg, server, s.kind, original);
  }

  /** There is an override for the capability; only tools have them. */
  ghost predicate HasOverride(cfg: Config, server: string, kind: CapType, name: string, o: Override) {
    kind == Tools && server in cfg.renames && name in cfg.renames[server] && cfg.renames[server][name] == o
  }

  /** The name it gets: the overriding one, or its own if no override gives one. */
  ghost predicate GetsName(cfg: Config, server: string, kind: CapType, cap: Cap, n: string) {
    || (exists o :: HasOverride(cfg, server, kind, cap.name, o) && o.name == Some(n))
    || (n == cap.name && forall o :: HasOverride(cfg, server, kind, cap.name, o) ==> o.name.None?)
  }

  ghost predicate GetsDescription(cfg: Config, server: string, kind: CapType, cap: Cap, text: string) {
    || (exists o :: HasOverride(cfg, server, kind, cap.name, o) && o.description == Some(text))
    || (text == cap.description && forall o :: HasOverride(cfg, server, kind, cap.name, o) ==> o.description.None?)
  }

  /** What a capability is to be shown as: overridden where an override says so, and prefixed under `prefix`. */
  ghost predicate ShownAs(cfg: Config, server: string, kind: CapType, cap: Cap, shown: Cap) {
    && GetsDescription(cfg, server, kind, cap, shown.description)
    && exists n :: GetsName(cfg, server, kind, cap, n)
                && shown.name == if cfg.strategy.Prefix? then server + cfg.strategy.separator + n else n
  }

  lemma OverrideExactly(cfg: Config, server: string, kind: CapType, cap: Cap)
    ensures forall n :: GetsName(cfg, server, kind, cap, n) <==> n == Renamed(cfg, server, kind, cap).name
    ensures forall text ::
              GetsDescription(cfg, server, kind, cap, text) <==> text == Renamed(cfg, server, kind, cap).description
  {
    if kind == Tools && server in cfg.renames && cap.name in cfg.renames[server] {
      assert HasOverride(cfg, server, kind, cap.name, cfg.renames[server][cap.name]);
    }
  }

  lemma ShownExactly(cfg: Config, server: string, kind: CapType, cap: Cap, shown: Cap)
    ensures ShownAs(cfg, server, kind, cap, shown) <==>
            shown == Cap(Exposed(cfg, server, kind, cap), Renamed(cfg, server, kind, cap).description)
  {
    OverrideExactly(cfg, server, kind, cap);
    assert GetsName(cfg, server, kind, cap, Renamed(cfg, server, kind, cap).name);
  }

  /** The batch has a named item that no filter hides, to be shown like this. */
  ghost predicate ShownBy(cfg: Config, b: Batch, cap: Cap, shown: Cap) {
    && Item(cap) in b.items && cap.name != "" && !Hidden(cfg, b.server, b.kind, cap.name)
    && ShownAs(cfg, b.server, b.kind, cap, shown)
  }

  /** A batch offers exactly its named items that no filter hides, under the names they are to be shown with. */
  lemma OfferedExactlyWhen(cfg: Config, b: Batch, o: Offer)
    ensures o in OffersOf(cfg, b) <==>
            && o.server == b.server
            && exists cap, shown :: ShownBy(cfg, b, cap, shown) && shown.name == o.name
  {
    if o in OffersOf(cfg, b) {
      var raw :| raw in b.items && Accepts(cfg, b.server, b.kind, raw)
              && Offer(b.server, Exposed(cfg, b.server, b.kind, raw.cap)) == o;
      assert raw == Item(raw.cap);
      AcceptedExactlyWhen(cfg, b.server, b.kind, raw);
      var shown := Cap(o.name, Renamed(cfg, b.server, b.kind, raw.cap).description);
      ShownExactly(cfg, b.server, b.kind, raw.cap, shown);
      assert ShownBy(cfg, b, raw.cap, shown);
    }
    if cap, shown :| ShownBy(cfg, b, cap, shown) && shown.name == o.name && o.server == b.server {
      AcceptedExactlyWhen(cfg, b.server, b.kind, Item(cap));
      ShownExactly(cfg, b.server, b.kind, cap, shown);
    }
  }

  /** A discovered capability is listed as it is to be shown, and its route keeps the name its backend knows. */
  lemma DiscoveredAsShown(cfg: Config, server: string, kind: CapType, cap: Cap, shown: Cap)
    requires cap.name != "" && !Hidden(cfg, server, kind, cap.name) && ShownAs(cfg, server, kind, cap, shown)
    ensures var st := ApplyBatch(cfg, EMPTY, Batch(server, kind, [Item(cap)]));
            ListOf(st, kind) == [shown] && st.routes == map[shown.name := Route(server, cap.name)]
  {
    AcceptedExactlyWhen(cfg, server, kind, Item(cap));
    ShownExactly(cfg, server, kind, cap, shown);
    OneItem(cfg, EMPTY, server, kind, cap);
    assert [] + [shown] == [shown];
  }

  // ---------------------------------------------------------------------------------------------
  // What discovery and removal leave

  /** A full discovery starts from nothing: whatever it leaves goes back to its own batches. */
  lemma DiscoveryStartsOver(cfg: Config, st: RegState, bs: seq<Batch>)
    ensures Sourced(cfg, Fetched(bs), Apply(cfg, st, Discover(bs)))
  {
    assert Sourced(cfg, Fetched(bs), EMPTY);
    BatchesSourced(cfg, Fetched(bs), EMPTY, bs);
  }

  /** Without `priority` lists only grow at their ends. */
  lemma {:induction false} ListsOnlyGrow(cfg: Config, st: RegState, bs: seq<Batch>, kind: CapType)
    requires !cfg.strategy.Priority?
    ensures ListOf(st, kind) <= ListOf(ApplyBatches(cfg, st, bs), kind)
    decreases |bs|
  {
    if bs == [] {
    } else {
      ListGrows(cfg, Shelf(st.routes, ListOf(st, bs[0].kind)), bs[0].server, bs[0].kind, bs[0].items);
      ListsOnlyGrow(cfg, ApplyBatch(cfg, st, bs[0]), bs[1..], kind);
    }
  }

  lemma {:induction false} ListGrows(cfg: Config, shelf: Shelf, server: string, kind: CapType, items: seq<RawItem>)
    requires !cfg.strategy.Priority?
    ensures shelf.list <= RegisterAll(cfg, shelf, server, kind, items).list
    decreases |items|
  {
    if items == [] {
    } else if !Accepts(cfg, server, kind, items[0]) {
      ListGrows(cfg, shelf, server, kind, items[1..]);
    } else {
      var r := RegisterCap(cfg, shelf, server, kind, items[0].cap);
      if r.Some? { ListGrows(cfg, r.value, server, kind, items[1..]); }
    }
  }

  /** Dropping names from a list keeps the order of the others. */
  lemma {:induction false} WithoutInOrder(a: seq<Cap>, b: seq<Cap>, names: set<string>)
    ensures Without(a + b, names) == Without(a, names) + Without(b, names)
  {
    if a == [] {
      assert a + b == b;
    } else {
      assert (a + b)[1..] == a[1..] + b;
      WithoutInOrder(a[1..], b, names);
    }
  }

  /** Removing a backend drops exactly its routes, and from the lists exactly what was listed under their names. */
  lemma RemovalExact(st: RegState, server: string)
    ensures var after := RemoveServer(st, server);
            && (forall n :: n in after.routes <==> n in st.routes && st.routes[n].server != server)
            && (forall n :: n in after.routes ==> after.routes[n] == st.routes[n])
            && (forall kind, c :: c in ListOf(after, kind) <==>
                  c in ListOf(st, kind) && !(c.name in st.routes && st.routes[c.name].server == server))
  {
    var keys := OwnedBy(st.routes, server);
    forall kind, c ensures c in ListOf(RemoveServer(st, server), kind) <==>
                             c in ListOf(st, kind) && !(c.name in st.routes && st.routes[c.name].server == server)
    {
      RegistryTheorems.WithoutMembers(ListOf(st, kind), keys);
      assert ListOf(RemoveServer(st, server), kind) == Without(ListOf(st, kind), keys);
    }
  }
}
