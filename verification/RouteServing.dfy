/**
 Which plurals can be registered side by side without losing each other's routes. removeStorage takes
 every route that starts with an item path, so the answer is about string prefixes, over all histories.
 */
module RouteServing {
  import opened Wrappers
  import opened Strings
  import opened Discovery
  import opened Priority
  import opened Routes
  import opened Registration

  /** Plurals without slashes that never change their scope. */
  ghost predicate Settled(u: Plurals) {
    Slashless(u) && forall p | p in u :: u[p].Some?
  }

  ghost predicate NoneSwallowed(u: Plurals)
    requires Settled(u)
  {
    forall p, q | p in u && q in u && p != q :: !Swallows(p, u[p].value, q, u[q].value)
  }

  ghost predicate NoneDisturbed(u: Plurals)
    requires Settled(u)
  {
    forall p, q | p in u && q in u && p != q :: !Disturbs(p, u[p].value, q, u[q].value)
  }

  /** Every item route of every registered definition is in the table exactly once. */
  ghost predicate ItemsServed(t: Table, live: Live) {
    forall q, r | q in live && r in ItemRoutes(q, live[q].spec.scope, live[q].version.status) :: multiset(t)[r] == 1
  }

  /** Every route of every registered definition, the all-namespaces list included, is in the table. */
  ghost predicate AllServed(t: Table, live: Live) {
    forall q, r | q in live && r in AddedRoutes(q, live[q].spec.scope, live[q].version.status) :: r in t
  }

  function LiveAfter(h: Handler, es: seq<Event>): Live {
    PostAll(Ledger(map[], h.entries, h.routes), es).live
  }

  // ---------------------------------------------------------------- counting item routes

  /** Route r under q's item path is in the table once if q is registered with it, and otherwise not at all. */
  ghost predicate Counted(t: Table, q: string, scope: Scope, live: Live, r: Route) {
    multiset(t)[r] == if q in live && r in ItemRoutes(q, scope, live[q].version.status) then 1 else 0
  }

  ghost predicate ItemsCounted(u: Plurals, t: Table, live: Live)
    requires Settled(u)
  {
    forall q, r | q in u && r in ItemRoutes(q, u[q].value, true) :: Counted(t, q, u[q].value, live, r)
  }

  lemma StatusAddsRoutes(q: string, scope: Scope, status: bool)
    ensures forall r | r in ItemRoutes(q, scope, status) :: r in ItemRoutes(q, scope, true)
  {
    var p := ItemPath(q, scope);
    assert ItemRoutes(q, scope, true) == ReadRoutes(p) + WriteRoutes(p) + StatusRoutes(p, true);
    assert ItemRoutes(q, scope, status) == ReadRoutes(p) + WriteRoutes(p) + StatusRoutes(p, status);
  }

  lemma StruckCounts(u: Plurals, t: Table, live: Live, p: string)
    requires Settled(u) && NoneSwallowed(u) && p in u && ItemsCounted(u, t, live)
    ensures ItemsCounted(u, Dropped(t, p, u[p].value), live - {p})
  {
    forall q, r | q in u && r in ItemRoutes(q, u[q].value, true)
      ensures Counted(Dropped(t, p, u[p].value), q, u[q].value, live - {p}, r)
    {
      assert Counted(t, q, u[q].value, live, r);
      KeepMembers(t, Outside(p, u[p].value), r);
      SwallowsExactly(p, u[p].value, q, u[q].value, true, r);
      assert p == q ==> Swallows(p, u[p].value, q, u[q].value);
    }
  }

  /** What registering p adds to the count of a route under q's item path. */
  lemma AddedCount(p: string, ps: Scope, status: bool, q: string, qs: Scope, r: Route)
    requires Free(p, '/') && Free(q, '/') && r in ItemRoutes(q, qs, true)
    requires if p == q then ps == qs else !Swallows(p, ps, q, qs)
    ensures multiset(AddedRoutes(p, ps, status))[r] == if p == q && r in ItemRoutes(p, ps, status) then 1 else 0
  {
    ListIsNoItem(p, ps, q, qs, r);
    AddedMultiset(p, ps, status);
    if p == q {
      ItemRoutesOnce(p, ps, status, r);
    } else if r in ItemRoutes(p, ps, status) {
      ItemRoutesMatchOwn(p, ps, status);
      SwallowsExactly(p, ps, q, qs, true, r);
    }
  }

  lemma AddedMultiset(p: string, ps: Scope, status: bool)
    ensures multiset(AddedRoutes(p, ps, status)) == multiset(ItemRoutes(p, ps, status)) + multiset(ExtraRoutes(p, ps))
  {
    var path := ItemPath(p, ps);
    assert AddedRoutes(p, ps, status)
        == ReadRoutes(path) + ExtraRoutes(p, ps) + WriteRoutes(path) + StatusRoutes(path, status);
  }

  /** An all-namespaces list is an item route of no plural. */
  lemma ListIsNoItem(p: string, ps: Scope, q: string, qs: Scope, r: Route)
    requires Free(p, '/') && Free(q, '/') && r in ItemRoutes(q, qs, true) && (p == q ==> ps == qs)
    ensures r !in ExtraRoutes(p, ps)
  {
    if r == AllNamespacesRoute(p) && ps.NamespaceScoped? {
      ItemRoutesMatchOwn(q, qs, true);
      SwallowsListExactly(q, qs, p);
      var rest := SuffixOf(q, qs, true, r);
      assert r.path[|ROOT|..] == p;
      assert (ROOT + q + rest)[|ROOT|..] == q + rest;
      OneSegment(p, q, rest);
    }
  }

  lemma OneSegment(p: string, q: string, rest: string)
    requires Free(p, '/') && p == q + rest && (rest == "" || rest[0] == '/')
    ensures p == q
  {
    if rest != "" {
      SlashIn(q, rest);
    }
  }

  lemma SlashIn(q: string, rest: string)
    requires rest != "" && rest[0] == '/'
    ensures !Free(q + rest, '/')
  {
    assert (q + rest)[|q|] == '/';
  }

  lemma EnteredCount(t: Table, live: Live, x: Registered, q: string, qs: Scope, r: Route)
    requires Free(x.spec.plural, '/') && Free(q, '/') && r in ItemRoutes(q, qs, true)
    requires if x.spec.plural == q then x.spec.scope == qs else !Swallows(x.spec.plural, x.spec.scope, q, qs)
    requires x.spec.plural !in live && Counted(t, q, qs, live, r)
    ensures Counted(t + AddedRoutes(x.spec.plural, x.spec.scope, x.version.status), q, qs, live[x.spec.plural := x], r)
  {
    var added := AddedRoutes(x.spec.plural, x.spec.scope, x.version.status);
    AddedCount(x.spec.plural, x.spec.scope, x.version.status, q, qs, r);
    assert multiset(t + added)[r] == multiset(t)[r] + multiset(added)[r];
  }

  lemma EnteredCounts(u: Plurals, t: Table, live: Live, x: Registered)
    requires Settled(u) && NoneSwallowed(u) && ItemsCounted(u, t, live)
    requires GoodSpec(u, x.spec) && x.spec.plural !in live
    ensures ItemsCounted(u, t + AddedRoutes(x.spec.plural, x.spec.scope, x.version.status), live[x.spec.plural := x])
  {
    var p, added := x.spec.plural, AddedRoutes(x.spec.plural, x.spec.scope, x.version.status);
    forall q, r | q in u && r in ItemRoutes(q, u[q].value, true)
      ensures Counted(t + added, q, u[q].value, live[p := x], r)
    {
      EnteredCount(t, live, x, q, u[q].value, r);
    }
  }

  // ---------------------------------------------------------------- keeping the lists

  ghost predicate ListsKept(t: Table, live: Live) {
    forall q | q in live && live[q].spec.scope.NamespaceScoped? :: AllNamespacesRoute(q) in t
  }

  lemma StruckLists(u: Plurals, t: Table, live: Live, p: string)
    requires Settled(u) && NoneDisturbed(u) && p in u && GoodLive(u, live) && ListsKept(t, live)
    ensures ListsKept(Dropped(t, p, u[p].value), live - {p})
  {
    forall q | q in live - {p} && live[q].spec.scope.NamespaceScoped?
      ensures AllNamespacesRoute(q) in Dropped(t, p, u[p].value)
    {
      SwallowsListExactly(p, u[p].value, q);
      assert !Disturbs(p, u[p].value, q, u[q].value);
      KeepMembers(t, Outside(p, u[p].value), AllNamespacesRoute(q));
      assert AllNamespacesRoute(q) in t;
      assert multiset(Dropped(t, p, u[p].value))[AllNamespacesRoute(q)] > 0;
    }
  }

  // ---------------------------------------------------------------- over histories

  /** Everything that is shown by induction over a history. */
  ghost predicate Served(u: Plurals, t: Table, live: Live)
    requires Settled(u)
  {
    && GoodLive(u, live)
    && (NoneSwallowed(u) ==> ItemsCounted(u, t, live))
    && (NoneDisturbed(u) ==> ListsKept(t, live))
  }

  lemma StruckServed(u: Plurals, h: Handler, l: Ledger, spec: Spec)
    requires Settled(u) && Served(u, h.routes, l.live) && GoodSpec(u, spec)
    ensures Served(u, RemoveStorage(h, spec).routes, Strike(l, spec.plural).live)
  {
    if NoneSwallowed(u) {
      StruckCounts(u, h.routes, l.live, spec.plural);
    }
    if NoneDisturbed(u) {
      StruckLists(u, h.routes, l.live, spec.plural);
    }
  }

  lemma EnteredServed(u: Plurals, t: Table, live: Live, x: Registered)
    requires Settled(u) && Served(u, t, live)
    requires GoodSpec(u, x.spec) && x.spec.plural !in live && StoredServed(x.spec.versions) == Some(x.version)
    ensures Served(u, t + AddedRoutes(x.spec.plural, x.spec.scope, x.version.status), live[x.spec.plural := x])
  {
    if NoneSwallowed(u) {
      EnteredCounts(u, t, live, x);
    }
    AddedMembers(x.spec.plural, x.spec.scope, x.version.status);
  }

  lemma AddServed(u: Plurals, h: Handler, l: Ledger, crd: Crd, services: ApiServices)
    requires Settled(u) && Served(u, h.routes, l.live) && h.entries == l.entries
    requires GoodSpec(u, crd.spec) && crd.spec.plural !in l.live
    ensures Served(u, AddStorage(h, crd, services).routes, Enter(l, crd, services).live)
  {
    match RegistrableVersion(crd)
    case None =>
    case Some(v) =>
      RegisteredIsDiscovered(crd);
      EnteredServed(u, h.routes, l.live, Registered(crd.spec, v));
  }

  lemma EventServed(u: Plurals, known: Known, h: Handler, l: Ledger, e: Event)
    requires Settled(u) && Served(u, h.routes, l.live) && h.entries == l.entries
    requires GoodEvent(u, known, e) && l.live.Keys <= known.Keys
    ensures Served(u, Handle(h, e).routes, Post(l, e).live)
  {
    match e
    case Added(crd, services) => AddServed(u, h, l, crd, services);
    case Updated(prior, crd, services) =>
      StruckServed(u, h, l, prior.spec);
      AddServed(u, RemoveStorage(h, prior.spec), Strike(l, crd.spec.plural), crd, services);
    case Deleted(crd) => StruckServed(u, h, l, crd.spec);
  }

  lemma FreshServed(u: Plurals, h: Handler)
    requires Settled(u) && Fresh(u, h)
    ensures Served(u, h.routes, map[])
  {
    forall q, r | q in u && r in ItemRoutes(q, u[q].value, true)
      ensures Counted(h.routes, q, u[q].value, map[], r)
    {
      ItemRoutesMatchOwn(q, u[q].value, true);
      assert r !in h.routes;
    }
  }

  lemma {:induction false} HistoryServed(u: Plurals, h: Handler, es: seq<Event>)
    requires Settled(u) && Fresh(u, h) && GoodHistory(u, es)
    ensures Served(u, HandleAll(h, es).routes, LiveAfter(h, es))
  {
    if es == [] {
      FreshServed(u, h);
    } else {
      var before, e := es[..|es| - 1], es[|es| - 1];
      GoodBefore(u, es);
      HistoryServed(u, h, before);
      RegistrationRefinesLedger(u, h, before);
      var l := PostAll(Ledger(map[], h.entries, h.routes), before);
      EventServed(u, LearnAll(map[], before), HandleAll(h, before), l, e);
    }
  }

  // ---------------------------------------------------------------- a history that loses routes

  function PlainCrd(plural: string, scope: Scope): Crd {
    Crd(Spec("", plural, "", "", [], scope, [Version("v1", true, true, false, false)]), false)
  }

  function PlainRegistered(plural: string, scope: Scope): Registered {
    Registered(PlainCrd(plural, scope).spec, Version("v1", true, true, false, false))
  }

  function Empty(): Handler {
    Handler(map[], map[], [], [], map[])
  }

  lemma PlainAdded(h: Handler, l: Ledger, plural: string, scope: Scope)
    ensures var e := Added(PlainCrd(plural, scope), map[]);
      && Handle(h, e).routes == h.routes + AddedRoutes(plural, scope, false)
      && Post(l, e).live == l.live[plural := PlainRegistered(plural, scope)]
  {
    var versions := PlainCrd(plural, scope).spec.versions;
    assert versions[0] == Version("v1", true, true, false, false);
    assert RegistrableVersion(PlainCrd(plural, scope)) == Some(versions[0]);
  }

  lemma ThreeEvents(h: Handler, l: Ledger, known: Known, a: Event, b: Event, c: Event)
    ensures HandleAll(h, [a, b, c]) == Handle(Handle(Handle(h, a), b), c)
    ensures PostAll(l, [a, b, c]) == Post(Post(Post(l, a), b), c)
    ensures [a, b, c][..0] == [] && LearnAll(known, [a, b, c][..0]) == known
    ensures LearnAll(known, [a, b, c][..1]) == Learn(known, a)
    ensures LearnAll(known, [a, b, c][..2]) == Learn(Learn(known, a), b)
  {
    assert [a, b, c][..2] == [a, b] && [a, b, c][..1] == [a] && [a, b][..1] == [a] && [a][..0] == [];
    assert HandleAll(h, [a][..0]) == h && PostAll(l, [a][..0]) == l && LearnAll(known, [a][..0]) == known;
    assert HandleAll(h, [a]) == Handle(h, a) && PostAll(l, [a]) == Post(l, a);
    assert LearnAll(known, [a]) == Learn(known, a);
    assert HandleAll(h, [a, b]) == Handle(Handle(h, a), b) && PostAll(l, [a, b]) == Post(Post(l, a), b);
  }

  /** Register q, register p, remove p. */
  function ComesAndGoes(p: string, ps: Scope, q: string, qs: Scope): seq<Event> {
    [Added(PlainCrd(q, qs), map[]), Added(PlainCrd(p, ps), map[]), Deleted(PlainCrd(p, ps))]
  }

  lemma AfterComingAndGoing(u: Plurals, p: string, q: string)
    requires Settled(u) && p in u && q in u && p != q
    ensures var es := ComesAndGoes(p, u[p].value, q, u[q].value);
      && Fresh(u, Empty()) && GoodHistory(u, es)
      && LiveAfter(Empty(), es) == map[q := PlainRegistered(q, u[q].value)]
      && HandleAll(Empty(), es).routes
         == Dropped(AddedRoutes(q, u[q].value, false) + AddedRoutes(p, u[p].value, false), p, u[p].value)
  {
    var a, b := Added(PlainCrd(q, u[q].value), map[]), Added(PlainCrd(p, u[p].value), map[]);
    var c, l := Deleted(PlainCrd(p, u[p].value)), Ledger(map[], map[], []);
    ThreeEvents(Empty(), l, map[], a, b, c);
    PlainAdded(Empty(), l, q, u[q].value);
    PlainAdded(Handle(Empty(), a), Post(l, a), p, u[p].value);
    assert [] + AddedRoutes(q, u[q].value, false) == AddedRoutes(q, u[q].value, false);
    ComingAndGoingIsGood(u, p, q);
    StruckAgain(Post(l, a).live, p, PlainRegistered(p, u[p].value));
    assert map[][q := PlainRegistered(q, u[q].value)] == map[q := PlainRegistered(q, u[q].value)];
  }

  lemma StruckAgain(live: Live, p: string, x: Registered)
    requires p !in live
    ensures live[p := x] - {p} == live
  {
  }

  lemma ComingAndGoingIsGood(u: Plurals, p: string, q: string)
    requires Settled(u) && p in u && q in u && p != q
    ensures GoodHistory(u, ComesAndGoes(p, u[p].value, q, u[q].value))
  {
    var a, b := Added(PlainCrd(q, u[q].value), map[]), Added(PlainCrd(p, u[p].value), map[]);
    var c := Deleted(PlainCrd(p, u[p].value));
    ThreeEvents(Empty(), Ledger(map[], map[], []), map[], a, b, c);
    assert GoodEvent(u, map[], a) && GoodEvent(u, Learn(map[], a), b) && GoodEvent(u, Learn(Learn(map[], a), b), c);
  }

  /** A route of q that starts with p's item path is gone after that, although q is still registered. */
  lemma TakenRouteIsLost(u: Plurals, p: string, q: string, r: Route)
    requires Settled(u) && p in u && q in u && p != q && Matches(r, p, u[p].value)
    ensures var es := ComesAndGoes(p, u[p].value, q, u[q].value); r !in HandleAll(Empty(), es).routes
  {
    AfterComingAndGoing(u, p, q);
    var t := AddedRoutes(q, u[q].value, false) + AddedRoutes(p, u[p].value, false);
    KeepMembers(t, Outside(p, u[p].value), r);
    assert multiset(Dropped(t, p, u[p].value))[r] == 0;
  }

  // ---------------------------------------------------------------- the theorems

  /**
   Over all histories every item route of every registered definition is in the table, exactly once,
   exactly when no plural swallows another.
   */
  lemma ItemsServedExactly(u: Plurals)
    requires Settled(u)
    ensures (forall h, es | Fresh(u, h) && GoodHistory(u, es) :: ItemsServed(HandleAll(h, es).routes, LiveAfter(h, es)))
       <==> NoneSwallowed(u)
  {
    if NoneSwallowed(u) {
      forall h, es | Fresh(u, h) && GoodHistory(u, es)
        ensures ItemsServed(HandleAll(h, es).routes, LiveAfter(h, es))
      {
        HistoryServed(u, h, es);
        CountedIsServed(u, HandleAll(h, es).routes, LiveAfter(h, es));
      }
    } else {
      var p, q :| p in u && q in u && p != q && Swallows(p, u[p].value, q, u[q].value);
      SwallowedLosesItems(u, p, q);
    }
  }

  lemma CountedIsServed(u: Plurals, t: Table, live: Live)
    requires Settled(u) && GoodLive(u, live) && ItemsCounted(u, t, live)
    ensures ItemsServed(t, live)
  {
    forall q, r | q in live && r in ItemRoutes(q, live[q].spec.scope, live[q].version.status)
      ensures multiset(t)[r] == 1
    {
      assert GoodSpec(u, live[q].spec) && u[q].value == live[q].spec.scope;
      StatusAddsRoutes(q, u[q].value, live[q].version.status);
      assert Counted(t, q, u[q].value, live, r);
    }
  }

  /** For any p that swallows q, all item routes of q are lost when p comes and goes. */
  lemma SwallowedLosesItems(u: Plurals, p: string, q: string)
    requires Settled(u) && p in u && q in u && p != q && Swallows(p, u[p].value, q, u[q].value)
    ensures var es := ComesAndGoes(p, u[p].value, q, u[q].value);
      && Fresh(u, Empty()) && GoodHistory(u, es) && q in LiveAfter(Empty(), es)
      && (forall r | r in ItemRoutes(q, u[q].value, false) :: r !in HandleAll(Empty(), es).routes)
      && !ItemsServed(HandleAll(Empty(), es).routes, LiveAfter(Empty(), es))
  {
    var es := ComesAndGoes(p, u[p].value, q, u[q].value);
    AfterComingAndGoing(u, p, q);
    forall r | r in ItemRoutes(q, u[q].value, false)
      ensures r !in HandleAll(Empty(), es).routes
    {
      SwallowsExactly(p, u[p].value, q, u[q].value, false, r);
      TakenRouteIsLost(u, p, q, r);
    }
    var r := ItemRoutes(q, u[q].value, false)[0];
    assert r in ItemRoutes(q, LiveAfter(Empty(), es)[q].spec.scope, LiveAfter(Empty(), es)[q].version.status);
    assert multiset(HandleAll(Empty(), es).routes)[r] == 0;
  }

  /**
   Over all histories every route of every registered definition, the all-namespaces lists included, is in
   the table exactly when no plural disturbs another.
   */
  lemma AllServedExactly(u: Plurals)
    requires Settled(u)
    ensures (forall h, es | Fresh(u, h) && GoodHistory(u, es) :: AllServed(HandleAll(h, es).routes, LiveAfter(h, es)))
       <==> NoneDisturbed(u)
  {
    if NoneDisturbed(u) {
      forall h, es | Fresh(u, h) && GoodHistory(u, es)
        ensures AllServed(HandleAll(h, es).routes, LiveAfter(h, es))
      {
        HistoryServed(u, h, es);
        UndisturbedIsServed(u, HandleAll(h, es).routes, LiveAfter(h, es));
      }
    } else {
      var p, q :| p in u && q in u && p != q && Disturbs(p, u[p].value, q, u[q].value);
      DisturbedLosesRoute(u, p, q);
    }
  }

  lemma UndisturbedIsServed(u: Plurals, t: Table, live: Live)
    requires Settled(u) && Served(u, t, live) && NoneDisturbed(u)
    ensures AllServed(t, live)
  {
    CountedIsServed(u, t, live);
    forall q, r | q in live && r in AddedRoutes(q, live[q].spec.scope, live[q].version.status)
      ensures r in t
    {
      AddedMembers(q, live[q].spec.scope, live[q].version.status);
      if r in ItemRoutes(q, live[q].spec.scope, live[q].version.status) {
        assert multiset(t)[r] == 1;
      }
    }
  }

  /** For any p that disturbs q, some route of q is lost when p comes and goes. */
  lemma DisturbedLosesRoute(u: Plurals, p: string, q: string)
    requires Settled(u) && p in u && q in u && p != q && Disturbs(p, u[p].value, q, u[q].value)
    ensures var es := ComesAndGoes(p, u[p].value, q, u[q].value);
      && Fresh(u, Empty()) && GoodHistory(u, es)
      && !AllServed(HandleAll(Empty(), es).routes, LiveAfter(Empty(), es))
  {
    var es := ComesAndGoes(p, u[p].value, q, u[q].value);
    AfterComingAndGoing(u, p, q);
    OthersUntouched(p, u[p].value, q, u[q].value, false);
    var r :| r in AddedRoutes(q, u[q].value, false) && Matches(r, p, u[p].value);
    TakenRouteIsLost(u, p, q, r);
    var live := LiveAfter(Empty(), es);
    assert r in AddedRoutes(q, live[q].spec.scope, live[q].version.status);
  }

  // ---------------------------------------------------------------- a plural that changes its scope

  /** Register p namespaced, remove it, register it cluster-scoped. */
  function ChangesScope(p: string): seq<Event> {
    [Added(PlainCrd(p, NamespaceScoped), map[]), Deleted(PlainCrd(p, NamespaceScoped)),
     Added(PlainCrd(p, ClusterScoped), map[])]
  }

  lemma ChangingScopeIsGood(p: string)
    requires Free(p, '/')
    ensures GoodHistory(map[p := None], ChangesScope(p)) && Fresh(map[p := None], Empty())
  {
    var a, b := Added(PlainCrd(p, NamespaceScoped), map[]), Deleted(PlainCrd(p, NamespaceScoped));
    var c, u := Added(PlainCrd(p, ClusterScoped), map[]), map[p := None];
    ThreeEvents(Empty(), Ledger(map[], map[], []), map[], a, b, c);
    assert GoodEvent(u, map[], a) && GoodEvent(u, Learn(map[], a), b) && GoodEvent(u, Learn(Learn(map[], a), b), c);
  }

  lemma AfterChangingScope(p: string)
    requires Free(p, '/')
    ensures HandleAll(Empty(), ChangesScope(p)).routes == [AllNamespacesRoute(p)] + AddedRoutes(p, ClusterScoped, false)
  {
    var a, b := Added(PlainCrd(p, NamespaceScoped), map[]), Deleted(PlainCrd(p, NamespaceScoped));
    var c, l := Added(PlainCrd(p, ClusterScoped), map[]), Ledger(map[], map[], []);
    var h := Handle(Handle(Empty(), a), b);
    ThreeEvents(Empty(), l, map[], a, b, c);
    PlainAdded(Empty(), l, p, NamespaceScoped);
    AddThenRemoveExactly([], p, NamespaceScoped, false);
    assert h.routes == [] + ExtraRoutes(p, NamespaceScoped) == [AllNamespacesRoute(p)];
    PlainAdded(h, l, p, ClusterScoped);
  }

  /** The list route of the first registration is still there, under the item path of the second: the same
      path and method are in the table twice, which is more than the library's removal is described for. */
  lemma RescopedTwice(p: string)
    requires Free(p, '/')
    ensures GoodHistory(map[p := None], ChangesScope(p)) && Fresh(map[p := None], Empty())
    ensures Matches(AllNamespacesRoute(p), p, ClusterScoped)
    ensures multiset(HandleAll(Empty(), ChangesScope(p)).routes)[AllNamespacesRoute(p)] == 2
  {
    ChangingScopeIsGood(p);
    AfterChangingScope(p);
    ClusterListOnce(p);
    TwiceIn([AllNamespacesRoute(p)], AddedRoutes(p, ClusterScoped, false), AllNamespacesRoute(p));
  }

  lemma TwiceIn(t: Table, added: Table, r: Route)
    requires t == [r] && multiset(added)[r] == 1
    ensures multiset(t + added)[r] == 2
  {
  }

  /** The list of a cluster-scoped plural has the path and method of an all-namespaces list. */
  lemma ClusterListOnce(p: string)
    requires Free(p, '/')
    ensures Matches(AllNamespacesRoute(p), p, ClusterScoped)
    ensures multiset(AddedRoutes(p, ClusterScoped, false))[AllNamespacesRoute(p)] == 1
  {
    var r := AllNamespacesRoute(p);
    ListAmongItems(p);
    SwallowsListExactly(p, ClusterScoped, p);
    AddedMultiset(p, ClusterScoped, false);
    ItemRoutesOnce(p, ClusterScoped, false, r);
    OnceIfIn(ItemRoutes(p, ClusterScoped, false), r);
    assert ExtraRoutes(p, ClusterScoped) == [];
  }

  lemma OnceIfIn(t: Table, r: Route)
    requires r in t && multiset(t)[r] <= 1
    ensures multiset(t)[r] == 1
  {
  }

  lemma ListAmongItems(p: string)
    ensures AllNamespacesRoute(p) in ItemRoutes(p, ClusterScoped, false)
  {
    assert ItemPath(p, ClusterScoped) == ROOT + p;
    assert ReadRoutes(ROOT + p)[1] == AllNamespacesRoute(p);
  }
}
