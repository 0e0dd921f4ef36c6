/**
 crdHandler: definitions come and go through informer events; two maps, the discovery slice,
 the route table and the priority map must all follow. The ledger at the end is the reference:
 which definitions are registered after a history of events.
 */
module Registration {
  import opened Wrappers
  import opened Strings
  import opened TenantStore
  import opened Priority
  import opened Discovery
  import opened Routes

  const SKIPPED_SUFFIX := ".jijiechen.com"

  predicate Skipped(spec: Spec) {
    |SKIPPED_SUFFIX| <= |spec.group| && spec.group[|spec.group| - |SKIPPED_SUFFIX|..] == SKIPPED_SUFFIX
  }

  // ---------------------------------------------------------------- definitions

  /** GetCRDStorageVersion: the first version marked as stored. */
  function StorageVersion(versions: seq<Version>): Option<Version> {
    if versions == [] then None else if versions[0].storage then Some(versions[0]) else StorageVersion(versions[1..])
  }

  /** The first version of a name, as the served and subresource helpers look it up. */
  function VersionNamed(versions: seq<Version>, name: string): Option<Version> {
    if versions == [] then None
    else if versions[0].name == name then Some(versions[0])
    else VersionNamed(versions[1..], name)
  }

  /** The version a definition would be registered with: stored, and served under its name. */
  function RegistrableVersion(crd: Crd): Option<Version> {
    match StorageVersion(crd.spec.versions)
    case None => None
    case Some(v) =>
      var found := VersionNamed(crd.spec.versions, v.name);
      if !crd.terminating && found.Some? && found.value.served then found else None
  }

  ghost predicate DistinctVersions(versions: seq<Version>) {
    forall i, k | 0 <= i < k < |versions| :: versions[i].name != versions[k].name
  }

  lemma {:induction false} NamedIsSelf(versions: seq<Version>)
    requires DistinctVersions(versions)
    ensures StorageVersion(versions).Some? ==>
      VersionNamed(versions, StorageVersion(versions).value.name) == StorageVersion(versions)
    ensures StorageVersion(versions).Some? ==> StorageVersion(versions).value in versions
    ensures StorageVersion(versions).Some? && StorageVersion(versions).value.served ==>
      StoredServed(versions) == StorageVersion(versions)
  {
    if versions != [] && !versions[0].storage {
      NamedIsSelf(versions[1..]);
    }
  }

  /** With distinct version names, discovery looks at the very version that is registered. */
  lemma RegisteredIsDiscovered(crd: Crd)
    requires DistinctVersions(crd.spec.versions) && RegistrableVersion(crd).Some?
    ensures StoredServed(crd.spec.versions) == RegistrableVersion(crd)
    ensures RegistrableVersion(crd) == StorageVersion(crd.spec.versions)
  {
    NamedIsSelf(crd.spec.versions);
  }

  datatype Storage = Storage(rest: Rest, shortNames: seq<string>)

  datatype RequestScope = RequestScope(
    group: string,
    version: string,
    resource: string,
    kind: string,
    clusterScoped: bool,
    selfLinkPrefix: string,
    statusKind: bool,
    scaleKind: bool)

  function StorageOf(spec: Spec, v: Version): Storage {
    Storage(Rest(spec.plural, spec.kind, spec.group, v.name, spec.scope.NamespaceScoped?), spec.shortNames)
  }

  function ScopeOf(spec: Spec, v: Version): RequestScope {
    RequestScope(spec.group, v.name, spec.plural, spec.kind, spec.scope.ClusterScoped?,
                 ROOT + (if spec.scope.ClusterScoped? then spec.plural else NAMESPACES) + "/", v.status, v.scale)
  }

  // ---------------------------------------------------------------- the handler's state

  datatype Handler = Handler(
    storages: map<string, Storage>,
    scopes: map<string, RequestScope>,
    listed: Slice,
    routes: Table,
    entries: Entries)

  function RemoveStorage(h: Handler, spec: Spec): Handler {
    h.(listed := Without(h.listed, spec.plural),
       storages := h.storages - {spec.plural},
       scopes := h.scopes - {spec.plural},
       routes := Dropped(h.routes, spec.plural, spec.scope))
  }

  function AddStorage(h: Handler, crd: Crd, services: ApiServices): Handler {
    match RegistrableVersion(crd)
    case None => h
    case Some(v) =>
      var spec, c := crd.spec, CallFor(crd.spec.group, v.name, crd.spec.plural, services);
      if Outranked(h.entries, c) then h
      else Install(h, spec, v, Entered(h.entries, c))
  }

  function Install(h: Handler, spec: Spec, v: Version, entries: Entries): Handler {
    Handler(h.storages[spec.plural := StorageOf(spec, v)],
            h.scopes[spec.plural := ScopeOf(spec, v)],
            Discovery.Updated(h.listed, spec),
            h.routes + AddedRoutes(spec.plural, spec.scope, v.status),
            entries)
  }

  /** An informer event, with what the APIService lister knows when it is handled. */
  datatype Event =
    | Added(crd: Crd, services: ApiServices)
    | Updated(prior: Crd, crd: Crd, services: ApiServices)
    | Deleted(crd: Crd)

  function Handle(h: Handler, e: Event): Handler {
    match e
    case Added(crd, services) => if Skipped(crd.spec) then h else AddStorage(h, crd, services)
    case Updated(prior, crd, services) =>
      if crd.terminating || prior.spec == crd.spec || Skipped(crd.spec) then h
      else AddStorage(RemoveStorage(h, prior.spec), crd, services)
    case Deleted(crd) => RemoveStorage(h, crd.spec)
  }

  /** What the informer hands to the delete handler. */
  datatype Notice = Object(crd: Crd) | Tombstone(last: Option<Crd>) | Unknown

  class CrdHandler {
    var storages: map<string, Storage>
    var requestScopes: map<string, RequestScope>
    const discovery: VersionDiscoveryHandler
    const priorities: ResourcePriorities
    const ws: WebService

    constructor (discovery: VersionDiscoveryHandler, priorities: ResourcePriorities, ws: WebService)
      ensures this.discovery == discovery && this.priorities == priorities && this.ws == ws
      ensures storages == map[] && requestScopes == map[]
    {
      this.discovery, this.priorities, this.ws := discovery, priorities, ws;
      storages, requestScopes := map[], map[];
    }

    ghost function State(): Handler
      reads this, discovery, priorities, ws
    {
      Handler(storages, requestScopes, discovery.listed, ws.routes, priorities.entries)
    }

    /** The web service's removal contract: what is to be removed is in the table once. */
    ghost predicate Removable(spec: Spec)
      reads ws
    {
      forall r: Route | Matches(r, spec.plural, spec.scope) :: multiset(ws.routes)[r] <= 1
    }

    method Remove(spec: Spec)
      requires Removable(spec)
      modifies this, discovery, ws
      ensures State() == RemoveStorage(old(State()), spec)
    {
      discovery.RemoveCRD(spec.plural);
      storages := storages - {spec.plural};
      requestScopes := requestScopes - {spec.plural};
      ws.RemoveRoutes(spec.plural, spec.scope);
    }

    method Add(crd: Crd, services: ApiServices)
      modifies this, discovery, priorities, ws
      ensures State() == AddStorage(old(State()), crd, services)
    {
      if crd.terminating {
        return;
      }
      var spec := crd.spec;
      var storageVersion := StorageVersion(spec.versions);
      if storageVersion.None? {
        return;
      }
      var found := VersionNamed(spec.versions, storageVersion.value.name);
      if found.None? || !found.value.served {
        return;
      }
      NameOfFound(spec.versions, storageVersion.value.name);
      var ok := priorities.CanBeAddedToStorage(spec.group, storageVersion.value.name, spec.plural, services);
      if !ok {
        return;
      }
      discovery.UpdateCRD(spec);
      storages := storages[spec.plural := StorageOf(spec, found.value)];
      requestScopes := requestScopes[spec.plural := ScopeOf(spec, found.value)];
      ws.AddRoutes(spec.plural, spec.scope, found.value.status);
    }

    method AddCustomResourceDefinition(crd: Crd, services: ApiServices)
      modifies this, discovery, priorities, ws
      ensures State() == Handle(old(State()), Added(crd, services))
    {
      if Skipped(crd.spec) {
        return;
      }
      Add(crd, services);
    }

    method UpdateCustomResourceDefinition(prior: Crd, crd: Crd, services: ApiServices)
      requires Removable(prior.spec)
      modifies this, discovery, priorities, ws
      ensures State() == Handle(old(State()), Event.Updated(prior, crd, services))
    {
      if crd.terminating {
        return;
      }
      if prior.spec == crd.spec {
        return;
      }
      if Skipped(crd.spec) {
        return;
      }
      Remove(prior.spec);
      Add(crd, services);
    }

    method DeleteCustomResourceDefinition(obj: Notice)
      requires obj.Object? ==> Removable(obj.crd.spec)
      requires obj.Tombstone? && obj.last.Some? ==> Removable(obj.last.value.spec)
      modifies this, discovery, ws
      ensures State() == match obj
                         case Object(crd) => Handle(old(State()), Deleted(crd))
                         case Tombstone(Some(crd)) => Handle(old(State()), Deleted(crd))
                         case _ => old(State())
    {
      match obj {
        case Object(crd) => Remove(crd.spec);
        case Tombstone(Some(crd)) => Remove(crd.spec);
        case _ =>
      }
    }

    /** The locked read of ServeHTTP. */
    method Serve(resource: string) returns (scope: Option<RequestScope>, storage: Option<Storage>)
      ensures scope == if resource in requestScopes then Some(requestScopes[resource]) else None
      ensures storage == if resource in storages then Some(storages[resource]) else None
    {
      scope := if resource in requestScopes then Some(requestScopes[resource]) else None;
      storage := if resource in storages then Some(storages[resource]) else None;
    }
  }

  lemma {:induction false} NameOfFound(versions: seq<Version>, name: string)
    ensures VersionNamed(versions, name).Some? ==> VersionNamed(versions, name).value.name == name
  {
    if versions != [] && versions[0].name != name {
      NameOfFound(versions[1..], name);
    }
  }

  // ---------------------------------------------------------------- the reference ledger

  /** The registered definitions with their versions, and the priority map. */
  datatype Registered = Registered(spec: Spec, version: Version)

  type Live = map<string, Registered>

  /** `outside` holds the routes under no item path: those of the start, and one a namespaced registration. */
  datatype Ledger = Ledger(live: Live, entries: Entries, outside: Table)

  function Enter(l: Ledger, crd: Crd, services: ApiServices): Ledger {
    match RegistrableVersion(crd)
    case None => l
    case Some(v) =>
      var c := CallFor(crd.spec.group, v.name, crd.spec.plural, services);
      if Outranked(l.entries, c) then l
      else Posted(l, Registered(crd.spec, v), Entered(l.entries, c))
  }

  function Posted(l: Ledger, r: Registered, entries: Entries): Ledger {
    Ledger(l.live[r.spec.plural := r], entries, l.outside + ExtraRoutes(r.spec.plural, r.spec.scope))
  }

  function Strike(l: Ledger, plural: string): Ledger {
    l.(live := l.live - {plural})
  }

  function Post(l: Ledger, e: Event): Ledger {
    match e
    case Added(crd, services) => if Skipped(crd.spec) then l else Enter(l, crd, services)
    case Updated(prior, crd, services) =>
      if crd.terminating || prior.spec == crd.spec || Skipped(crd.spec) then l
      else Enter(Strike(l, crd.spec.plural), crd, services)
    case Deleted(crd) => Strike(l, crd.spec.plural)
  }

  function HandleAll(h: Handler, es: seq<Event>): Handler {
    if es == [] then h else Handle(HandleAll(h, es[..|es| - 1]), es[|es| - 1])
  }

  function PostAll(l: Ledger, es: seq<Event>): Ledger {
    if es == [] then l else Post(PostAll(l, es[..|es| - 1]), es[|es| - 1])
  }

  // ---------------------------------------------------------------- well-formed histories

  /** The plurals a cluster may ever serve; Some(scope) says that a plural never changes its scope. */
  type Plurals = map<string, Option<Scope>>

  ghost predicate Slashless(u: Plurals) {
    forall p | p in u :: Free(p, '/')
  }

  /** No plural changes its scope, and removing one takes no route of another. */
  ghost predicate Apart(u: Plurals) {
    && Slashless(u)
    && (forall p | p in u :: u[p].Some?)
    && (forall p, q | p in u && q in u && p != q :: !Disturbs(p, u[p].value, q, u[q].value))
  }

  ghost predicate GoodSpec(u: Plurals, spec: Spec) {
    spec.plural in u && (u[spec.plural].Some? ==> u[spec.plural].value == spec.scope) && DistinctVersions(spec.versions)
  }

  /** The informer's cache: definitions that exist, by plural. */
  type Known = map<string, Crd>

  ghost predicate GoodEvent(u: Plurals, known: Known, e: Event) {
    && GoodSpec(u, e.crd.spec)
    && match e
       case Added(crd, _) => crd.spec.plural !in known
       case Updated(prior, crd, _) =>
         prior.spec.plural == crd.spec.plural && crd.spec.plural in known && GoodSpec(u, prior.spec)
       case Deleted(crd) => crd.spec.plural in known
  }

  function Learn(known: Known, e: Event): Known {
    if e.Deleted? then known - {e.crd.spec.plural} else known[e.crd.spec.plural := e.crd]
  }

  function LearnAll(known: Known, es: seq<Event>): Known {
    if es == [] then known else Learn(LearnAll(known, es[..|es| - 1]), es[|es| - 1])
  }

  ghost predicate GoodHistory(u: Plurals, es: seq<Event>) {
    forall i | 0 <= i < |es| :: GoodEvent(u, LearnAll(map[], es[..i]), es[i])
  }

  // ---------------------------------------------------------------- agreement

  /** What discovery must list under a name. */
  function Expected(live: Live, name: string): Option<ApiResource> {
    if name in live then Some(MainEntry(live[name].spec))
    else
      var cut := |name| - |"/scale"|;
      if cut >= 0 && name == ScaleName(name[..cut]) && name[..cut] in live && live[name[..cut]].version.scale
      then Some(ScaleEntry(live[name[..cut]].spec))
      else None
  }

  ghost predicate GoodLive(u: Plurals, live: Live) {
    forall p | p in live ::
      && GoodSpec(u, live[p].spec) && live[p].spec.plural == p
      && StoredServed(live[p].spec.versions) == Some(live[p].version)
  }

  ghost predicate MapsAgree(h: Handler, live: Live) {
    && h.storages == (map p | p in live :: StorageOf(live[p].spec, live[p].version))
    && h.scopes == (map p | p in live :: ScopeOf(live[p].spec, live[p].version))
  }

  ghost predicate ListingAgrees(listed: Slice, live: Live) {
    Unique(listed) && forall name :: Lookup(listed, name) == Expected(live, name)
  }

  /** Under each plural's item path: its routes, once each and in order, or none. */
  ghost predicate RoutesAgree(u: Plurals, t: Table, live: Live) {
    forall p | p in u && u[p].Some? ::
      Matching(t, p, u[p].value) == if p in live then ItemRoutes(p, u[p].value, live[p].version.status) else []
  }

  /** The routes under no plural's item path. */
  ghost function Elsewhere(u: Plurals): Route -> bool {
    (r: Route) => forall p | p in u && u[p].Some? :: !Matches(r, p, u[p].value)
  }

  /** Everything agrees with the ledger, the routes as far as the plurals keep apart. */
  ghost predicate Agrees(u: Plurals, h: Handler, l: Ledger) {
    && GoodLive(u, l.live)
    && h.entries == l.entries
    && MapsAgree(h, l.live)
    && ListingAgrees(h.listed, l.live)
    && (Apart(u) ==> RoutesAgree(u, h.routes, l.live) && Keep(h.routes, Elsewhere(u)) == l.outside)
  }

  lemma ListingStruck(u: Plurals, listed: Slice, live: Live, p: string)
    requires Slashless(u) && GoodLive(u, live) && ListingAgrees(listed, live) && p in u
    ensures ListingAgrees(Without(listed, p), live - {p})
  {
    WithoutIsMapRemoval(listed, p, p);
    forall name: string
      ensures Lookup(Without(listed, p), name) == Expected(live - {p}, name)
    {
      WithoutIsMapRemoval(listed, p, name);
      ExpectedStruck(u, live, p, name);
    }
  }

  lemma ExpectedStruck(u: Plurals, live: Live, p: string, name: string)
    requires Slashless(u) && GoodLive(u, live) && p in u
    ensures Expected(live - {p}, name) == if Belongs(name, p) then None else Expected(live, name)
  {
    if name in live {
      if name != p {
        BelongsToOne(name, p, name);
      }
    } else {
      var cut := |name| - |"/scale"|;
      if cut >= 0 && name == ScaleName(name[..cut]) && name[..cut] in live && name[..cut] != p {
        BelongsToOne(name, p, name[..cut]);
      }
    }
  }

  lemma ListingEntered(u: Plurals, listed: Slice, live: Live, r: Registered)
    requires Slashless(u) && GoodLive(u, live) && ListingAgrees(listed, live)
    requires GoodSpec(u, r.spec) && r.spec.plural !in live && StoredServed(r.spec.versions) == Some(r.version)
    ensures ListingAgrees(Discovery.Updated(listed, r.spec), live[r.spec.plural := r])
  {
    var p := r.spec.plural;
    UpdatedIsMapUpdate(listed, r.spec, p);
    forall name: string
      ensures Lookup(Discovery.Updated(listed, r.spec), name) == Expected(live[p := r], name)
    {
      UpdatedIsMapUpdate(listed, r.spec, name);
      ExpectedEntered(u, live, r, name);
    }
  }

  lemma ExpectedEntered(u: Plurals, live: Live, r: Registered, name: string)
    requires Slashless(u) && GoodLive(u, live)
    requires GoodSpec(u, r.spec) && r.spec.plural !in live && StoredServed(r.spec.versions) == Some(r.version)
    ensures Expected(live[r.spec.plural := r], name)
         == if ListsScale(r.spec) && name == ScaleName(r.spec.plural) then Some(ScaleEntry(r.spec))
            else if name == r.spec.plural then Some(MainEntry(r.spec))
            else Expected(live, name)
  {
    var p := r.spec.plural;
    ScaleNameCut(p);
    if name in live {
      ScaleNameApart(name, p);
    }
  }

  lemma ScaleNameCut(p: string)
    ensures ScaleName(p)[..|ScaleName(p)| - |"/scale"|] == p
  {
  }

  lemma OthersKept(u: Plurals, t: Table, live: Live, p: string, q: string)
    requires Apart(u) && RoutesAgree(u, t, live) && p in u && q in u && p != q
    ensures Matching(Dropped(t, p, u[p].value), q, u[q].value) == Matching(t, q, u[q].value)
  {
    var out, under := Outside(p, u[p].value), Under(q, u[q].value);
    KeepTwice(t, out, under);
    forall r | r in t
      ensures (out(r) && under(r)) == under(r)
    {
      if under(r) {
        KeepMembers(t, under, r);
        assert multiset(t)[r] > 0;
        assert r in Matching(t, q, u[q].value);
        SwallowsExactly(p, u[p].value, q, u[q].value, live[q].version.status, r);
      }
    }
    KeepSame(t, r => out(r) && under(r), under);
  }

  lemma OwnDropped(t: Table, p: string, scope: Scope)
    ensures Matching(Dropped(t, p, scope), p, scope) == []
  {
    var out, under := Outside(p, scope), Under(p, scope);
    KeepTwice(t, out, under);
    KeepNone(t, r => out(r) && under(r));
  }

  lemma RoutesStruck(u: Plurals, t: Table, live: Live, p: string)
    requires Apart(u) && RoutesAgree(u, t, live) && p in u
    ensures RoutesAgree(u, Dropped(t, p, u[p].value), live - {p})
    ensures Keep(Dropped(t, p, u[p].value), Elsewhere(u)) == Keep(t, Elsewhere(u))
  {
    KeepTwice(t, Outside(p, u[p].value), Elsewhere(u));
    KeepSame(t, r => Outside(p, u[p].value)(r) && Elsewhere(u)(r), Elsewhere(u));
    OwnDropped(t, p, u[p].value);
    forall q | q in u && q != p
      ensures Matching(Dropped(t, p, u[p].value), q, u[q].value) == Matching(t, q, u[q].value)
    {
      OthersKept(u, t, live, p, q);
    }
  }

  lemma OwnAdded(p: string, scope: Scope, status: bool)
    requires Free(p, '/')
    ensures Matching(AddedRoutes(p, scope, status), p, scope) == ItemRoutes(p, scope, status)
  {
    var f, path := Under(p, scope), ItemPath(p, scope);
    var gets, extra := ReadRoutes(path), ExtraRoutes(p, scope);
    var writes, stat := WriteRoutes(path), StatusRoutes(path, status);
    ItemRoutesMatchOwn(p, scope, status);
    assert forall r | r in gets + writes + stat :: r in ItemRoutes(p, scope, status);
    KeepAppend(gets + extra + writes, stat, f);
    KeepAppend(gets + extra, writes, f);
    KeepAppend(gets, extra, f);
    KeepAll(gets, f);
    KeepNone(extra, f);
    KeepAll(writes, f);
    KeepAll(stat, f);
  }

  lemma OthersAdded(p: string, ps: Scope, q: string, qs: Scope, status: bool)
    requires Free(p, '/') && Free(q, '/') && !Disturbs(q, qs, p, ps)
    ensures Matching(AddedRoutes(p, ps, status), q, qs) == []
  {
    OthersUntouched(q, qs, p, ps, status);
    KeepNone(AddedRoutes(p, ps, status), Under(q, qs));
  }

  /** Of the routes of a definition only the all-namespaces list lies under no item path. */
  lemma OnlyListElsewhere(u: Plurals, p: string, status: bool)
    requires Apart(u) && p in u
    ensures Keep(AddedRoutes(p, u[p].value, status), Elsewhere(u)) == ExtraRoutes(p, u[p].value)
  {
    var scope := u[p].value;
    ItemRoutesMatchOwn(p, scope, status);
    forall r | r in ExtraRoutes(p, scope)
      ensures Elsewhere(u)(r)
    {
      ListIsElsewhere(u, p, r);
    }
    KeepOnlyExtra(p, scope, status, Elsewhere(u));
  }

  lemma ListIsElsewhere(u: Plurals, p: string, r: Route)
    requires Apart(u) && p in u && r in ExtraRoutes(p, u[p].value)
    ensures Elsewhere(u)(r)
  {
    forall q | q in u
      ensures !Matches(r, q, u[q].value)
    {
      SwallowsListExactly(q, u[q].value, p);
      assert q != p ==> !Disturbs(q, u[q].value, p, u[p].value);
    }
  }

  lemma RoutesEntered(u: Plurals, t: Table, live: Live, r: Registered)
    requires Apart(u) && RoutesAgree(u, t, live)
    requires GoodSpec(u, r.spec) && r.spec.plural !in live
    ensures var t' := t + AddedRoutes(r.spec.plural, r.spec.scope, r.version.status);
      && RoutesAgree(u, t', live[r.spec.plural := r])
      && Keep(t', Elsewhere(u)) == Keep(t, Elsewhere(u)) + ExtraRoutes(r.spec.plural, r.spec.scope)
  {
    OnlyListElsewhere(u, r.spec.plural, r.version.status);
    KeepAppend(t, AddedRoutes(r.spec.plural, r.spec.scope, r.version.status), Elsewhere(u));
    var p, added := r.spec.plural, AddedRoutes(r.spec.plural, r.spec.scope, r.version.status);
    forall q | q in u
      ensures Matching(t + added, q, u[q].value)
           == if q in live[p := r] then ItemRoutes(q, u[q].value, live[p := r][q].version.status) else []
    {
      KeepAppend(t, added, Under(q, u[q].value));
      if q == p {
        OwnAdded(p, u[p].value, r.version.status);
      } else {
        OthersAdded(p, u[p].value, q, u[q].value, r.version.status);
      }
    }
  }

  lemma MapsStruck(h: Handler, live: Live, spec: Spec)
    requires MapsAgree(h, live)
    ensures MapsAgree(RemoveStorage(h, spec), live - {spec.plural})
  {
  }

  lemma MapsEntered(h: Handler, live: Live, spec: Spec, v: Version, h': Handler)
    requires MapsAgree(h, live)
    requires h'.storages == h.storages[spec.plural := StorageOf(spec, v)]
    requires h'.scopes == h.scopes[spec.plural := ScopeOf(spec, v)]
    ensures MapsAgree(h', live[spec.plural := Registered(spec, v)])
  {
  }

  lemma RemoveAgrees(u: Plurals, h: Handler, l: Ledger, spec: Spec)
    requires Slashless(u) && Agrees(u, h, l) && GoodSpec(u, spec)
    ensures Agrees(u, RemoveStorage(h, spec), Strike(l, spec.plural))
  {
    ListingStruck(u, h.listed, l.live, spec.plural);
    if Apart(u) {
      RoutesStruck(u, h.routes, l.live, spec.plural);
    }
    MapsStruck(h, l.live, spec);
    assert GoodLive(u, l.live - {spec.plural});
  }

  lemma AddAgrees(u: Plurals, h: Handler, l: Ledger, crd: Crd, services: ApiServices)
    requires Slashless(u) && Agrees(u, h, l) && GoodSpec(u, crd.spec) && crd.spec.plural !in l.live
    ensures Agrees(u, AddStorage(h, crd, services), Enter(l, crd, services))
  {
    match RegistrableVersion(crd)
    case None =>
    case Some(v) =>
      RegisteredIsDiscovered(crd);
      var c := CallFor(crd.spec.group, v.name, crd.spec.plural, services);
      InstallAgrees(u, h, l, Registered(crd.spec, v), Entered(h.entries, c));
  }

  lemma InstallAgrees(u: Plurals, h: Handler, l: Ledger, r: Registered, entries: Entries)
    requires Slashless(u) && Agrees(u, h, l) && GoodSpec(u, r.spec) && r.spec.plural !in l.live
    requires StoredServed(r.spec.versions) == Some(r.version)
    ensures Agrees(u, Install(h, r.spec, r.version, entries), Posted(l, r, entries))
  {
    ListingEntered(u, h.listed, l.live, r);
    if Apart(u) {
      RoutesEntered(u, h.routes, l.live, r);
    }
    MapsEntered(h, l.live, r.spec, r.version, Install(h, r.spec, r.version, entries));
  }

  lemma LiveIsKnown(u: Plurals, known: Known, l: Ledger, e: Event)
    requires GoodEvent(u, known, e) && l.live.Keys <= known.Keys
    ensures Post(l, e).live.Keys <= Learn(known, e).Keys
  {
  }

  lemma HandleAgrees(u: Plurals, known: Known, h: Handler, l: Ledger, e: Event)
    requires Slashless(u) && Agrees(u, h, l) && GoodEvent(u, known, e) && l.live.Keys <= known.Keys
    ensures Agrees(u, Handle(h, e), Post(l, e))
    ensures Post(l, e).live.Keys <= Learn(known, e).Keys
  {
    LiveIsKnown(u, known, l, e);
    match e
    case Added(crd, services) =>
      AddAgrees(u, h, l, crd, services);
    case Updated(prior, crd, services) =>
      RemoveAgrees(u, h, l, prior.spec);
      AddAgrees(u, RemoveStorage(h, prior.spec), Strike(l, crd.spec.plural), crd, services);
    case Deleted(crd) =>
      RemoveAgrees(u, h, l, crd.spec);
  }

  /** The handler before any event: nothing registered, and no foreign route under an item path. */
  ghost predicate Fresh(u: Plurals, h: Handler) {
    && h.storages == map[] && h.scopes == map[] && h.listed == []
    && forall p | p in u && u[p].Some? :: forall r | r in h.routes :: !Matches(r, p, u[p].value)
  }

  lemma GoodBefore(u: Plurals, es: seq<Event>)
    requires GoodHistory(u, es) && es != []
    ensures GoodHistory(u, es[..|es| - 1]) && GoodEvent(u, LearnAll(map[], es[..|es| - 1]), es[|es| - 1])
  {
    var before := es[..|es| - 1];
    forall i | 0 <= i < |before|
      ensures GoodEvent(u, LearnAll(map[], before[..i]), before[i])
    {
      assert before[..i] == es[..i] && before[i] == es[i];
    }
  }

  /** Only definitions that exist are registered. */
  lemma {:induction false} LiveWithinKnown(u: Plurals, l: Ledger, es: seq<Event>)
    requires l.live == map[] && GoodHistory(u, es)
    ensures PostAll(l, es).live.Keys <= LearnAll(map[], es).Keys
  {
    if es != [] {
      var before := es[..|es| - 1];
      GoodBefore(u, es);
      LiveWithinKnown(u, l, before);
      LiveIsKnown(u, LearnAll(map[], before), PostAll(l, before), es[|es| - 1]);
    }
  }

  /** After every well-formed history, all five structures agree with the ledger. */
  lemma {:induction false} RegistrationRefinesLedger(u: Plurals, h: Handler, es: seq<Event>)
    requires Slashless(u) && Fresh(u, h) && GoodHistory(u, es)
    ensures Agrees(u, HandleAll(h, es), PostAll(Ledger(map[], h.entries, h.routes), es))
    ensures PostAll(Ledger(map[], h.entries, h.routes), es).live.Keys <= LearnAll(map[], es).Keys
  {
    var l := Ledger(map[], h.entries, h.routes);
    if es == [] {
      KeepAll(h.routes, Elsewhere(u));
      forall p | p in u && u[p].Some?
        ensures Matching(h.routes, p, u[p].value) == []
      {
        KeepNone(h.routes, Under(p, u[p].value));
      }
    } else {
      var before, e := es[..|es| - 1], es[|es| - 1];
      GoodBefore(u, es);
      RegistrationRefinesLedger(u, h, before);
      HandleAgrees(u, LearnAll(map[], before), HandleAll(h, before), PostAll(l, before), e);
    }
  }

  // ---------------------------------------------------------------- the routes that accumulate

  /** The event registers p as a namespaced plural. */
  predicate Registers(l: Ledger, e: Event, p: string) {
    && !e.Deleted? && e.crd.spec.plural == p && e.crd.spec.scope.NamespaceScoped?
    && !Skipped(e.crd.spec) && (e.Updated? ==> e.prior.spec != e.crd.spec)
    && RegistrableVersion(e.crd).Some?
    && !Outranked(l.entries, CallFor(e.crd.spec.group, RegistrableVersion(e.crd).value.name, p, e.services))
  }

  function Registrations(l: Ledger, es: seq<Event>, p: string): nat {
    if es == [] then 0
    else
      var before, e := es[..|es| - 1], es[|es| - 1];
      Registrations(l, before, p) + if Registers(PostAll(l, before), e, p) then 1 else 0
  }

  lemma ListRoutesOfEvent(l: Ledger, e: Event, p: string)
    ensures multiset(Post(l, e).outside)[AllNamespacesRoute(p)]
         == multiset(l.outside)[AllNamespacesRoute(p)] + if Registers(l, e, p) then 1 else 0
  {
    if Post(l, e).outside != l.outside {
      var q := e.crd.spec.plural;
      assert AllNamespacesRoute(p).path[|ROOT|..] == p && AllNamespacesRoute(q).path[|ROOT|..] == q;
    }
  }

  lemma {:induction false} ListRoutesOfHistory(l: Ledger, es: seq<Event>, p: string)
    ensures multiset(PostAll(l, es).outside)[AllNamespacesRoute(p)]
         == multiset(l.outside)[AllNamespacesRoute(p)] + Registrations(l, es, p)
  {
    if es != [] {
      ListRoutesOfHistory(l, es[..|es| - 1], p);
      ListRoutesOfEvent(PostAll(l, es[..|es| - 1]), es[|es| - 1], p);
    }
  }

  /** The all-namespaces list of a plural is never removed: the table holds one for every time it was registered. */
  lemma ListRoutesAccumulate(u: Plurals, h: Handler, es: seq<Event>, p: string)
    requires Apart(u) && Fresh(u, h) && GoodHistory(u, es) && p in u && u[p] == Some(NamespaceScoped)
    ensures var l := Ledger(map[], h.entries, h.routes);
      multiset(HandleAll(h, es).routes)[AllNamespacesRoute(p)]
      == multiset(h.routes)[AllNamespacesRoute(p)] + Registrations(l, es, p)
  {
    RegistrationRefinesLedger(u, h, es);
    ListRoutesOfHistory(Ledger(map[], h.entries, h.routes), es, p);
    ListIsElsewhere(u, p, AllNamespacesRoute(p));
    KeepMembers(HandleAll(h, es).routes, Elsewhere(u), AllNamespacesRoute(p));
  }

  // ---------------------------------------------------------------- agreement read out

  /** Agreement read out: the same plurals in both maps, each pair made from one definition. */
  lemma AgreementOnMaps(u: Plurals, h: Handler, l: Ledger, name: string)
    requires Agrees(u, h, l)
    ensures h.storages.Keys == h.scopes.Keys == l.live.Keys
    ensures name in h.storages ==>
      && h.storages[name].rest.kind == h.scopes[name].kind
      && h.storages[name].rest.name == h.scopes[name].resource == name
      && h.storages[name].rest.group == h.scopes[name].group
      && h.storages[name].rest.version == h.scopes[name].version
  {
  }

  /** Agreement read out: discovery lists a plural iff it is stored, and its scale iff the stored version has scale. */
  lemma AgreementOnListing(u: Plurals, h: Handler, l: Ledger, name: string)
    requires Slashless(u) && Agrees(u, h, l) && Free(name, '/')
    ensures Holds(h.listed, name) <==> name in h.storages
    ensures Holds(h.listed, ScaleName(name)) <==> name in h.storages && h.scopes[name].scaleKind
  {
    LookupFinds(h.listed, name);
    LookupFinds(h.listed, ScaleName(name));
    assert Lookup(h.listed, name) == Expected(l.live, name);
    assert Lookup(h.listed, ScaleName(name)) == Expected(l.live, ScaleName(name));
    ExpectedNames(u, l.live, name);
  }

  lemma ExpectedNames(u: Plurals, live: Live, name: string)
    requires Slashless(u) && GoodLive(u, live) && Free(name, '/')
    ensures Expected(live, name).Some? <==> name in live
    ensures Expected(live, ScaleName(name)).Some? <==> name in live && live[name].version.scale
  {
    ScaleNameCut(name);
    var cut := |name| - |"/scale"|;
    if cut >= 0 {
      ScaleNameApart(name, name[..cut]);
    }
    if ScaleName(name) in live {
      ScaleNameApart(ScaleName(name), name);
    }
  }

  /** Agreement gives the web service what its removal contract asks for. */
  lemma AgreementRemovable(u: Plurals, h: Handler, l: Ledger, spec: Spec, r: Route)
    requires Apart(u) && Agrees(u, h, l) && GoodSpec(u, spec) && Matches(r, spec.plural, spec.scope)
    ensures multiset(h.routes)[r] <= 1
  {
    var p := spec.plural;
    KeepMembers(h.routes, Under(p, u[p].value), r);
    if p in l.live {
      ItemRoutesOnce(p, u[p].value, l.live[p].version.status, r);
    }
  }

  lemma ItemRoutesOnce(p: string, scope: Scope, status: bool, r: Route)
    ensures multiset(ItemRoutes(p, scope, status))[r] <= 1
  {
    var path := ItemPath(p, scope);
    var t := ItemRoutes(p, scope, status);
    RoutesDiffer(path, NamePath(path), StatusPath(path), status, t);
    if multiset(t)[r] > 1 {
      TwicePresent(t, r);
    }
  }

  lemma RoutesDiffer(a: string, b: string, c: string, status: bool, t: Table)
    requires |a| < |b| < |c|
    requires t == [Route(GET, b), Route(GET, a)]
               + [Route(PUT, b), Route(PATCH, b), Route(POST, a), Route(DELETE, b), Route(PATCH, a)]
               + if status then [Route(GET, c), Route(PUT, c), Route(PATCH, c)] else []
    ensures forall i, k | 0 <= i < k < |t| :: t[i] != t[k]
  {
  }

  lemma TwicePresent(t: Table, r: Route)
    requires multiset(t)[r] > 1
    ensures exists i, k :: 0 <= i < k < |t| && t[i] == t[k] == r
  {
    var i :| 0 <= i < |t| && t[i] == r;
    assert t == t[..i] + [r] + t[i + 1..];
    if r in t[..i] {
      var k :| 0 <= k < i && t[..i][k] == r;
      assert t[k] == r;
    } else {
      assert multiset(t[..i])[r] == 0;
      assert multiset(t[i + 1..])[r] > 0;
      assert r in t[i + 1..];
      var k :| 0 <= k < |t[i + 1..]| && t[i + 1..][k] == r;
      assert t[i + 1 + k] == r;
    }
  }
}
