/**
 The route table of the overlay web service: what registering a definition adds, and what
 removing one takes away.
 */
module Routes {
  import opened Strings
  import opened Discovery

  datatype Verb = GET | PUT | PATCH | POST | DELETE

  datatype Route = Route(verb: Verb, path: string)

  type Table = seq<Route>

  const ROOT := "/apis/overlay/v1alpha1/"
  const NAMESPACES := "namespaces"
  const NAMESPACED_PREFIX := "namespaces/{namespace}/"

  /** The path under which a plural is served; also what removeStorage matches routes against. */
  function ItemPath(plural: string, scope: Scope): string {
    ROOT + (if scope.ClusterScoped? then "" else NAMESPACED_PREFIX) + plural
  }

  function AllNamespacesRoute(plural: string): Route {
    Route(GET, ROOT + plural)
  }

  predicate Matches(r: Route, plural: string, scope: Scope) {
    ItemPath(plural, scope) <= r.path
  }

  function NamePath(item: string): string { item + "/{name}" }

  function StatusPath(item: string): string { item + "/{name}/status" }

  function ReadRoutes(p: string): Table {
    [Route(GET, NamePath(p)), Route(GET, p)]
  }

  function WriteRoutes(p: string): Table {
    [Route(PUT, NamePath(p)), Route(PATCH, NamePath(p)), Route(POST, p), Route(DELETE, NamePath(p)), Route(PATCH, p)]
  }

  function StatusRoutes(p: string, status: bool): Table {
    if status then [Route(GET, StatusPath(p)), Route(PUT, StatusPath(p)), Route(PATCH, StatusPath(p))] else []
  }

  /** The routes under the item path, in the order they are added. */
  function ItemRoutes(plural: string, scope: Scope, status: bool): Table {
    var p := ItemPath(plural, scope);
    ReadRoutes(p) + WriteRoutes(p) + StatusRoutes(p, status)
  }

  /** The list over all namespaces, which is outside the item path. */
  function ExtraRoutes(plural: string, scope: Scope): Table {
    if scope.NamespaceScoped? then [AllNamespacesRoute(plural)] else []
  }

  /** All routes of a definition; the list over all namespaces comes third. */
  function AddedRoutes(plural: string, scope: Scope, status: bool): Table {
    var p := ItemPath(plural, scope);
    ReadRoutes(p) + ExtraRoutes(plural, scope) + WriteRoutes(p) + StatusRoutes(p, status)
  }

  function ServedPath(plural: string, scope: Scope): string {
    match scope
    case ClusterScoped => "/apis/overlay/v1alpha1/" + plural
    case NamespaceScoped => "/apis/overlay/v1alpha1/namespaces/{namespace}/" + plural
  }

  lemma PathsAsWritten(plural: string, scope: Scope)
    ensures ItemPath(plural, scope) == ServedPath(plural, scope)
    ensures AllNamespacesRoute(plural).path == "/apis/overlay/v1alpha1/" + plural
  {
    assert ROOT + NAMESPACED_PREFIX == "/apis/overlay/v1alpha1/namespaces/{namespace}/";
    assert ROOT + "" == ROOT;
  }

  /** Which verb is served on which path: list, create and the collection on the plural; get, replace, patch and delete
      on a name; get, replace and patch on its status, if the version has one; and the list over all namespaces. */
  lemma ServedExactly(plural: string, scope: Scope, status: bool, verb: Verb, path: string)
    ensures var item := ServedPath(plural, scope);
      Route(verb, path) in AddedRoutes(plural, scope, status)
      <==> || (path == item && verb in {GET, POST, PATCH})
           || (path == item + "/{name}" && verb in {GET, PUT, PATCH, DELETE})
           || (status && path == item + "/{name}/status" && verb in {GET, PUT, PATCH})
           || (scope.NamespaceScoped? && path == "/apis/overlay/v1alpha1/" + plural && verb == GET)
  {
    PathsAsWritten(plural, scope);
    RoutesAsWritten(ItemPath(plural, scope), status, verb, path);
  }

  lemma RoutesAsWritten(item: string, status: bool, verb: Verb, path: string)
    ensures Route(verb, path) in ReadRoutes(item)
       <==> (path == item && verb == GET) || (path == item + "/{name}" && verb == GET)
    ensures Route(verb, path) in WriteRoutes(item)
       <==> (path == item && verb in {POST, PATCH}) || (path == item + "/{name}" && verb in {PUT, PATCH, DELETE})
    ensures Route(verb, path) in StatusRoutes(item, status)
       <==> status && path == item + "/{name}/status" && verb in {GET, PUT, PATCH}
  {
  }

  // ---------------------------------------------------------------- filtering a table

  function Keep(t: Table, f: Route -> bool): Table {
    if t == [] then [] else (if f(t[0]) then [t[0]] else []) + Keep(t[1..], f)
  }

  lemma {:induction false} KeepAppend(t: Table, u: Table, f: Route -> bool)
    ensures Keep(t + u, f) == Keep(t, f) + Keep(u, f)
  {
    if t == [] {
      assert t + u == u;
    } else {
      var head := if f(t[0]) then [t[0]] else [];
      KeepAppend(t[1..], u, f);
      assert (t + u)[1..] == t[1..] + u;
      assert Keep(t + u, f) == head + Keep(t[1..] + u, f);
      assert head + (Keep(t[1..], f) + Keep(u, f)) == (head + Keep(t[1..], f)) + Keep(u, f);
    }
  }

  lemma KeepNext(t: Table, i: nat, f: Route -> bool)
    requires i < |t|
    ensures Keep(t[..i + 1], f) == Keep(t[..i], f) + if f(t[i]) then [t[i]] else []
  {
    assert t[..i + 1] == t[..i] + [t[i]];
    KeepAppend(t[..i], [t[i]], f);
  }

  lemma {:induction false} KeepAll(t: Table, f: Route -> bool)
    ensures Keep(t, f) == t <==> forall r | r in t :: f(r)
    ensures |Keep(t, f)| <= |t|
  {
    if t != [] {
      KeepAll(t[1..], f);
      assert t == [t[0]] + t[1..];
      if f(t[0]) {
        assert Keep(t, f)[1..] == Keep(t[1..], f);
      } else {
        assert Keep(t, f) == Keep(t[1..], f);
      }
    }
  }

  lemma {:induction false} KeepNone(t: Table, f: Route -> bool)
    requires forall r | r in t :: !f(r)
    ensures Keep(t, f) == []
  {
    if t != [] {
      KeepNone(t[1..], f);
    }
  }

  lemma {:induction false} KeepSame(t: Table, f: Route -> bool, g: Route -> bool)
    requires forall r | r in t :: f(r) == g(r)
    ensures Keep(t, f) == Keep(t, g)
  {
    if t != [] {
      KeepSame(t[1..], f, g);
    }
  }

  lemma {:induction false} KeepTwice(t: Table, f: Route -> bool, g: Route -> bool)
    ensures Keep(Keep(t, f), g) == Keep(t, r => f(r) && g(r))
  {
    if t != [] {
      KeepTwice(t[1..], f, g);
      var k := Keep(t[1..], f);
      if f(t[0]) {
        assert Keep(t, f)[1..] == k;
      } else {
        assert Keep(t, f) == k;
      }
    }
  }

  lemma {:induction false} KeepMembers(t: Table, f: Route -> bool, r: Route)
    ensures multiset(Keep(t, f))[r] == if f(r) then multiset(t)[r] else 0
  {
    if t != [] {
      KeepMembers(t[1..], f, r);
      assert t == [t[0]] + t[1..];
    }
  }

  /** The table after a removal: the matching routes gone, the others in order. */
  function Dropped(t: Table, plural: string, scope: Scope): Table {
    Keep(t, Outside(plural, scope))
  }

  function Matching(t: Table, plural: string, scope: Scope): Table {
    Keep(t, Under(plural, scope))
  }

  function Under(plural: string, scope: Scope): Route -> bool {
    (r: Route) => Matches(r, plural, scope)
  }

  function Outside(plural: string, scope: Scope): Route -> bool {
    (r: Route) => !Matches(r, plural, scope)
  }

  // ---------------------------------------------------------------- the web service

  class WebService {
    var routes: Table

    constructor (routes: Table)
      ensures this.routes == routes
    {
      this.routes := routes;
    }

    method Add(r: Route)
      modifies this
      ensures routes == old(routes) + [r]
    {
      routes := routes + [r];
    }

    /** Removing a route, for a table that holds the pair of path and method once. */
    method RemoveRoute(r: Route)
      requires multiset(routes)[r] == 1
      modifies this
      ensures routes == Keep(old(routes), x => x != r)
    {
      var kept := [];
      ghost var keeps := x => x != r;
      for i := 0 to |routes|
        invariant routes == old(routes)
        invariant kept == Keep(routes[..i], keeps)
      {
        KeepNext(routes, i, keeps);
        if routes[i] != r {
          kept := kept + [routes[i]];
        }
      }
      assert routes[..|routes|] == routes;
      routes := kept;
    }

    /** The route part of addStorage. */
    method AddRoutes(plural: string, scope: Scope, status: bool)
      modifies this
      ensures routes == old(routes) + AddedRoutes(plural, scope, status)
    {
      var p := ItemPath(plural, scope);
      Add(Route(GET, NamePath(p)));
      Add(Route(GET, p));
      assert routes == old(routes) + ReadRoutes(p);
      if scope.NamespaceScoped? {
        Add(AllNamespacesRoute(plural));
      }
      assert routes == old(routes) + ReadRoutes(p) + ExtraRoutes(plural, scope);
      AddWrites(p);
      if status {
        Add(Route(GET, StatusPath(p)));
        Add(Route(PUT, StatusPath(p)));
        Add(Route(PATCH, StatusPath(p)));
      }
    }

    method AddWrites(p: string)
      modifies this
      ensures routes == old(routes) + WriteRoutes(p)
    {
      Add(Route(PUT, NamePath(p)));
      Add(Route(PATCH, NamePath(p)));
      Add(Route(POST, p));
      Add(Route(DELETE, NamePath(p)));
      Add(Route(PATCH, p));
    }

    /** The routes that start with the item path, in table order. */
    method Collect(plural: string, scope: Scope) returns (toRemove: Table)
      ensures toRemove == Matching(routes, plural, scope)
    {
      toRemove := [];
      for i := 0 to |routes|
        invariant toRemove == Keep(routes[..i], Under(plural, scope))
      {
        KeepNext(routes, i, Under(plural, scope));
        if Matches(routes[i], plural, scope) {
          toRemove := toRemove + [routes[i]];
        }
      }
      assert routes[..|routes|] == routes;
    }

    /** The route part of removeStorage: collect what matches, then remove one by one. */
    method RemoveRoutes(plural: string, scope: Scope)
      requires forall r: Route | Matches(r, plural, scope) :: multiset(routes)[r] <= 1
      modifies this
      ensures routes == Dropped(old(routes), plural, scope)
    {
      var toRemove := Collect(plural, scope);
      ghost var before := routes;
      MatchingOnce(before, plural, scope);
      KeepAll(before, NotIn(toRemove[..0]));
      for i := 0 to |toRemove|
        invariant routes == Keep(before, NotIn(toRemove[..i]))
      {
        RemovalStep(before, toRemove, i);
        RemoveRoute(toRemove[i]);
        KeepSame(Keep(before, NotIn(toRemove[..i])), x => x != toRemove[i], NotEqual(toRemove[i]));
      }
      assert toRemove[..|toRemove|] == toRemove;
      KeepSame(before, NotIn(toRemove), Outside(plural, scope));
    }
  }

  ghost function NotIn(t: Table): Route -> bool {
    (r: Route) => r !in t
  }

  ghost function NotEqual(x: Route): Route -> bool {
    (r: Route) => r != x
  }

  lemma MatchingOnce(t: Table, plural: string, scope: Scope)
    requires forall r: Route | Matches(r, plural, scope) :: multiset(t)[r] <= 1
    ensures var m := Matching(t, plural, scope);
      && (forall i | 0 <= i < |m| :: multiset(m)[m[i]] == 1 && multiset(t)[m[i]] == 1)
      && (forall r | r in t :: r in m <==> Matches(r, plural, scope))
  {
    var m := Matching(t, plural, scope);
    forall r: Route
      ensures multiset(m)[r] == if Matches(r, plural, scope) then multiset(t)[r] else 0
    {
      KeepMembers(t, Under(plural, scope), r);
    }
    assert forall r | r in m :: multiset(m)[r] > 0;
    assert forall r | r in t :: multiset(t)[r] > 0;
  }

  lemma RemovalStep(t: Table, m: Table, i: nat)
    requires i < |m| && multiset(m)[m[i]] == 1 && multiset(t)[m[i]] == 1
    ensures multiset(Keep(t, NotIn(m[..i])))[m[i]] == 1
    ensures Keep(Keep(t, NotIn(m[..i])), NotEqual(m[i])) == Keep(t, NotIn(m[..i + 1]))
  {
    SoleOccurrence(m, i);
    KeepMembers(t, NotIn(m[..i]), m[i]);
    KeepTwice(t, NotIn(m[..i]), NotEqual(m[i]));
    KeepSame(t, r => NotIn(m[..i])(r) && NotEqual(m[i])(r), NotIn(m[..i + 1]));
  }

  lemma SoleOccurrence(t: Table, i: nat)
    requires i < |t| && multiset(t)[t[i]] <= 1
    ensures t[i] !in t[..i] && multiset(t)[t[i]] == 1
  {
    assert t == t[..i] + [t[i]] + t[i + 1..];
  }

  // ---------------------------------------------------------------- what a removal takes

  lemma PastSegment(p: string, q: string, rest: string)
    requires |q| < |p| && p <= q + rest && rest != "" && rest[0] == '/'
    ensures !Free(p, '/')
  {
    assert p[|q|] == (q + rest)[|q|];
  }

  /** Slash-free plurals compare as prefixes whatever path segment follows. */
  lemma PrefixOfSegment(p: string, q: string, rest: string)
    requires Free(p, '/') && (rest == "" || rest[0] == '/')
    ensures p <= q + rest <==> p <= q
  {
    if p <= q + rest {
      if |p| > |q| {
        PastSegment(p, q, rest);
      } else {
        assert p == (q + rest)[..|p|] == q[..|p|];
      }
    }
    if p <= q {
      assert (q + rest)[..|p|] == q[..|p|];
    }
  }

  lemma CommonStart(a: string, p: string, q: string)
    ensures a + p <= a + q <==> p <= q
  {
    if a + p <= a + q {
      assert p == (a + p)[|a|..] == (a + q)[|a|..|a| + |p|] == q[..|p|];
    }
    if p <= q {
      assert (a + q)[..|a + p|] == a + q[..|p|];
    }
  }

  lemma ItemRoutesMatchOwn(plural: string, scope: Scope, status: bool)
    ensures forall r | r in ItemRoutes(plural, scope, status) :: Matches(r, plural, scope)
    ensures scope.NamespaceScoped? && Free(plural, '/') ==> !Matches(AllNamespacesRoute(plural), plural, scope)
  {
    assert scope.NamespaceScoped? ==> |ItemPath(plural, scope)| == |ROOT| + |NAMESPACED_PREFIX| + |plural|;
  }

  /** A filter that takes out the item routes and lets the list route through leaves just that. */
  lemma KeepOnlyExtra(plural: string, scope: Scope, status: bool, f: Route -> bool)
    requires forall r | r in ItemRoutes(plural, scope, status) :: !f(r)
    requires forall r | r in ExtraRoutes(plural, scope) :: f(r)
    ensures Keep(AddedRoutes(plural, scope, status), f) == ExtraRoutes(plural, scope)
  {
    var p, extra := ItemPath(plural, scope), ExtraRoutes(plural, scope);
    var gets, writes, stat := ReadRoutes(p), WriteRoutes(p), StatusRoutes(p, status);
    assert forall r | r in gets + writes + stat :: r in ItemRoutes(plural, scope, status);
    KeepAppend(gets + extra + writes, stat, f);
    KeepAppend(gets + extra, writes, f);
    KeepAppend(gets, extra, f);
    KeepNone(gets, f);
    KeepNone(writes, f);
    KeepNone(stat, f);
    KeepAll(extra, f);
  }

  /**
   Add then remove: the table is back, plus the all-namespaces list route of a namespaced plural,
   exactly when no route that was already there starts with the item path.
   */
  lemma AddThenRemoveExactly(t: Table, plural: string, scope: Scope, status: bool)
    requires Free(plural, '/')
    ensures Dropped(t + AddedRoutes(plural, scope, status), plural, scope)
         == t + ExtraRoutes(plural, scope)
       <==> forall r | r in t :: !Matches(r, plural, scope)
  {
    var f, left := Outside(plural, scope), ExtraRoutes(plural, scope);
    ItemRoutesMatchOwn(plural, scope, status);
    KeepOnlyExtra(plural, scope, status, f);
    KeepAppend(t, AddedRoutes(plural, scope, status), f);
    KeepAll(t, f);
    if Keep(t, f) + left == t + left {
      assert Keep(t, f) == (Keep(t, f) + left)[..|Keep(t, f)|];
      assert |Keep(t, f)| == |t|;
    }
  }

  /** Whether removing plural p takes the item routes of plural q. */
  predicate Swallows(p: string, ps: Scope, q: string, qs: Scope) {
    if ps == qs then p <= q else ps.ClusterScoped? && p <= NAMESPACES
  }

  /**
   Removing p takes an item route of q exactly when, within one scope, p is a string prefix of q; a
   cluster-scoped p also takes every namespaced item route when p is a prefix of "namespaces".
   */
  lemma SwallowsExactly(p: string, ps: Scope, q: string, qs: Scope, status: bool, r: Route)
    requires Free(p, '/') && Free(q, '/')
    requires r in ItemRoutes(q, qs, status)
    ensures Matches(r, p, ps) <==> Swallows(p, ps, q, qs)
  {
    var rest := SuffixOf(q, qs, status, r);
    match (ps, qs)
    case (NamespaceScoped, ClusterScoped) => NamespacedAndCluster(p, q, rest);
    case (ClusterScoped, NamespaceScoped) => ClusterAndNamespaced(p, q, rest);
    case _ => WithinScope(p, q, qs, rest);
  }

  lemma WithinScope(p: string, q: string, scope: Scope, rest: string)
    requires Free(p, '/') && (rest == "" || rest[0] == '/')
    ensures ItemPath(p, scope) <= ItemPath(q, scope) + rest <==> p <= q
  {
    var start := ROOT + if scope.ClusterScoped? then "" else NAMESPACED_PREFIX;
    assert start + q + rest == start + (q + rest);
    CommonStart(start, p, q + rest);
    PrefixOfSegment(p, q, rest);
  }

  lemma ClusterAndNamespaced(p: string, q: string, rest: string)
    requires Free(p, '/')
    ensures ItemPath(p, ClusterScoped) <= ItemPath(q, NamespaceScoped) + rest <==> p <= NAMESPACES
  {
    var tail := "/{namespace}/" + (q + rest);
    assert tail[0] == '/';
    ItemPathParts(p, ClusterScoped, "");
    ItemPathParts(q, NamespaceScoped, rest);
    assert p + "" == p && NAMESPACED_PREFIX + (q + rest) == NAMESPACES + tail;
    CommonStart(ROOT, p, NAMESPACES + tail);
    PrefixOfSegment(p, NAMESPACES, tail);
  }

  lemma NamespacedAndCluster(p: string, q: string, rest: string)
    requires Free(q, '/') && Suffix(rest) && (rest == "" || rest[0] == '/')
    ensures !(ItemPath(p, NamespaceScoped) <= ItemPath(q, ClusterScoped) + rest)
  {
    ItemPathParts(p, NamespaceScoped, "");
    ItemPathParts(q, ClusterScoped, rest);
    assert p + "" == p;
    CommonStart(ROOT, NAMESPACED_PREFIX + p, q + rest);
    NotUnderNamespaces(p, q, rest);
  }

  /** Removing p takes the all-namespaces list of q exactly when p is cluster-scoped and a prefix of q. */
  lemma SwallowsListExactly(p: string, ps: Scope, q: string)
    requires Free(p, '/') && Free(q, '/')
    ensures Matches(AllNamespacesRoute(q), p, ps) <==> ps.ClusterScoped? && p <= q
  {
    assert ItemPath(q, ClusterScoped) + "" == AllNamespacesRoute(q).path;
    if ps.ClusterScoped? {
      WithinScope(p, q, ClusterScoped, "");
    } else {
      NamespacedAndCluster(p, q, "");
    }
  }

  /** Whether removing plural p takes any route of plural q. */
  predicate Disturbs(p: string, ps: Scope, q: string, qs: Scope) {
    Swallows(p, ps, q, qs) || (qs.NamespaceScoped? && ps.ClusterScoped? && p <= q)
  }

  /** A removal leaves all routes of another definition alone exactly when its plural does not disturb the other. */
  lemma OthersUntouched(p: string, ps: Scope, q: string, qs: Scope, status: bool)
    requires Free(p, '/') && Free(q, '/')
    ensures (forall r | r in AddedRoutes(q, qs, status) :: !Matches(r, p, ps)) <==> !Disturbs(p, ps, q, qs)
  {
    SwallowsListExactly(p, ps, q);
    forall r | r in ItemRoutes(q, qs, status)
      ensures Matches(r, p, ps) <==> Swallows(p, ps, q, qs)
    {
      SwallowsExactly(p, ps, q, qs, status, r);
    }
    AddedMembers(q, qs, status);
  }

  lemma AddedMembers(q: string, qs: Scope, status: bool)
    ensures forall r :: r in AddedRoutes(q, qs, status) <==> r in ItemRoutes(q, qs, status) || r in ExtraRoutes(q, qs)
    ensures ItemRoutes(q, qs, status)[0] in ItemRoutes(q, qs, status)
    ensures forall r :: r in ExtraRoutes(q, qs) <==> qs.NamespaceScoped? && r == AllNamespacesRoute(q)
  {
  }

  /** For instance a cluster-scoped "names" takes the item routes of a namespaced "foos". */
  lemma NamesSwallowsFoos(status: bool)
    ensures !("names" <= "foos")
    ensures forall r | r in ItemRoutes("foos", NamespaceScoped, status) :: Matches(r, "names", ClusterScoped)
  {
    assert "names"[0] != "foos"[0];
    forall r | r in ItemRoutes("foos", NamespaceScoped, status)
      ensures Matches(r, "names", ClusterScoped)
    {
      SwallowsExactly("names", ClusterScoped, "foos", NamespaceScoped, status, r);
    }
  }

  /** The suffixes of item routes: each starts a new segment, and none is a namespace parameter. */
  predicate Suffix(rest: string) {
    rest == "" || rest == "/{name}" || rest == "/{name}/status"
  }

  /** A route of plural q is its item path and such a suffix. */
  lemma SuffixOf(q: string, qs: Scope, status: bool, r: Route) returns (rest: string)
    requires r in ItemRoutes(q, qs, status)
    ensures Suffix(rest) && (rest == "" || rest[0] == '/')
    ensures r.path == ItemPath(q, qs) + rest
  {
    rest := r.path[|ItemPath(q, qs)|..];
    var path := ItemPath(q, qs);
    assert NamePath(path)[|path|..] == "/{name}" && StatusPath(path)[|path|..] == "/{name}/status";
  }

  lemma FreePrefix(item: string, q: string)
    requires Free(q, '/') && item <= q
    ensures Free(item, '/')
  {
  }

  lemma SegmentsDiffer(a: string, x: string, b: string, y: string, k: nat)
    requires Free(a, '/') && Free(b, '/') && k < |x| && k < |y| && x[k] != y[k]
    ensures a + ['/'] + x != b + ['/'] + y
  {
    if a + ['/'] + x == b + ['/'] + y {
      SplitOnce(a, x, b, y, '/');
    }
  }

  /** The parameter after "namespaces" is not the one after a plural. */
  lemma ParametersDiffer(rest: string, more: string)
    requires Suffix(rest) && rest != ""
    ensures var x, y := rest[1..], "{namespace}/" + more; 5 < |x| && 5 < |y| && x[5] != y[5]
  {
    assert "{name}"[5] == '}' && "{name}/status"[5] == '}';
    assert "/{name}"[1..] == "{name}" && "/{name}/status"[1..] == "{name}/status";
    assert "{namespace}/"[5] == 's';
  }

  /** No path of a slash-free plural and such a suffix lies under the namespace parameter. */
  lemma NotUnderNamespaces(p: string, q: string, rest: string)
    requires Free(q, '/') && Suffix(rest) && (rest == "" || rest[0] == '/')
    ensures !(NAMESPACED_PREFIX + p <= q + rest)
  {
    var item, path := NAMESPACED_PREFIX + p, q + rest;
    assert item[|NAMESPACES|] == '/';
    assert path == if rest == "" then q else q + ['/'] + rest[1..];
    if item <= path {
      if rest == "" {
        FreePrefix(item, q);
      } else {
        UnderParameter(p, path);
        var more := p + path[|item|..];
        ParametersDiffer(rest, more);
        SegmentsDiffer(q, rest[1..], NAMESPACES, "{namespace}/" + more, 5);
      }
    }
  }

  lemma UnderParameter(p: string, path: string)
    requires NAMESPACED_PREFIX + p <= path
    ensures path == NAMESPACES + ['/'] + ("{namespace}/" + (p + path[|NAMESPACED_PREFIX + p|..]))
  {
    assert NAMESPACED_PREFIX == NAMESPACES + ['/'] + "{namespace}/";
  }

  lemma ItemPathParts(q: string, qs: Scope, rest: string)
    ensures ItemPath(q, qs) + rest
         == if qs.ClusterScoped? then ROOT + (q + rest) else ROOT + (NAMESPACED_PREFIX + (q + rest))
  {
  }
}
