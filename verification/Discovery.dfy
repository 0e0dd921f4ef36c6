/**
 versionDiscoveryHandler: the slice of API resources that discovery lists, and the custom
 resource definitions it is built from.
 */
module Discovery {
  import opened Wrappers
  import opened Strings

  datatype Scope = ClusterScoped | NamespaceScoped

  /** A version of a definition; a missing subresources object is both flags false. */
  datatype Version = Version(name: string, storage: bool, served: bool, status: bool, scale: bool)

  datatype Spec = Spec(
    group: string,
    plural: string,
    singular: string,
    kind: string,
    shortNames: seq<string>,
    scope: Scope,
    versions: seq<Version>)

  datatype Crd = Crd(spec: Spec, terminating: bool)

  /** StorageVersionHash is a digest of these three; the scale entry has none. */
  datatype VersionHash = NoHash | HashOf(group: string, version: string, kind: string)

  datatype ApiResource = ApiResource(
    name: string,
    singular: string,
    namespaced: bool,
    group: string,
    version: string,
    kind: string,
    verbs: seq<string>,
    shortNames: seq<string>,
    categories: seq<string>,
    hash: VersionHash)

  const CATEGORY := "external-crd"
  const VERBS := ["delete", "deletecollection", "get", "list", "patch", "create", "update", "watch"]
  const SCALE_VERBS := ["get", "patch", "update"]

  /** The first version that is both stored and served, if any. */
  function StoredServed(versions: seq<Version>): Option<Version> {
    if versions == [] then None
    else if versions[0].storage && versions[0].served then Some(versions[0])
    else StoredServed(versions[1..])
  }

  function MainEntry(spec: Spec): ApiResource {
    var v := StoredServed(spec.versions);
    ApiResource(spec.plural, spec.singular, spec.scope.NamespaceScoped?, "", "", spec.kind, VERBS, spec.shortNames,
                [CATEGORY], HashOf(spec.group, if v.Some? then v.value.name else "", spec.kind))
  }

  function ScaleName(plural: string): string { plural + "/scale" }

  function ScaleEntry(spec: Spec): ApiResource {
    MainEntry(spec).(name := ScaleName(spec.plural), group := "autoscaling", version := "v1", kind := "Scale",
                     verbs := SCALE_VERBS, hash := NoHash)
  }

  predicate ListsScale(spec: Spec) {
    StoredServed(spec.versions).Some? && StoredServed(spec.versions).value.scale
  }

  // ---------------------------------------------------------------- the slice as an ordered map

  type Slice = seq<ApiResource>

  function Names(s: Slice): seq<string> {
    seq(|s|, i requires 0 <= i < |s| => s[i].name)
  }

  predicate Unique(s: Slice) {
    forall i, k | 0 <= i < k < |s| :: s[i].name != s[k].name
  }

  predicate Holds(s: Slice, name: string) {
    exists i | 0 <= i < |s| :: s[i].name == name
  }

  /** The entry under a name. */
  function Lookup(s: Slice, name: string): Option<ApiResource> {
    if s == [] then None else if s[0].name == name then Some(s[0]) else Lookup(s[1..], name)
  }

  lemma {:induction false} LookupFinds(s: Slice, name: string)
    ensures Lookup(s, name).Some? <==> Holds(s, name)
    ensures Unique(s) ==> forall i | 0 <= i < |s| && s[i].name == name :: Lookup(s, name) == Some(s[i])
  {
    if s != [] {
      LookupFinds(s[1..], name);
      assert forall i | 0 < i < |s| :: s[i] == s[1..][i - 1];
      if Holds(s[1..], name) {
        var i :| 0 <= i < |s[1..]| && s[1..][i].name == name;
        assert s[i + 1].name == name;
      }
    }
  }

  /** Put an entry under its name: in place if the name is there, else at the end. */
  function Upsert(s: Slice, r: ApiResource): Slice {
    if s == [] then [r] else if s[0].name == r.name then [r] + s[1..] else [s[0]] + Upsert(s[1..], r)
  }

  predicate Belongs(name: string, plural: string) {
    name == plural || plural + "/" <= name
  }

  function Without(s: Slice, plural: string): Slice {
    if s == [] then []
    else (if Belongs(s[0].name, plural) then [] else [s[0]]) + Without(s[1..], plural)
  }

  /** Upsert changes one name's entry and no other, keeps the order, and adds the name only at the end. */
  lemma {:induction false} UpsertIsMapUpdate(s: Slice, r: ApiResource, name: string)
    ensures Lookup(Upsert(s, r), name) == if name == r.name then Some(r) else Lookup(s, name)
    ensures Names(Upsert(s, r)) == if Holds(s, r.name) then Names(s) else Names(s) + [r.name]
    ensures Unique(s) ==> Unique(Upsert(s, r))
  {
    UpsertNames(s, r);
    if s != [] {
      UpsertIsMapUpdate(s[1..], r, name);
      assert Upsert(s, r)[1..] == if s[0].name == r.name then s[1..] else Upsert(s[1..], r);
    }
    if Unique(s) {
      UniqueNames(s, Upsert(s, r), r.name);
    }
  }

  lemma {:induction false} UpsertNames(s: Slice, r: ApiResource)
    ensures Names(Upsert(s, r)) == if Holds(s, r.name) then Names(s) else Names(s) + [r.name]
  {
    if s != [] {
      UpsertNames(s[1..], r);
      assert Names(s) == [s[0].name] + Names(s[1..]);
      if s[0].name != r.name {
        assert Names(Upsert(s, r)) == [s[0].name] + Names(Upsert(s[1..], r));
        HoldsTail(s, r.name);
      } else {
        assert Names(Upsert(s, r)) == Names(s);
      }
    }
  }

  lemma UniqueNames(s: Slice, up: Slice, name: string)
    requires Unique(s) && Names(up) == if Holds(s, name) then Names(s) else Names(s) + [name]
    ensures Unique(up)
  {
    assert forall i | 0 <= i < |up| :: up[i].name == Names(up)[i];
    assert forall i | 0 <= i < |s| :: s[i].name == Names(s)[i];
  }

  lemma HoldsTail(s: Slice, name: string)
    requires s != [] && s[0].name != name
    ensures Holds(s, name) <==> Holds(s[1..], name)
  {
    if Holds(s, name) {
      var i :| 0 <= i < |s| && s[i].name == name;
      assert s[1..][i - 1].name == name;
    }
    if Holds(s[1..], name) {
      var i :| 0 <= i < |s[1..]| && s[1..][i].name == name;
      assert s[i + 1].name == name;
    }
  }

  /** The names that do not belong to the plural, in order. */
  function NamesOutside(names: seq<string>, plural: string): seq<string> {
    if names == [] then []
    else (if Belongs(names[0], plural) then [] else [names[0]]) + NamesOutside(names[1..], plural)
  }

  lemma {:induction false} WithoutKeepsOrder(s: Slice, plural: string)
    ensures Names(Without(s, plural)) == NamesOutside(Names(s), plural)
  {
    if s != [] {
      var w := Without(s[1..], plural);
      WithoutKeepsOrder(s[1..], plural);
      assert Names(s)[0] == s[0].name && Names(s)[1..] == Names(s[1..]);
      assert Names([s[0]] + w) == [s[0].name] + Names(w);
      assert Without(s, plural) == if Belongs(s[0].name, plural) then w else [s[0]] + w;
    }
  }

  /** Removal drops exactly the plural and the names under it; every other entry and the order stay. */
  lemma {:induction false} WithoutIsMapRemoval(s: Slice, plural: string, name: string)
    ensures Lookup(Without(s, plural), name) == if Belongs(name, plural) then None else Lookup(s, name)
    ensures Names(Without(s, plural)) == NamesOutside(Names(s), plural)
    ensures forall r | r in Without(s, plural) :: r in s
    ensures Unique(s) ==> Unique(Without(s, plural))
  {
    WithoutKeepsOrder(s, plural);
    if s != [] {
      WithoutIsMapRemoval(s[1..], plural, name);
      var w := Without(s[1..], plural);
      if Belongs(s[0].name, plural) {
        assert Without(s, plural) == w;
      } else {
        assert Without(s, plural)[1..] == w;
        if Unique(s) {
          forall i | 0 <= i < |w|
            ensures w[i].name != s[0].name
          {
            assert w[i] in s[1..];
          }
        }
      }
    }
  }

  lemma {:induction false} WithoutAppend(s: Slice, r: ApiResource, plural: string)
    ensures Without(s + [r], plural) == Without(s, plural) + if Belongs(r.name, plural) then [] else [r]
  {
    if s == [] {
      assert s + [r] == [r] && [r][1..] == [] && Without([r][1..], plural) == [];
    } else {
      var head, last := if Belongs(s[0].name, plural) then [] else [s[0]], if Belongs(r.name, plural) then [] else [r];
      WithoutAppend(s[1..], r, plural);
      assert (s + [r])[1..] == s[1..] + [r];
      assert Without(s + [r], plural) == head + Without(s[1..] + [r], plural);
      assert head + (Without(s[1..], plural) + last) == (head + Without(s[1..], plural)) + last;
    }
  }

  lemma WithoutNext(s: Slice, i: nat, plural: string)
    requires i < |s|
    ensures Without(s[..i + 1], plural)
         == Without(s[..i], plural) + if Belongs(s[i].name, plural) then [] else [s[i]]
  {
    assert s[..i + 1] == s[..i] + [s[i]];
    WithoutAppend(s[..i], s[i], plural);
  }

  lemma SlashInside(p: string, name: string)
    requires p + "/" <= name
    ensures !Free(name, '/')
    ensures name == p + ['/'] + name[|p| + 1..]
  {
    assert name[|p|] == '/';
  }

  lemma ScaleBelongsToItsPlural(p: string, q: string)
    requires Free(p, '/') && Free(q, '/')
    requires p + "/" <= ScaleName(q)
    ensures p == q
  {
    var name := ScaleName(q);
    SlashInside(p, name);
    assert name == q + ['/'] + "scale";
    SplitOnce(p, name[|p| + 1..], q, "scale", '/');
  }

  /** A slash-free plural's removal leaves every other slash-free plural's entries alone. */
  lemma BelongsToOne(name: string, p: string, q: string)
    requires Free(p, '/') && Free(q, '/') && p != q
    requires name == q || name == ScaleName(q)
    ensures !Belongs(name, p)
  {
    ScaleNameApart(p, q);
    if p + "/" <= name {
      if name == q {
        SlashInside(p, name);
      } else {
        ScaleBelongsToItsPlural(p, q);
      }
    }
  }

  /** A scale entry never goes by a slash-free plural's own name. */
  lemma ScaleNameApart(p: string, q: string)
    requires Free(p, '/')
    ensures ScaleName(q) != p
    ensures ScaleName(p) == ScaleName(q) ==> p == q
  {
    assert ScaleName(q)[|q|] == '/';
    if ScaleName(p) == ScaleName(q) {
      assert |p| == |q|;
      assert p == ScaleName(p)[..|p|];
      assert q == ScaleName(q)[..|q|];
    }
  }

  function Updated(s: Slice, spec: Spec): Slice {
    var main := Upsert(s, MainEntry(spec));
    if ListsScale(spec) then Upsert(main, ScaleEntry(spec)) else main
  }

  // ---------------------------------------------------------------- the handler

  class VersionDiscoveryHandler {
    const nonCrd: Slice
    var listed: Slice

    constructor (nonCrd: Slice)
      ensures this.nonCrd == nonCrd && listed == []
    {
      this.nonCrd, listed := nonCrd, [];
    }

    /** updateCRDAPIResource: search, then overwrite or append. */
    method UpdateCRDAPIResource(apiResource: ApiResource)
      modifies this
      ensures listed == Upsert(old(listed), apiResource.(categories := [CATEGORY]))
    {
      var r := apiResource.(categories := [CATEGORY]);
      var i := 0;
      while i < |listed| && listed[i].name != r.name
        invariant 0 <= i <= |listed|
        invariant Upsert(listed, r) == listed[..i] + Upsert(listed[i..], r)
      {
        assert listed[i..][1..] == listed[i + 1..];
        i := i + 1;
      }
      if i == |listed| {
        assert listed[..i] == listed && listed[i..] == [];
        listed := listed + [r];
      } else {
        assert listed[i := r] == listed[..i] + ([r] + listed[i..][1..]);
        listed := listed[i := r];
      }
    }

    /** updateCRD: the main entry, and the scale entry when the stored and served version has scale. */
    method UpdateCRD(spec: Spec)
      modifies this
      ensures listed == Updated(old(listed), spec)
    {
      var servedVersion := "";
      var subResourceScale := false;
      var i := 0;
      while i < |spec.versions|
        invariant 0 <= i <= |spec.versions|
        invariant servedVersion == "" && !subResourceScale
        invariant StoredServed(spec.versions) == StoredServed(spec.versions[i..])
      {
        var version := spec.versions[i];
        if version.storage && version.served {
          servedVersion := version.name;
          subResourceScale := version.scale;
          break;
        }
        assert spec.versions[i..][1..] == spec.versions[i + 1..];
        i := i + 1;
      }
      var apiResource := ApiResource(spec.plural, spec.singular, spec.scope.NamespaceScoped?, "", "", spec.kind, VERBS,
                                     spec.shortNames, [], HashOf(spec.group, servedVersion, spec.kind));
      UpdateCRDAPIResource(apiResource);
      if subResourceScale {
        UpdateCRDAPIResource(apiResource.(name := ScaleName(apiResource.name), group := "autoscaling", version := "v1",
                                          kind := "Scale", verbs := SCALE_VERBS, hash := NoHash));
      }
    }

    method RemoveCRD(plural: string)
      modifies this
      ensures listed == Without(old(listed), plural)
    {
      var kept := [];
      for i := 0 to |listed|
        invariant listed == old(listed)
        invariant kept == Without(listed[..i], plural)
      {
        WithoutNext(listed, i, plural);
        if listed[i].name != plural && !(plural + "/" <= listed[i].name) {
          kept := kept + [listed[i]];
        }
      }
      assert listed[..|listed|] == listed;
      listed := kept;
    }

    method ListAPIResources() returns (r: Slice)
      ensures r == nonCrd + listed
    {
      r := nonCrd + listed;
    }
  }

  // ---------------------------------------------------------------- sequences of operations

  datatype Change = Put(spec: Spec) | Drop(plural: string)

  function Evolve(s: Slice, changes: seq<Change>): Slice {
    if changes == [] then s
    else
      var before := Evolve(s, changes[..|changes| - 1]);
      match changes[|changes| - 1]
      case Put(spec) => Updated(before, spec)
      case Drop(plural) => Without(before, plural)
  }

  /** The reference: an unordered map from names to entries. */
  function Fold(changes: seq<Change>): map<string, ApiResource> {
    if changes == [] then map[]
    else
      var before := Fold(changes[..|changes| - 1]);
      match changes[|changes| - 1]
      case Put(spec) =>
        var main := before[spec.plural := MainEntry(spec)];
        if ListsScale(spec) then main[ScaleName(spec.plural) := ScaleEntry(spec)] else main
      case Drop(plural) => map name | name in before && !Belongs(name, plural) :: before[name]
  }

  ghost predicate SlashFree(changes: seq<Change>) {
    forall i | 0 <= i < |changes| ::
      Free(if changes[i].Put? then changes[i].spec.plural else changes[i].plural, '/')
  }

  /** The slice represents the map: unique names, and each name's entry. */
  ghost predicate Represents(s: Slice, m: map<string, ApiResource>) {
    Unique(s) && forall name :: Lookup(s, name) == if name in m then Some(m[name]) else None
  }

  /** Every listed scale entry has its plural's own entry. */
  ghost predicate ScaleHasMain(m: map<string, ApiResource>) {
    forall plural: string | Free(plural, '/') && ScaleName(plural) in m :: plural in m
  }

  lemma UpdatedIsMapUpdate(s: Slice, spec: Spec, name: string)
    ensures Unique(s) ==> Unique(Updated(s, spec))
    ensures Lookup(Updated(s, spec), name)
         == if ListsScale(spec) && name == ScaleName(spec.plural) then Some(ScaleEntry(spec))
            else if name == spec.plural then Some(MainEntry(spec))
            else Lookup(s, name)
  {
    var main := Upsert(s, MainEntry(spec));
    UpsertIsMapUpdate(s, MainEntry(spec), name);
    UpsertIsMapUpdate(main, ScaleEntry(spec), name);
  }

  /** The slice refines the map over every sequence of updates and removals, and scale never outlives its plural. */
  lemma {:induction false} SliceRefinesMap(changes: seq<Change>)
    requires SlashFree(changes)
    ensures Represents(Evolve([], changes), Fold(changes))
    ensures ScaleHasMain(Fold(changes))
  {
    if changes != [] {
      var before, last := changes[..|changes| - 1], changes[|changes| - 1];
      SliceRefinesMap(before);
      var s, m := Evolve([], before), Fold(before);
      match last {
        case Put(spec) =>
          forall name
            ensures Lookup(Evolve([], changes), name)
                 == if name in Fold(changes) then Some(Fold(changes)[name]) else None
            ensures Unique(Evolve([], changes))
          {
            UpdatedIsMapUpdate(s, spec, name);
          }
          forall plural: string | Free(plural, '/') && ScaleName(plural) in Fold(changes)
            ensures plural in Fold(changes)
          {
            ScaleNameApart(plural, spec.plural);
            ScaleNameApart(spec.plural, plural);
          }
        case Drop(p) =>
          forall name
            ensures Lookup(Evolve([], changes), name)
                 == if name in Fold(changes) then Some(Fold(changes)[name]) else None
            ensures Unique(Evolve([], changes))
          {
            WithoutIsMapRemoval(s, p, name);
          }
          forall plural: string | Free(plural, '/') && ScaleName(plural) in Fold(changes)
            ensures plural in Fold(changes)
          {
            if plural != p {
              BelongsToOne(plural, p, plural);
            }
          }
      }
    }
  }
}
