/**
 What is registered, said in the words of the definitions that the informer delivered: the storage,
 the request scope and the discovery entries of a plural, and which definition they come from.
 */
module RegisteredDefinitions {
  import opened Wrappers
  import opened Strings
  import opened Json
  import opened Manifests
  import opened TenantStore
  import opened TenantRuns
  import opened Priority
  import opened Discovery
  import opened Routes
  import opened Registration

  // ---------------------------------------------------------------- which version, which event

  /** The groups skipped are those that end in the server's own suffix. */
  lemma SkippedExactly(spec: Spec)
    ensures Skipped(spec) <==> exists p: string :: spec.group == p + ".jijiechen.com"
  {
    var n := |SKIPPED_SUFFIX|;
    if Skipped(spec) {
      assert spec.group == spec.group[..|spec.group| - n] + ".jijiechen.com";
    }
    forall p: string | spec.group == p + ".jijiechen.com"
      ensures Skipped(spec)
    {
      assert spec.group[|p|..] == SKIPPED_SUFFIX;
    }
  }

  /** `v` is the first version marked as stored. */
  predicate FirstStored(versions: seq<Version>, v: Version) {
    exists i | 0 <= i < |versions| :: versions[i] == v && v.storage && forall k | 0 <= k < i :: !versions[k].storage
  }

  lemma {:induction false} StorageVersionExactly(versions: seq<Version>, v: Version)
    ensures StorageVersion(versions) == Some(v) <==> FirstStored(versions, v)
  {
    if versions != [] && !versions[0].storage {
      var rest := versions[1..];
      StorageVersionExactly(rest, v);
      if FirstStored(rest, v) {
        var i :| 0 <= i < |rest| && rest[i] == v && v.storage && forall k | 0 <= k < i :: !rest[k].storage;
        assert versions[i + 1] == v && forall k | 0 < k < i + 1 :: versions[k] == rest[k - 1];
      }
      if FirstStored(versions, v) {
        var i :| 0 <= i < |versions| && versions[i] == v && v.storage && forall k | 0 <= k < i :: !versions[k].storage;
        assert rest[i - 1] == v && forall k | 0 <= k < i - 1 :: rest[k] == versions[k + 1];
      }
    }
  }

  /** A definition is registered with its first stored version, if that is served and the definition stays. */
  lemma RegistrableExactly(crd: Crd, v: Version)
    requires DistinctVersions(crd.spec.versions)
    ensures RegistrableVersion(crd) == Some(v) <==> !crd.terminating && v.served && FirstStored(crd.spec.versions, v)
  {
    StorageVersionExactly(crd.spec.versions, v);
    NamedIsSelf(crd.spec.versions);
  }

  /** An add goes ahead unless the APIService of the version and group is known and a larger priority stands;
      the priority of a known APIService is then noted. */
  lemma AddedExactly(h: Handler, crd: Crd, services: ApiServices, v: Version)
    requires RegistrableVersion(crd) == Some(v)
    ensures var service, p := v.name + "." + crd.spec.group, crd.spec.plural;
      var h' := AddStorage(h, crd, services);
      if service in services && p in h.entries && h.entries[p].minimum > services[service] then h' == h
      else
        && p in h'.storages && p in h'.scopes
        && h'.entries
           == if service in services then h.entries[p := GroupPriority(service, services[service])] else h.entries
  {
  }

  /** An event that the handlers do not act upon. */
  predicate Ignored(e: Event) {
    !e.Deleted? && (Skipped(e.crd.spec) || (e.Updated? && (e.crd.terminating || e.prior.spec == e.crd.spec)))
  }

  /** A larger priority than that of the version's APIService stands for the plural. */
  predicate StandsAgainst(h: Handler, crd: Crd, services: ApiServices, v: Version) {
    var service, p := v.name + "." + crd.spec.group, crd.spec.plural;
    service in services && p in h.entries && h.entries[p].minimum > services[service]
  }

  /** What an event does to the stored plurals: nothing if it is ignored; a delete takes its plural out; any other
      leaves its plural stored exactly if the definition stays, its first stored version is served, and no larger
      priority stands against it. No other plural is touched. */
  lemma EventEffect(h: Handler, e: Event, v: Version)
    requires DistinctVersions(e.crd.spec.versions)
    requires if e.Added? then e.crd.spec.plural !in h.storages
             else e.Updated? ==> e.prior.spec.plural == e.crd.spec.plural
    ensures Ignored(e) ==> Handle(h, e) == h
    ensures e.Deleted? ==> e.crd.spec.plural !in Handle(h, e).storages
    ensures !Ignored(e) && !e.Deleted? && FirstStored(e.crd.spec.versions, v) ==>
      (e.crd.spec.plural in Handle(h, e).storages
       <==> !e.crd.terminating && v.served && !StandsAgainst(h, e.crd, e.services, v))
    ensures !Ignored(e) && !e.Deleted? && (forall w :: !FirstStored(e.crd.spec.versions, w)) ==>
      e.crd.spec.plural !in Handle(h, e).storages
    ensures Handle(h, e).storages - {e.crd.spec.plural} == h.storages - {e.crd.spec.plural}
  {
    if !Ignored(e) && !e.Deleted? {
      var before := if e.Added? then h else RemoveStorage(h, e.prior.spec);
      RegistrableExactly(e.crd, v);
      match RegistrableVersion(e.crd) {
        case Some(w) =>
          RegistrableExactly(e.crd, w);
          AddedExactly(before, e.crd, e.services, w);
        case None =>
      }
    }
  }

  /** The last event about the plural that was acted upon delivered this definition, with this version registrable. */
  ghost predicate Delivered(es: seq<Event>, name: string, d: Registered) {
    exists i | 0 <= i < |es| :: DeliveredAt(es, i, name, d)
  }

  ghost predicate DeliveredAt(es: seq<Event>, i: int, name: string, d: Registered) {
    && 0 <= i < |es| && !es[i].Deleted? && !Ignored(es[i])
    && es[i].crd.spec == d.spec && d.spec.plural == name && RegistrableVersion(es[i].crd) == Some(d.version)
    && forall k | i < k < |es| && es[k].crd.spec.plural == name :: Ignored(es[k])
  }

  lemma DeliveredBefore(es: seq<Event>, name: string, d: Registered)
    requires es != [] && Delivered(es[..|es| - 1], name, d)
    requires es[|es| - 1].crd.spec.plural == name ==> Ignored(es[|es| - 1])
    ensures Delivered(es, name, d)
  {
    var before := es[..|es| - 1];
    var i :| 0 <= i < |before| && DeliveredAt(before, i, name, d);
    assert forall k | 0 <= k < |before| :: es[k] == before[k];
    assert DeliveredAt(es, i, name, d);
  }

  /** Every definition in the ledger is the one that the history delivered last. */
  lemma {:induction false} LiveIsDelivered(u: Plurals, l: Ledger, es: seq<Event>, name: string)
    requires l.live == map[] && GoodHistory(u, es) && name in PostAll(l, es).live
    ensures Delivered(es, name, PostAll(l, es).live[name])
  {
    if es != [] {
      var before, e := es[..|es| - 1], es[|es| - 1];
      var m := PostAll(l, before);
      var d := PostAll(l, es).live[name];
      GoodBefore(u, es);
      LiveWithinKnown(u, l, before);
      if e.crd.spec.plural == name && !Ignored(e) {
        assert DeliveredAt(es, |es| - 1, name, d);
      } else {
        LiveIsDelivered(u, l, before, name);
        DeliveredBefore(es, name, d);
      }
    }
  }

  // ---------------------------------------------------------------- storage and scope

  /** Storage and scope are those of the definition and version: names, kind, group, version, short names, whether
      there are namespaces, which subresources there are, and where self links start. */
  ghost predicate ServesDefinition(name: string, storage: Storage, scope: RequestScope, d: Registered) {
    && storage.rest.name == name == scope.resource
    && storage.rest.kind == scope.kind == d.spec.kind
    && storage.rest.group == scope.group == d.spec.group
    && storage.rest.version == scope.version == d.version.name
    && storage.shortNames == d.spec.shortNames
    && (storage.rest.namespaced <==> d.spec.scope == NamespaceScoped)
    && (scope.clusterScoped <==> d.spec.scope == ClusterScoped)
    && scope.statusKind == d.version.status && scope.scaleKind == d.version.scale
    && scope.selfLinkPrefix
       == if d.spec.scope == ClusterScoped then "/apis/overlay/v1alpha1/" + name + "/"
          else "/apis/overlay/v1alpha1/namespaces/"
  }

  lemma MadeFromDefinition(name: string, d: Registered)
    requires d.spec.plural == name
    ensures ServesDefinition(name, StorageOf(d.spec, d.version), ScopeOf(d.spec, d.version), d)
  {
    assert ROOT + NAMESPACES + "/" == "/apis/overlay/v1alpha1/namespaces/";
    assert ROOT + (NAMESPACES) + "/" == ROOT + NAMESPACES + "/";
  }

  /** After every well-formed history, a plural is stored iff it is registered, and then storage and scope are those of
      the definition that the last event acted upon delivered. */
  lemma StoredAsDefined(u: Plurals, h: Handler, es: seq<Event>, name: string)
    requires Slashless(u) && Fresh(u, h) && GoodHistory(u, es)
    ensures var h', live := HandleAll(h, es), PostAll(Ledger(map[], h.entries, h.routes), es).live;
      && (name in h'.storages <==> name in live) && (name in h'.scopes <==> name in live)
      && (name in live ==>
            Delivered(es, name, live[name]) && ServesDefinition(name, h'.storages[name], h'.scopes[name], live[name]))
  {
    RegistrationRefinesLedger(u, h, es);
    var l := Ledger(map[], h.entries, h.routes);
    if name in PostAll(l, es).live {
      LiveIsDelivered(u, l, es, name);
      MadeFromDefinition(name, PostAll(l, es).live[name]);
    }
  }

  /** So a create through the storage of a namespaced definition stores the object in the caller's namespace. */
  lemma CreateThroughRegistered(u: Plurals, h: Handler, es: seq<Event>, name: string,
                                s: Store, req: Request, obj: Option<Json>, dryRun: DryRun, birth: Birth)
    requires Slashless(u) && Fresh(u, h) && GoodHistory(u, es)
    requires var live := PostAll(Ledger(map[], h.entries, h.routes), es).live;
      name in live && live[name].spec.scope == NamespaceScoped && live[name].spec.kind != "Namespace"
    requires name in HandleAll(h, es).storages
    requires var rest := HandleAll(h, es).storages[name].rest;
      && CreateOutcome(s, rest, req, obj, dryRun, birth).0 != s
      && Settable(dryRun(DryRunBody(rest, obj.value)).value)
    ensures var rest := HandleAll(h, es).storages[name].rest;
      var s' := CreateOutcome(s, rest, req, obj, dryRun, birth).0;
      exists key | key in s'.records && key !in s.records ::
        && GetNamespace(s'.records[key].manifest) == req.namespace
        && Labelled(s'.records[key].labels, PostAll(Ledger(map[], h.entries, h.routes), es).live[name].spec.kind,
                    Tenant(GetUser(req).value, req.namespace), GetName(s'.records[key].manifest))
  {
    StoredAsDefined(u, h, es, name);
    StoredInNamespace(s, HandleAll(h, es).storages[name].rest, req, obj, dryRun, birth);
  }

  lemma StoredInNamespace(s: Store, rest: Rest, req: Request, obj: Option<Json>, dryRun: DryRun, birth: Birth)
    requires rest.namespaced && rest.kind != "Namespace"
    requires CreateOutcome(s, rest, req, obj, dryRun, birth).0 != s
    requires Settable(dryRun(DryRunBody(rest, obj.value)).value)
    ensures var s' := CreateOutcome(s, rest, req, obj, dryRun, birth).0;
      exists key | key in s'.records && key !in s.records ::
        && GetNamespace(s'.records[key].manifest) == req.namespace
        && Labelled(s'.records[key].labels, rest.kind, Tenant(GetUser(req).value, req.namespace),
                    GetName(s'.records[key].manifest))
  {
    CreateTouches(s, rest, req, obj, dryRun, birth);
    CreatedNamespace(rest, req, obj, dryRun);
    var actual := DryRunCreate(rest, req, obj, dryRun).value;
    SystemLabelsWin(rest, GetUser(req).value, map[], actual);
    var key := Key(rest.Resource(), GetUser(req).value, GetNamespace(actual), GetName(actual));
    assert key in CreateOutcome(s, rest, req, obj, dryRun, birth).0.records && key !in s.records;
  }

  // ---------------------------------------------------------------- discovery

  /** The discovery entry of a definition. */
  ghost predicate DescribesDefinition(x: ApiResource, d: Registered) {
    && x.name == d.spec.plural && x.singular == d.spec.singular && x.kind == d.spec.kind
    && (x.namespaced <==> d.spec.scope == NamespaceScoped)
    && x.group == "" && x.version == "" && x.shortNames == d.spec.shortNames && x.categories == ["external-crd"]
    && x.verbs == ["delete", "deletecollection", "get", "list", "patch", "create", "update", "watch"]
    && x.hash == HashOf(d.spec.group, d.version.name, d.spec.kind)
  }

  /** The entry of its scale subresource. */
  ghost predicate DescribesScale(x: ApiResource, d: Registered) {
    && x.name == d.spec.plural + "/scale" && x.singular == d.spec.singular && x.kind == "Scale"
    && (x.namespaced <==> d.spec.scope == NamespaceScoped)
    && x.group == "autoscaling" && x.version == "v1" && x.shortNames == d.spec.shortNames
    && x.categories == ["external-crd"] && x.verbs == ["get", "patch", "update"] && x.hash == NoHash
  }

  /** After every well-formed history discovery describes the registered definitions, and their scale subresources
      where the registered version has one, field by field. */
  lemma ListedAsDefined(u: Plurals, h: Handler, es: seq<Event>, name: string)
    requires Slashless(u) && Fresh(u, h) && GoodHistory(u, es)
    ensures var listed, live := HandleAll(h, es).listed, PostAll(Ledger(map[], h.entries, h.routes), es).live;
      name in live ==>
        && Free(name, '/')
        && Lookup(listed, name).Some? && DescribesDefinition(Lookup(listed, name).value, live[name])
        && (Lookup(listed, name + "/scale").Some? <==> live[name].version.scale)
        && (live[name].version.scale ==> DescribesScale(Lookup(listed, name + "/scale").value, live[name]))
  {
    RegistrationRefinesLedger(u, h, es);
    var listed, live := HandleAll(h, es).listed, PostAll(Ledger(map[], h.entries, h.routes), es).live;
    if name in live {
      assert GoodSpec(u, live[name].spec) && Free(name, '/');
      ExpectedNames(u, live, name);
      assert Lookup(listed, name) == Expected(live, name);
      assert Lookup(listed, ScaleName(name)) == Expected(live, ScaleName(name));
      EntriesDescribe(live[name]);
      if live[name].version.scale {
        ScaleExpected(u, live, name);
      }
    }
  }

  lemma EntriesDescribe(d: Registered)
    requires StoredServed(d.spec.versions) == Some(d.version)
    ensures DescribesDefinition(MainEntry(d.spec), d) && DescribesScale(ScaleEntry(d.spec), d)
  {
  }

  lemma ScaleExpected(u: Plurals, live: Live, name: string)
    requires Slashless(u) && GoodLive(u, live) && name in live && Free(name, '/') && live[name].version.scale
    ensures Expected(live, ScaleName(name)) == Some(ScaleEntry(live[name].spec))
  {
    ScaleNameCut(name);
    if ScaleName(name) in live {
      ScaleNameApart(ScaleName(name), name);
    }
  }
}
