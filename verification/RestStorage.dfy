/**
 The REST storage as the server runs it: selector maps filled in place, loops over selector and
 field selectors and over listed records, and calls to the API server that holds the store.
 */
module RestStorage {
  import opened Wrappers
  import opened Json
  import opened Manifests
  import opened TenantStore

  /** The API server behind the generated client, for the reserved namespace. */
  class ManifestServer {
    var store: Store

    constructor (initial: Store)
      ensures store == initial
    {
      store := initial;
    }

    method Create(key: string, labels: Labels, manifest: Json, birth: Birth) returns (r: Result<Record>)
      modifies this
      ensures (store, r) == ApiCreate(old(store), key, labels, manifest, birth)
    {
      var outcome := ApiCreate(store, key, labels, manifest, birth);
      store, r := outcome.0, outcome.1;
    }

    method Update(key: string, record: Record) returns (r: Result<Record>)
      modifies this
      ensures (store, r) == ApiUpdate(old(store), key, record)
    {
      var outcome := ApiUpdate(store, key, record);
      store, r := outcome.0, outcome.1;
    }

    method Delete(key: string) returns (r: Result<()>)
      modifies this
      ensures (store, r) == ApiDelete(old(store), key)
    {
      var outcome := ApiDelete(store, key);
      store, r := outcome.0, outcome.1;
    }

    /** The selected records, each once, in an order the server chooses. */
    method List(reqs: seq<Requirement>) returns (keys: seq<string>)
      ensures Enumerates(keys, SelectedKeys(store, reqs))
    {
      keys := [];
      var todo := SelectedKeys(store, reqs);
      while todo != {}
        invariant forall i, k | 0 <= i < k < |keys| :: keys[i] != keys[k]
        invariant forall i | 0 <= i < |keys| :: keys[i] in SelectedKeys(store, reqs)
        invariant forall k | k in SelectedKeys(store, reqs) :: k in keys || k in todo
        invariant todo <= SelectedKeys(store, reqs) && forall k | k in todo :: k !in keys
        decreases |todo|
      {
        var key :| key in todo;
        keys, todo := keys + [key], todo - {key};
      }
    }
  }

  class REST {
    const rest: Rest
    const server: ManifestServer
    /** What the lister last saw; it may lag behind the server. */
    var cache: Store

    constructor (rest: Rest, server: ManifestServer, cache: Store)
      ensures this.rest == rest && this.server == server && this.cache == cache
    {
      this.rest, this.server, this.cache := rest, server, cache;
    }

    method Create(req: Request, obj: Option<Json>, dryRun: DryRun, birth: Birth) returns (r: Result<Json>)
      modifies server
      ensures (server.store, r) == CreateOutcome(old(server.store), rest, req, obj, dryRun, birth)
    {
      var user := GetUser(req);
      if user.Err? {
        return Err(user.error);
      }
      var actual := DryRunRequest(req, obj, dryRun);
      if actual.Err? {
        return Err(actual.error);
      }
      var u := actual.value;
      var labels := StampCreated(user.value, u);
      var key := Key(rest.Resource(), user.value, GetNamespace(u), GetName(u));
      var created := server.Create(key, labels, u, birth);
      if created.Err? {
        return Err(created.error);
      }
      r := TransformManifest(created.value.envelope, created.value.manifest);
    }

    /** The labels of a new record: the object's own map, overwritten entry by entry. */
    method StampCreated(cluster: string, u: Json) returns (labels: Labels)
      ensures labels == StampedOnCreate(rest, cluster, u)
    {
      labels := GetLabels(u);
      labels := labels[GROUP_LABEL := rest.group];
      labels := labels[VERSION_LABEL := rest.version];
      labels := labels[KIND_LABEL := rest.kind];
      labels := labels[NAME_LABEL := GetName(u)];
      labels := labels[CLUSTER_LABEL := cluster];
      labels := labels[NAMESPACE_LABEL := GetNamespace(u)];
      SixEntries(GetLabels(u), [GROUP_LABEL, VERSION_LABEL, KIND_LABEL, NAME_LABEL, CLUSTER_LABEL, NAMESPACE_LABEL],
                 [rest.group, rest.version, rest.kind, GetName(u), cluster, GetNamespace(u)]);
    }

    /** The labels of an updated record: the old map, the object's labels, then the system's. */
    method StampUpdated(cluster: string, prior: Labels, u: Json) returns (labels: Labels)
      ensures labels == StampedOnUpdate(rest, cluster, prior, u)
    {
      labels := CopyLabels(prior, GetLabels(u));
      ghost var copied := labels;
      labels := labels[GROUP_LABEL := rest.group];
      labels := labels[VERSION_LABEL := rest.version];
      if rest.kind != "Scale" {
        labels := labels[KIND_LABEL := rest.kind];
      }
      labels := labels[NAME_LABEL := GetName(u)];
      labels := labels[NAMESPACE_LABEL := GetNamespace(u)];
      labels := labels[CLUSTER_LABEL := cluster];
      LabelsDistinct();
      UpdatedEntries(copied,
                     [GROUP_LABEL, VERSION_LABEL, KIND_LABEL, NAME_LABEL, CLUSTER_LABEL, NAMESPACE_LABEL],
                     [rest.group, rest.version, rest.kind, GetName(u), cluster, GetNamespace(u)]);
    }

    static lemma SixEntries(m: Labels, k: seq<string>, v: seq<string>)
      requires |k| == |v| == 6
      ensures m[k[0] := v[0]][k[1] := v[1]][k[2] := v[2]][k[3] := v[3]][k[4] := v[4]][k[5] := v[5]]
           == m + map[k[0] := v[0], k[1] := v[1], k[2] := v[2], k[3] := v[3], k[4] := v[4], k[5] := v[5]]
    {
    }

    static lemma UpdatedEntries(m: Labels, k: seq<string>, v: seq<string>)
      requires |k| == |v| == 6
      requires forall i, j | 0 <= i < j < 6 :: k[i] != k[j]
      ensures var all := map[k[0] := v[0], k[1] := v[1], k[2] := v[2], k[3] := v[3], k[4] := v[4], k[5] := v[5]];
        var base := m[k[0] := v[0]][k[1] := v[1]];
        && base[k[2] := v[2]][k[3] := v[3]][k[5] := v[5]][k[4] := v[4]] == m + all
        && base[k[3] := v[3]][k[5] := v[5]][k[4] := v[4]] == m + (all - {k[2]})
    {
    }

    /** dryRunCreate. */
    method DryRunRequest(req: Request, obj: Option<Json>, dryRun: DryRun) returns (r: Result<Json>)
      ensures r == DryRunCreate(rest, req, obj, dryRun)
    {
      if obj.None? {
        return Err(BadRequest);
      }
      var u := obj.value;
      if (rest.namespaced || rest.kind == "Namespace") && !IsDnsLabel(req.namespace) {
        return Err(Invalid);
      }
      var labels := GetLabels(u);
      labels := labels[CREATED_BY_LABEL := APP_NAME];
      u := SetLabels(u, labels);
      if rest.kind != "Namespace" && rest.namespaced {
        u := SetNamespace(u, RESERVED_NAMESPACE);
      }
      var answer := dryRun(u);
      if answer.Err? {
        return answer;
      }
      var result := answer.value;
      if rest.kind != "Namespace" && rest.namespaced {
        result := SetNamespace(result, req.namespace);
      }
      result := TrimResult(result);
      r := Ok(result);
    }

    method Get(req: Request, name: string, live: bool) returns (r: Result<Json>)
      ensures r == GetOutcome(if live then server.store else cache, rest, req, name)
    {
      var user := GetUser(req);
      if user.Err? {
        return Err(user.error);
      }
      var source := if live then server.store else cache;
      var key := Key(rest.Resource(), user.value, req.namespace, name);
      if key !in source.records {
        return Err(NotFound);
      }
      r := TransformManifest(source.records[key].envelope, source.records[key].manifest);
    }

    method Update(req: Request, name: string, f: Change) returns (r: Result<Json>)
      modifies server
      ensures (server.store, r) == UpdateOutcome(old(server.store), cache, rest, req, name, f)
    {
      var read := UpdateRead(cache, rest, req, name);
      if read.Err? {
        return Err(read.error);
      }
      var (cluster, key, manifest) := read.value;
      var oldObj := Decode(manifest.manifest);
      if oldObj.Err? {
        return oldObj;
      }
      var newObj := f(oldObj.value);
      if newObj.Err? {
        return newObj;
      }
      var result := TrimResult(newObj.value);
      var labels := StampUpdated(cluster, manifest.labels, result);
      var updated := server.Update(key, manifest.(labels := labels, manifest := result));
      if updated.Err? {
        return Err(updated.error);
      }
      r := TransformManifest(updated.value.envelope, updated.value.manifest);
    }

    /** Ranges over a selector map, in any order, overwriting the copy's entries. */
    static method CopyLabels(onto: Labels, from: Labels) returns (labels: Labels)
      ensures labels == onto + from
    {
      labels := onto;
      var todo := from.Keys;
      while todo != {}
        invariant todo <= from.Keys
        invariant labels == onto + (map k | k in from && k !in todo :: from[k])
        decreases |todo|
      {
        var k :| k in todo;
        labels, todo := labels[k := from[k]], todo - {k};
      }
    }

    method Delete(req: Request, name: string) returns (r: Result<()>)
      modifies server
      ensures (server.store, r) == DeleteOutcome(old(server.store), rest, req, name)
    {
      var user := GetUser(req);
      if user.Err? {
        return Err(user.error);
      }
      r := server.Delete(Key(rest.Resource(), user.value, req.namespace, name));
    }

    /** The field-selector loop of convertListOptionsToLabels. */
    method ConvertFieldTerms(terms: seq<FieldTerm>) returns (r: Result<seq<Requirement>>)
      ensures r.Ok? <==> forall i | 0 <= i < |terms| :: UsableTerm(terms[i])
      ensures r.Ok? ==> r.value == FieldRequirements(terms)
      ensures r.Err? ==> exists i | 0 <= i < |terms| ::
        && !UsableTerm(terms[i]) && (forall k | 0 <= k < i :: UsableTerm(terms[k]))
        && r.error == if terms[i].field != "metadata.name" then Internal else Invalid
    {
      var selector := [];
      for i := 0 to |terms|
        invariant forall k | 0 <= k < i :: UsableTerm(terms[k])
        invariant selector == FieldRequirements(terms)[..i]
      {
        if terms[i].field != "metadata.name" {
          return Err(Internal);
        }
        if !(terms[i].op in {Equals, NotEquals} && ValidLabelValue(terms[i].value)) {
          return Err(Invalid);
        }
        selector := selector + [Requirement(NAME_LABEL, terms[i].op, {terms[i].value})];
      }
      r := Ok(selector);
    }

    /** convertListOptionsToLabels: fails on the first term it cannot express, otherwise the full selector. */
    method ConvertListOptions(req: Request, options: ListOptions) returns (r: Result<seq<Requirement>>)
      ensures GetUser(req).Err? ==> r == Err(GetUser(req).error)
      ensures GetUser(req).Ok? ==>
        var t := Tenant(GetUser(req).value, req.namespace);
        && (r.Ok? <==> Convertible(rest, t, options))
        && (r.Ok? ==> r.value == Selector(rest, t, options))
    {
      var user := GetUser(req);
      if user.Err? {
        return Err(user.error);
      }
      var selector := if options.labels.Some? then options.labels.value else [];
      if options.fields.Some? {
        var fields := ConvertFieldTerms(options.fields.value);
        if fields.Err? {
          return Err(fields.error);
        }
        selector := selector + fields.value;
      }
      if !(ValidLabelValue(rest.kind) && ValidLabelValue(req.namespace) && ValidLabelValue(user.value)) {
        return Err(Invalid);
      }
      ghost var asked := selector;
      selector := selector + [Requirement(KIND_LABEL, Equals, {rest.kind})];
      selector := selector + [Requirement(NAMESPACE_LABEL, Equals, {req.namespace})];
      selector := selector + [Requirement(CLUSTER_LABEL, Equals, {user.value})];
      assert selector == asked + OwnerRequirements(rest, Tenant(user.value, req.namespace));
      r := Ok(selector);
    }

    /** List: every selected record once, as a client sees it. It succeeds exactly when the options convert
        and every selected record decodes; one that does not fails the whole list. */
    method List(req: Request, options: ListOptions) returns (r: Result<seq<Json>>, keys: seq<string>)
      ensures GetUser(req).Err? ==> r == Err(GetUser(req).error)
      ensures GetUser(req).Ok? ==>
        var t := Tenant(GetUser(req).value, req.namespace);
        r.Ok? <==>
          && Convertible(rest, t, options)
          && forall k | k in SelectedKeys(server.store, Selector(rest, t, options)) :: View(server.store.records[k]).Ok?
      ensures r.Ok? ==>
        && GetUser(req).Ok?
        && var reqs := Selector(rest, Tenant(GetUser(req).value, req.namespace), options);
           && Enumerates(keys, SelectedKeys(server.store, reqs))
           && |r.value| == |keys|
           && forall i | 0 <= i < |keys| :: View(server.store.records[keys[i]]) == Ok(r.value[i])
    {
      keys := [];
      var selector := ConvertListOptions(req, options);
      if selector.Err? {
        return Err(selector.error), [];
      }
      keys := server.List(selector.value);
      var items := [];
      for i := 0 to |keys|
        invariant |items| == i
        invariant forall k | 0 <= k < i :: View(server.store.records[keys[k]]) == Ok(items[k])
      {
        var manifest := server.store.records[keys[i]];
        var obj := TransformManifest(manifest.envelope, manifest.manifest);
        if obj.Err? {
          return Err(obj.error), [];
        }
        items := items + [obj.value];
      }
      r := Ok(items);
    }
  }
}
