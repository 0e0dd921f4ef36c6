/**
 DeleteCollection end to end: list, turn every listed object into a key, run the worker pool.
 The record invariant, key injectivity, the selector and the pool together give the final store.
 */
module CollectionDelete {
  import opened Wrappers
  import opened Strings
  import opened Json
  import opened Manifests
  import opened TenantStore
  import opened TenantRuns
  import opened WorkerPool

  // ---------------------------------------------------------------- what a pool does to the records

  /** Records only disappear, each through an item's key; an answered, unbroken delete left its key absent. */
  ghost predicate Tracks(job: Job, before: Records, s: State) {
    && s.records.Keys <= before.Keys
    && (forall k | k in s.records :: s.records[k] == before[k])
    && (forall k | k in before && k !in s.records :: Some(k) in job.items)
    && (forall j | 0 <= j < |s.log| ::
          var i := s.log[j].index;
          i < job.N() && (!s.log[j].answer.Broken? ==> job.items[i].Some? && job.items[i].value !in s.records))
  }

  lemma {:induction false} TracksAlways(job: Job, before: Records, acts: seq<Action>)
    requires Execute(job, Start(job, before), acts).Some?
    ensures Tracks(job, before, Execute(job, Start(job, before), acts).value)
  {
    if acts != [] {
      var rest := acts[..|acts| - 1];
      TracksAlways(job, before, rest);
      TracksStep(job, before, Execute(job, Start(job, before), rest).value, acts[|acts| - 1]);
    }
  }

  lemma TracksStep(job: Job, before: Records, s: State, a: Action)
    requires Tracks(job, before, s) && Enabled(job, s, a)
    ensures Tracks(job, before, Apply(job, s, a))
  {
  }

  lemma {:induction false} AttemptOf(log: seq<Attempt>, i: nat) returns (j: nat)
    requires Attempts(log, i) > 0
    ensures j < |log| && log[j].index == i
  {
    if log[|log| - 1].index == i {
      j := |log| - 1;
    } else {
      j := AttemptOf(log[..|log| - 1], i);
    }
  }

  function TargetKeys(job: Job): set<string> {
    set i | 0 <= i < |job.items| && job.items[i].Some? :: job.items[i].value
  }

  /** With no error returned, under every interleaving, exactly the items' keys are gone. */
  lemma NilRemovesTargets(job: Job, before: Records, acts: seq<Action>)
    requires Execute(job, Start(job, before), acts).Some?
    requires Execute(job, Start(job, before), acts).value.caller == Returned(None)
    ensures Execute(job, Start(job, before), acts).value.records == before - TargetKeys(job)
  {
    var s := Execute(job, Start(job, before), acts).value;
    TracksAlways(job, before, acts);
    NilMeansAllAttempted(job, before, acts);
    forall k | k in TargetKeys(job)
      ensures k !in s.records
    {
      var i :| 0 <= i < |job.items| && job.items[i] == Some(k);
      var j := AttemptOf(s.log, i);
      assert !s.log[j].answer.Broken?;
    }
    forall k | k in before && k !in TargetKeys(job)
      ensures k in s.records
    {
    }
  }

  // ---------------------------------------------------------------- the listed items

  /** The pool's items for a list result: each object's key in the caller's namespace. */
  function ItemsOf(rest: Rest, t: Tenant, objs: seq<Json>): seq<Option<string>> {
    seq(|objs|, i requires 0 <= i < |objs| => Some(Key(rest.Resource(), t.cluster, t.namespace, GetName(objs[i]))))
  }

  /** `objs` is a possible answer of List for tenant t. */
  ghost predicate ListAnswer(s: Store, rest: Rest, t: Tenant, options: ListOptions,
                             keys: seq<string>, objs: seq<Json>)
  {
    && Enumerates(keys, SelectedKeys(s, Selector(rest, t, options)))
    && |objs| == |keys|
    && forall i | 0 <= i < |keys| :: View(s.records[keys[i]]) == Ok(objs[i])
  }

  lemma SelectedBelongs(s: Store, rest: Rest, t: Tenant, options: ListOptions, key: string)
    requires key in SelectedKeys(s, Selector(rest, t, options))
    ensures key in s.records && Owned(s.records[key].labels, t)
    ensures KIND_LABEL in s.records[key].labels && s.records[key].labels[KIND_LABEL] == rest.kind
  {
    var reqs := Selector(rest, t, options);
    var owner := OwnerRequirements(rest, t);
    assert reqs[|reqs| - 3] == owner[0] && reqs[|reqs| - 2] == owner[1] && reqs[|reqs| - 1] == owner[2];
    assert owner[0].Matches(s.records[key].labels);
    assert owner[1].Matches(s.records[key].labels);
    assert owner[2].Matches(s.records[key].labels);
  }

  /** Item i's key, read off the record it was listed from. */
  lemma ItemKey(s: Store, rest: Rest, t: Tenant, options: ListOptions, keys: seq<string>, objs: seq<Json>, i: nat)
    requires Kept(s) && ListAnswer(s, rest, t, options, keys, objs) && i < |keys|
    ensures keys[i] in s.records
    ensures NAME_LABEL in s.records[keys[i]].labels
    ensures ItemsOf(rest, t, objs)[i]
         == Some(Key(rest.Resource(), t.cluster, t.namespace, s.records[keys[i]].labels[NAME_LABEL]))
    ensures keys[i] == Key(ResourceOf(keys[i]), t.cluster, t.namespace, s.records[keys[i]].labels[NAME_LABEL])
  {
    SelectedBelongs(s, rest, t, options, keys[i]);
    var r := s.records[keys[i]];
    TransformKeepsIdentity(r.envelope, r.manifest);
  }

  // ---------------------------------------------------------------- listing by name

  /** metadata.name=x */
  function ByName(name: string): ListOptions {
    ListOptions(None, Some([FieldTerm("metadata.name", Equals, name)]))
  }

  /** metadata.name!=x */
  function ButName(name: string): ListOptions {
    ListOptions(None, Some([FieldTerm("metadata.name", NotEquals, name)]))
  }

  /** Under the record invariant the terms speak of the objects' own names. */
  lemma SelectedByObjectName(s: Store, rest: Rest, t: Tenant, name: string, key: string)
    requires Kept(s) && Convertible(rest, t, ByName(name))
    ensures var mine := key in SelectedKeys(s, Selector(rest, t, ListOptions(None, None)));
      && (key in SelectedKeys(s, Selector(rest, t, ByName(name)))
          <==> mine && GetName(s.records[key].manifest) == name)
      && (key in SelectedKeys(s, Selector(rest, t, ButName(name)))
          <==> mine && GetName(s.records[key].manifest) != name)
  {
    assert UsableTerm(ByName(name).fields.value[0]) && Convertible(rest, t, ButName(name));
    assert ByName(name).fields.value[0] in ByName(name).fields.value;
    assert ButName(name).fields.value[0] in ButName(name).fields.value;
    SelectedExactly(s, rest, t, ListOptions(None, None), key);
    SelectedExactly(s, rest, t, ByName(name), key);
    SelectedExactly(s, rest, t, ButName(name), key);
    assert key in s.records ==> KeptRecord(key, s.records[key]);
  }

  /** A list by name returns the object of that name and no other: it is empty, or holds just that object. */
  lemma ListedByName(s: Store, rest: Rest, t: Tenant, name: string, keys: seq<string>, objs: seq<Json>)
    requires Kept(s) && Convertible(rest, t, ByName(name)) && SelectionUnder(s, rest, t, ByName(name))
    requires Free(rest.Resource(), '.') && DotFree(t)
    requires ListAnswer(s, rest, t, ByName(name), keys, objs)
    ensures var key := Key(rest.Resource(), t.cluster, t.namespace, name);
      && keys == (if key in SelectedKeys(s, Selector(rest, t, ListOptions(None, None))) then [key] else [])
      && forall i | 0 <= i < |objs| :: GetName(objs[i]) == name
  {
    var key := Key(rest.Resource(), t.cluster, t.namespace, name);
    forall i | 0 <= i < |keys|
      ensures keys[i] == key && GetName(objs[i]) == name
    {
      assert keys[i] in SelectedKeys(s, Selector(rest, t, ByName(name)));
      SelectedByObjectName(s, rest, t, name, keys[i]);
      ItemKey(s, rest, t, ByName(name), keys, objs, i);
      TransformKeepsIdentity(s.records[keys[i]].envelope, s.records[keys[i]].manifest);
    }
    SelectedByObjectName(s, rest, t, name, key);
    if key in SelectedKeys(s, Selector(rest, t, ListOptions(None, None))) {
      NameOfKey(s, rest, t, name);
    }
    OneOrNone(keys, SelectedKeys(s, Selector(rest, t, ByName(name))), key);
  }

  lemma OneOrNone(keys: seq<string>, ks: set<string>, key: string)
    requires Enumerates(keys, ks) && forall i | 0 <= i < |keys| :: keys[i] == key
    ensures keys == if key in ks then [key] else []
  {
    if |keys| <= 1 {
      assert keys != [] ==> keys[0] == key;
    } else {
      SameTwice(keys, key);
    }
  }

  lemma SameTwice(keys: seq<string>, key: string)
    requires |keys| > 1 && forall i | 0 <= i < |keys| :: keys[i] == key
    ensures exists i, k :: 0 <= i < k < |keys| && keys[i] == keys[k]
  {
    assert keys[0] == keys[1];
  }

  lemma NameOfKey(s: Store, rest: Rest, t: Tenant, name: string)
    requires Kept(s) && Free(rest.Resource(), '.') && DotFree(t)
    requires var key := Key(rest.Resource(), t.cluster, t.namespace, name);
      key in SelectedKeys(s, Selector(rest, t, ListOptions(None, None)))
    ensures GetName(s.records[Key(rest.Resource(), t.cluster, t.namespace, name)].manifest) == name
  {
    var key := Key(rest.Resource(), t.cluster, t.namespace, name);
    KeyLeadsToOwner(key, s.records[key], rest.Resource(), t, name);
  }

  /** Every selected record is stored under this REST's plural. */
  predicate SelectionUnder(s: Store, rest: Rest, t: Tenant, options: ListOptions) {
    forall k | k in SelectedKeys(s, Selector(rest, t, options)) :: ResourceOf(k) == rest.Resource()
  }

  lemma TargetsAreSelection(s: Store, rest: Rest, t: Tenant, options: ListOptions,
                            keys: seq<string>, objs: seq<Json>, limit: int)
    requires Kept(s) && Free(rest.Resource(), '.') && DotFree(t)
    requires ListAnswer(s, rest, t, options, keys, objs)
    ensures var targets := TargetKeys(Job(ItemsOf(rest, t, objs), limit));
      && (SelectionUnder(s, rest, t, options) ==> targets == SelectedKeys(s, Selector(rest, t, options)))
      && (forall k | k in targets :: ResourceOf(k) == rest.Resource())
  {
    var items := ItemsOf(rest, t, objs);
    var targets := TargetKeys(Job(items, limit));
    var selected := SelectedKeys(s, Selector(rest, t, options));
    forall k | k in targets
      ensures ResourceOf(k) == rest.Resource()
      ensures SelectionUnder(s, rest, t, options) ==> k in selected
    {
      var i :| 0 <= i < |items| && items[i] == Some(k);
      ItemKey(s, rest, t, options, keys, objs, i);
      KeyParts(rest.Resource(), t.cluster, t.namespace, GetName(objs[i]));
    }
    forall k | k in selected
      ensures SelectionUnder(s, rest, t, options) ==> k in targets
    {
      var i :| 0 <= i < |keys| && keys[i] == k;
      ItemKey(s, rest, t, options, keys, objs, i);
      assert items[i].Some?;
    }
  }

  // ---------------------------------------------------------------- the theorems

  /**
   With no other writers and no error returned, under every interleaving of the workers, the final
   store is the initial store minus what List selected - exactly when the selection (which is by
   kind) lies under this REST's own plural.
   */
  lemma DeletesExactlyTheSelection(s: Store, rest: Rest, t: Tenant, options: ListOptions, keys: seq<string>,
                                   objs: seq<Json>, limit: int, acts: seq<Action>)
    requires Kept(s) && Free(rest.Resource(), '.') && DotFree(t)
    requires ListAnswer(s, rest, t, options, keys, objs)
    requires var job := Job(ItemsOf(rest, t, objs), limit);
      Execute(job, Start(job, s.records), acts).Some?
      && Execute(job, Start(job, s.records), acts).value.caller == Returned(None)
    ensures var job := Job(ItemsOf(rest, t, objs), limit);
      Execute(job, Start(job, s.records), acts).value.records == s.records - SelectedKeys(s, Selector(rest, t, options))
      <==> SelectionUnder(s, rest, t, options)
  {
    var job := Job(ItemsOf(rest, t, objs), limit);
    var final := Execute(job, Start(job, s.records), acts).value.records;
    var selected := SelectedKeys(s, Selector(rest, t, options));
    NilRemovesTargets(job, s.records, acts);
    TargetsAreSelection(s, rest, t, options, keys, objs, limit);
    if !SelectionUnder(s, rest, t, options) {
      var k :| k in selected && ResourceOf(k) != rest.Resource();
      assert k in final;
    }
  }

  /** The key under which a call through `rest` deletes the object of record k. */
  function NamedKey(s: Store, rest: Rest, t: Tenant): string -> string {
    (k: string) =>
      if k in s.records then Key(rest.Resource(), t.cluster, t.namespace, GetName(s.records[k].manifest)) else k
  }

  function NamedKeys(s: Store, rest: Rest, t: Tenant, options: ListOptions): set<string> {
    Image(SelectedKeys(s, Selector(rest, t, options)), NamedKey(s, rest, t))
  }

  function Image(ks: set<string>, f: string -> string): set<string> {
    set k | k in ks :: f(k)
  }

  lemma {:induction false} ImageIsNoLarger(ks: set<string>, f: string -> string)
    ensures |Image(ks, f)| <= |ks|
    decreases |ks|
  {
    if ks != {} {
      var k :| k in ks;
      ImageIsNoLarger(ks - {k}, f);
      assert Image(ks, f) == Image(ks - {k}, f) + {f(k)};
    }
  }

  lemma {:induction false} NoLargerSupersetIsEqual(a: set<string>, b: set<string>)
    requires a <= b && |b| <= |a|
    ensures a == b
    decreases |a|
  {
    if a != {} {
      var x :| x in a;
      NoLargerSupersetIsEqual(a - {x}, b - {x});
      assert b == (b - {x}) + {x} == (a - {x}) + {x};
    }
  }

  lemma TargetsAreNamed(s: Store, rest: Rest, t: Tenant, options: ListOptions,
                        keys: seq<string>, objs: seq<Json>, limit: int)
    requires ListAnswer(s, rest, t, options, keys, objs)
    ensures TargetKeys(Job(ItemsOf(rest, t, objs), limit)) == NamedKeys(s, rest, t, options)
  {
    var items, f := ItemsOf(rest, t, objs), NamedKey(s, rest, t);
    forall i | 0 <= i < |keys|
      ensures keys[i] in s.records && items[i] == Some(f(keys[i]))
    {
      TransformKeepsIdentity(s.records[keys[i]].envelope, s.records[keys[i]].manifest);
    }
    forall k | k in NamedKeys(s, rest, t, options)
      ensures k in TargetKeys(Job(items, limit))
    {
      var x :| x in SelectedKeys(s, Selector(rest, t, options)) && f(x) == k;
      var i :| 0 <= i < |keys| && keys[i] == x;
      assert items[i] == Some(k);
    }
  }

  /**
   The same for every store, renamed objects included: with no other writer and no error, what is gone is what the
   listed objects' names lead to under this plural. That is the selection exactly when every selected
   record lies under the key that the name of some selected object leads to.
   */
  lemma DeletesExactlyTheNamed(s: Store, rest: Rest, t: Tenant, options: ListOptions, keys: seq<string>,
                               objs: seq<Json>, limit: int, acts: seq<Action>)
    requires ListAnswer(s, rest, t, options, keys, objs)
    requires var job := Job(ItemsOf(rest, t, objs), limit);
      Execute(job, Start(job, s.records), acts).Some?
      && Execute(job, Start(job, s.records), acts).value.caller == Returned(None)
    ensures var job := Job(ItemsOf(rest, t, objs), limit);
      var final := Execute(job, Start(job, s.records), acts).value.records;
      var selected := SelectedKeys(s, Selector(rest, t, options));
      && final == s.records - NamedKeys(s, rest, t, options)
      && (final == s.records - selected <==> selected <= NamedKeys(s, rest, t, options))
  {
    var job := Job(ItemsOf(rest, t, objs), limit);
    var selected, named := SelectedKeys(s, Selector(rest, t, options)), NamedKeys(s, rest, t, options);
    NilRemovesTargets(job, s.records, acts);
    TargetsAreNamed(s, rest, t, options, keys, objs, limit);
    if selected <= named {
      ImageIsNoLarger(selected, NamedKey(s, rest, t));
      NoLargerSupersetIsEqual(selected, named);
    } else {
      var k :| k in selected && k !in named;
      assert k in s.records - named && k !in s.records - selected;
    }
  }

  /** When kinds determine plurals, the selection always lies under the REST's own plural. */
  lemma KindsKeepSelectionUnder(kinds: Kinds, s: Store, rest: Rest, t: Tenant, options: ListOptions)
    requires KindFixesResource(kinds, s)
    requires rest.kind in kinds && kinds[rest.kind] == rest.Resource()
    ensures SelectionUnder(s, rest, t, options)
  {
    forall k | k in SelectedKeys(s, Selector(rest, t, options))
      ensures ResourceOf(k) == rest.Resource()
    {
      SelectedBelongs(s, rest, t, options, k);
    }
  }

  /** The whole story from an empty store: any disciplined run, then a DeleteCollection without error. */
  lemma CollectionDeleteAfterAnyRun(kinds: Kinds, ops: seq<Op>, rest: Rest, t: Tenant, options: ListOptions,
                                    keys: seq<string>, objs: seq<Json>, limit: int, acts: seq<Action>)
    requires AllDisciplined(Store(map[], 0), ops) && FollowsKinds(kinds, ops)
    requires rest.kind in kinds && kinds[rest.kind] == rest.Resource() && Free(rest.Resource(), '.') && DotFree(t)
    requires var s := Run(Store(map[], 0), ops); ListAnswer(s, rest, t, options, keys, objs)
    requires var s := Run(Store(map[], 0), ops);
      var job := Job(ItemsOf(rest, t, objs), limit);
      Execute(job, Start(job, s.records), acts).Some?
      && Execute(job, Start(job, s.records), acts).value.caller == Returned(None)
    ensures var s := Run(Store(map[], 0), ops);
      var job := Job(ItemsOf(rest, t, objs), limit);
      Execute(job, Start(job, s.records), acts).value.records == s.records - SelectedKeys(s, Selector(rest, t, options))
  {
    var s := Run(Store(map[], 0), ops);
    RecordInvariant(Store(map[], 0), ops);
    DisciplinedIsPlain(Store(map[], 0), ops);
    KindInvariant(kinds, Store(map[], 0), ops);
    KindsKeepSelectionUnder(kinds, s, rest, t, options);
    DeletesExactlyTheSelection(s, rest, t, options, keys, objs, limit, acts);
  }

  /** In every reachable state of the pool, with or without errors, only this tenant's records are missing. */
  lemma CollectionDeleteIsolated(s: Store, rest: Rest, t: Tenant, b: Tenant, objs: seq<Json>, limit: int,
                                 acts: seq<Action>)
    requires Housed(s) && Free(rest.Resource(), '.') && DotFree(t) && t != b
    requires var job := Job(ItemsOf(rest, t, objs), limit); Execute(job, Start(job, s.records), acts).Some?
    ensures var job := Job(ItemsOf(rest, t, objs), limit);
      var s' := Store(Execute(job, Start(job, s.records), acts).value.records, s.clock);
      TenantRecords(s', b) == TenantRecords(s, b) && Housed(s')
  {
    var job := Job(ItemsOf(rest, t, objs), limit);
    var final := Execute(job, Start(job, s.records), acts).value;
    TracksAlways(job, s.records, acts);
    forall k | k in TenantRecords(s, b)
      ensures k in final.records
    {
      if k !in final.records {
        var i :| 0 <= i < |job.items| && job.items[i] == Some(k);
        KeyLeadsToTenant(k, s.records[k], rest.Resource(), t, GetName(objs[i]));
      }
    }
  }

  // ---------------------------------------------------------------- runs that mix both

  /** One stage of a tenant's run: a single operation, or a DeleteCollection stopped after any of its
      steps, during which the server issued some number of versions. */
  datatype Stage =
    | Single(op: Op)
    | Collection(rest: Rest, objs: seq<Json>, limit: int, acts: seq<Action>, versions: nat)
  {
    ghost predicate Possible(s: Store, a: Tenant) {
      match this
      case Single(op) => Confined(s, op) && (GetUser(op.req).Ok? ==> ActsFor(op.req, a))
      case Collection(rest, objs, limit, acts, _) =>
        var job := PoolOf(rest, a, objs, limit);
        Free(rest.Resource(), '.') && Execute(job, Start(job, s.records), acts).Some?
    }

    ghost function After(s: Store, a: Tenant): Store
      requires Possible(s, a)
    {
      match this
      case Single(op) => Effect(s, op)
      case Collection(rest, objs, limit, acts, versions) =>
        Store(Execute(PoolOf(rest, a, objs, limit), Start(PoolOf(rest, a, objs, limit), s.records), acts).value.records,
              s.clock + versions)
    }
  }

  function PoolOf(rest: Rest, t: Tenant, objs: seq<Json>, limit: int): Job {
    Job(ItemsOf(rest, t, objs), limit)
  }

  /** The store after the stages, or None if one of them was not possible where it came. */
  ghost function Mixed(s: Store, a: Tenant, stages: seq<Stage>): Option<Store> {
    if stages == [] then Some(s)
    else
      match Mixed(s, a, stages[..|stages| - 1])
      case None => None
      case Some(m) =>
        var last := stages[|stages| - 1];
        if last.Possible(m, a) then Some(last.After(m, a)) else None
  }

  /** Creates, updates, deletes and collection deletes of one tenant, in any number and order and renaming
      objects at will, keep every record under its tenant and every other tenant's records as they were. */
  lemma {:induction false} MixedRunsIsolated(s: Store, a: Tenant, b: Tenant, stages: seq<Stage>)
    requires Housed(s) && a != b && b.namespace != "" && DotFree(a) && DotFree(b)
    requires Mixed(s, a, stages).Some?
    ensures Housed(Mixed(s, a, stages).value)
    ensures TenantRecords(Mixed(s, a, stages).value, b) == TenantRecords(s, b)
  {
    if stages != [] {
      var before, last := stages[..|stages| - 1], stages[|stages| - 1];
      MixedRunsIsolated(s, a, b, before);
      var m := Mixed(s, a, before).value;
      match last {
        case Single(op) =>
          EffectHouses(m, op);
          EffectIsolated(m, op, a, b);
        case Collection(rest, objs, limit, acts, versions) =>
          CollectionDeleteIsolated(m, rest, a, b, objs, limit, acts);
      }
    }
  }

  /** So no Get or List of another tenant returns anything different. */
  lemma MixedRunsUnseen(s: Store, a: Tenant, b: Tenant, stages: seq<Stage>,
                        rest: Rest, req: Request, name: string, options: ListOptions)
    requires Housed(s) && a != b && DotFree(a) && DotFree(b)
    requires Mixed(s, a, stages).Some? && ActsFor(req, b) && Free(rest.Resource(), '.')
    ensures var s' := Mixed(s, a, stages).value;
      && GetOutcome(s', rest, req, name) == GetOutcome(s, rest, req, name)
      && Listed(s', Selector(rest, b, options)) == Listed(s, Selector(rest, b, options))
  {
    MixedRunsIsolated(s, a, b, stages);
    OwnRecordsDecideReads(s, Mixed(s, a, stages).value, b, rest, req, name, options);
  }
}
