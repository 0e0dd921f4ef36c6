/**
 What an update leaves behind. A label that the object has dropped still selects its record; an object
 that was renamed is listed, and DeleteCollection does not find it.
 */
module UpdatedRecords {
  import opened Wrappers
  import opened Json
  import opened Manifests
  import opened TenantStore
  import opened TenantRuns
  import opened WorkerPool
  import opened CollectionDelete
  import opened SharedKind

  const SYSTEM_KEYS := {GROUP_LABEL, VERSION_LABEL, KIND_LABEL, NAME_LABEL, CLUSTER_LABEL, NAMESPACE_LABEL}

  /** An update of a record that is there, read as it is: the whole new store. */
  lemma UpdatedOne(s: Store, rest: Rest, t: Tenant, req: Request, name: string, f: Change)
    requires PlainRest(rest) && !rest.IsSubresource() && ActsFor(req, t)
    requires var key := Key(rest.Resource(), t.cluster, t.namespace, name);
      key in s.records && Decode(s.records[key].manifest).Ok? && f(s.records[key].manifest).Ok?
    ensures var key := Key(rest.Resource(), t.cluster, t.namespace, name);
      var r, s' := s.records[key], Effect(s, Update(rest, req, name, f));
      && s'.records.Keys == s.records.Keys
      && s'.records[key].manifest == Trimmed(f(r.manifest).value)
      && s'.records[key].labels == StampedOnUpdate(rest, t.cluster, r.labels, s'.records[key].manifest)
  {
    var key := Key(rest.Resource(), t.cluster, t.namespace, name);
    assert UpdateRead(s, rest, req, name) == Ok((t.cluster, key, s.records[key]));
    assert UpdatedRecord(rest, t.cluster, s.records[key], f).Ok?;
    assert UpdateOutcome(s, s, rest, req, name, f).0.clock == s.clock + 1;
    UpdateTouches(s, rest, req, name, f);
  }

  /** One create, one update. */
  function CreateUpdate(rest: Rest, req: Request, obj: Json, birth: Birth, f: Change): seq<Op> {
    [Create(rest, req, Some(obj), Accept(), birth), Update(rest, req, GetName(obj), f)]
  }

  /** The labels of what is stored are the object's and the one that marks who created it. */
  lemma AcceptedLabels(rest: Rest, req: Request, obj: Json)
    requires PlainRest(rest) && IsDnsLabel(req.namespace) && HasMetadata(obj) && Decode(obj).Ok?
    ensures DryRunCreate(rest, req, Some(obj), Accept()).Ok?
    ensures GetLabels(DryRunCreate(rest, req, Some(obj), Accept()).value)
         == GetLabels(obj)[CREATED_BY_LABEL := APP_NAME]
  {
    var labels := GetLabels(obj)[CREATED_BY_LABEL := APP_NAME];
    var labelled := SetLabels(obj, labels);
    LabelsReadBack(obj, labels);
    NamespaceKeepsLabels(labelled, RESERVED_NAMESPACE);
    var body := SetNamespace(labelled, RESERVED_NAMESPACE);
    assert body == DryRunBody(rest, obj);
    NamespaceKeepsLabels(body, req.namespace);
    TrimKeepsIdentity(SetNamespace(body, req.namespace));
  }

  lemma NamespaceKeepsLabels(j: Json, namespace: string)
    requires HasMetadata(j)
    ensures GetLabels(SetNamespace(j, namespace)) == GetLabels(j) && HasMetadata(SetNamespace(j, namespace))
  {
  }

  // ---------------------------------------------------------------- a dropped label

  function DropLabels(): Change {
    (j: Json) => Ok(SetLabels(j, map[]))
  }

  function ByLabel(key: string, value: string): ListOptions {
    ListOptions(Some([Requirement(key, Equals, {value})]), None)
  }

  /** The store holds one record; its object has no labels, and it is what the label selects. */
  ghost predicate StillSelected(s: Store, rest: Rest, t: Tenant, obj: Json, key: string, value: string) {
    var k := KeyOf(rest, t, obj);
    && s.records.Keys == {k} && View(s.records[k]).Ok? && GetLabels(View(s.records[k]).value) == map[]
    && SelectedKeys(s, Selector(rest, t, ByLabel(key, value))) == {k}
  }

  /** What the first create leaves: one record. */
  ghost predicate HoldsOne(s: Store, rest: Rest, t: Tenant, obj: Json) {
    var k := KeyOf(rest, t, obj);
    && s.records.Keys == {k} && StoredFor(s.records[k], rest, t, obj)
    && GetNamespace(s.records[k].manifest) == t.namespace && HasMetadata(s.records[k].manifest)
  }

  lemma CreatedOne(rest: Rest, t: Tenant, req: Request, obj: Json, birth: Birth)
    requires PlainRest(rest) && ActsFor(req, t) && IsDnsLabel(t.namespace) && HasMetadata(obj) && Decode(obj).Ok?
    ensures var s := Effect(Store(map[], 0), Create(rest, req, Some(obj), Accept(), birth));
      && HoldsOne(s, rest, t, obj)
      && forall key | key in GetLabels(obj) && key !in SYSTEM_KEYS && key != CREATED_BY_LABEL ::
           key in s.records[KeyOf(rest, t, obj)].labels
           && s.records[KeyOf(rest, t, obj)].labels[key] == GetLabels(obj)[key]
  {
    var s := Store(map[], 0);
    var s' := CreateOutcome(s, rest, req, Some(obj), Accept(), birth).0;
    AcceptedObject(rest, req, obj);
    AcceptedLabels(rest, req, obj);
    AcceptedHasMetadata(rest, req, obj);
    Created(s, rest, t, req, obj, birth);
    var actual := DryRunCreate(rest, req, Some(obj), Accept()).value;
    FreeNameIsStored(s, rest, req, obj, birth, t.cluster, actual);
    CreateTouches(s, rest, req, Some(obj), Accept(), birth);
    assert s'.records[KeyOf(rest, t, obj)].labels == StampedOnCreate(rest, t.cluster, actual);
    assert SystemLabels(rest, t.cluster, actual).Keys == SYSTEM_KEYS;
  }

  lemma AcceptedHasMetadata(rest: Rest, req: Request, obj: Json)
    requires PlainRest(rest) && IsDnsLabel(req.namespace) && HasMetadata(obj)
    ensures DryRunCreate(rest, req, Some(obj), Accept()).Ok?
    ensures HasMetadata(DryRunCreate(rest, req, Some(obj), Accept()).value)
  {
    var labelled := SetLabels(obj, GetLabels(obj)[CREATED_BY_LABEL := APP_NAME]);
    LabelsReadBack(obj, GetLabels(obj)[CREATED_BY_LABEL := APP_NAME]);
    NamespaceKeepsLabels(labelled, RESERVED_NAMESPACE);
    NamespaceKeepsLabels(SetNamespace(labelled, RESERVED_NAMESPACE), req.namespace);
  }

  lemma DroppedRecord(rest: Rest, t: Tenant, prior: Record, r: Record, name: string, asked: Requirement)
    requires HasMetadata(prior.manifest) && Decode(prior.manifest).Ok? && rest.kind != "Scale"
    requires GetName(prior.manifest) == name && GetNamespace(prior.manifest) == t.namespace
    requires r.manifest == Trimmed(SetLabels(prior.manifest, map[]))
    requires r.labels == StampedOnUpdate(rest, t.cluster, prior.labels, r.manifest)
    requires asked.key in prior.labels && asked.Matches(prior.labels) && asked.key !in SYSTEM_KEYS
    ensures View(r).Ok? && GetLabels(View(r).value) == map[]
    ensures Labelled(r.labels, rest.kind, t, name) && asked.Matches(r.labels)
  {
    LabelsReadBack(prior.manifest, map[]);
    TrimKeepsIdentity(SetLabels(prior.manifest, map[]));
    TransformKeepsIdentity(r.envelope, r.manifest);
    SystemLabelsWin(rest, t.cluster, prior.labels, r.manifest);
    assert SystemLabels(rest, t.cluster, r.manifest).Keys == SYSTEM_KEYS;
    DroppedLabelStillSelects(rest, t.cluster, prior.labels, r.manifest, asked);
  }

  lemma LabelDropped(s: Store, rest: Rest, t: Tenant, req: Request, obj: Json, key: string, value: string)
    requires PlainRest(rest) && !rest.IsSubresource() && ActsFor(req, t)
    requires HoldsOne(s, rest, t, obj) && key !in SYSTEM_KEYS
    requires var labels := s.records[KeyOf(rest, t, obj)].labels; key in labels && labels[key] == value
    ensures StillSelected(Effect(s, Update(rest, req, GetName(obj), DropLabels())), rest, t, obj, key, value)
  {
    var k, asked := KeyOf(rest, t, obj), Requirement(key, Equals, {value});
    var s' := Effect(s, Update(rest, req, GetName(obj), DropLabels()));
    assert DropLabels()(s.records[k].manifest) == Ok(SetLabels(s.records[k].manifest, map[]));
    UpdatedOne(s, rest, t, req, GetName(obj), DropLabels());
    DroppedRecord(rest, t, s.records[k], s'.records[k], GetName(obj), asked);
    SelectedByLabel(s', rest, t, obj, key, value);
  }

  lemma SelectedByLabel(s: Store, rest: Rest, t: Tenant, obj: Json, key: string, value: string)
    requires var k := KeyOf(rest, t, obj);
      && s.records.Keys == {k} && View(s.records[k]).Ok? && GetLabels(View(s.records[k]).value) == map[]
      && Labelled(s.records[k].labels, rest.kind, t, GetName(obj))
      && Requirement(key, Equals, {value}).Matches(s.records[k].labels)
    ensures StillSelected(s, rest, t, obj, key, value)
  {
    SelectedWhenBoth(s, rest, t, KeyOf(rest, t, obj), Some([Requirement(key, Equals, {value})]), GetName(obj));
  }

  lemma SelectedWhenBoth(s: Store, rest: Rest, t: Tenant, k: string, asked: Option<seq<Requirement>>, name: string)
    requires s.records.Keys == {k} && (asked.Some? ==> Selects(asked.value, s.records[k].labels))
    requires Labelled(s.records[k].labels, rest.kind, t, name)
    ensures SelectedKeys(s, Selector(rest, t, ListOptions(asked, None))) == {k}
  {
    var reqs := Selector(rest, t, ListOptions(asked, None));
    assert reqs == (if asked.Some? then asked.value else []) + OwnerRequirements(rest, t);
    OwnerMatches(rest, t, s.records[k].labels, name);
  }

  /** Create with a label, update without it, list by it: the object is returned, without the label. */
  lemma ListedByDroppedLabel(rest: Rest, t: Tenant, req: Request, obj: Json, birth: Birth, key: string, value: string)
    requires PlainRest(rest) && !rest.IsSubresource() && ActsFor(req, t) && IsDnsLabel(t.namespace)
    requires HasMetadata(obj) && Decode(obj).Ok?
    requires key in GetLabels(obj) && GetLabels(obj)[key] == value && key !in SYSTEM_KEYS && key != CREATED_BY_LABEL
    ensures StillSelected(Run(Store(map[], 0), CreateUpdate(rest, req, obj, birth, DropLabels())),
                          rest, t, obj, key, value)
  {
    var ops := CreateUpdate(rest, req, obj, birth, DropLabels());
    RunTwo(Store(map[], 0), ops[0], ops[1]);
    CreatedOne(rest, t, req, obj, birth);
    LabelDropped(Effect(Store(map[], 0), ops[0]), rest, t, req, obj, key, value);
  }

  // ---------------------------------------------------------------- a renamed object

  function Rename(name: string): Change {
    (j: Json) => Ok(PutField(j, "name", Some(Text(name))))
  }

  function Everything(): ListOptions {
    ListOptions(None, None)
  }

  /** One item, one worker, nothing to delete. */
  function MissingItemRun(): seq<Action> {
    [Send, Close, Take(0), Answered(0, Missing), Drain(0), Signal(0), Return]
  }

  lemma OneItemMissing(key: string, records: Records)
    requires key !in records
    ensures var job := Job([Some(key)], DEFAULT_DELETE_COLLECTION_WORKERS);
      && Execute(job, Start(job, records), MissingItemRun()).Some?
      && Execute(job, Start(job, records), MissingItemRun()).value.caller == Returned(None)
  {
    var job := Job([Some(key)], DEFAULT_DELETE_COLLECTION_WORKERS);
    var acts, s := [], Start(job, records);
    acts := Walk(job, records, acts, s, Send);
    s := Apply(job, s, Send);
    acts := Walk(job, records, acts, s, Close);
    s := Apply(job, s, Close);
    acts := Walk(job, records, acts, s, Take(0));
    s := Apply(job, s, Take(0));
    acts := Walk(job, records, acts, s, Answered(0, Missing));
    s := Apply(job, s, Answered(0, Missing));
    acts := Walk(job, records, acts, s, Drain(0));
    s := Apply(job, s, Drain(0));
    acts := Walk(job, records, acts, s, Signal(0));
    s := Apply(job, s, Signal(0));
    acts := Walk(job, records, acts, s, Return);
    assert acts == MissingItemRun();
  }

  /** A DeleteCollection of everything lists the only record, returns without an error, and leaves it. */
  ghost predicate SurvivesDelete(s: Store, rest: Rest, t: Tenant, obj: Json) {
    var k := KeyOf(rest, t, obj);
    && s.records.Keys == {k} && View(s.records[k]).Ok?
    && var objs := [View(s.records[k]).value];
       var job := Job(ItemsOf(rest, t, objs), DEFAULT_DELETE_COLLECTION_WORKERS);
       && ListAnswer(s, rest, t, Everything(), [k], objs)
       && Execute(job, Start(job, s.records), MissingItemRun()).Some?
       && var final := Execute(job, Start(job, s.records), MissingItemRun()).value;
          final.caller == Returned(None) && k in final.records
  }

  lemma NameSet(j: Json, name: string)
    requires HasMetadata(j) && Decode(j).Ok?
    ensures var named := PutField(j, "name", Some(Text(name)));
      GetName(named) == name && GetNamespace(named) == GetNamespace(j) && Decode(Trimmed(named)).Ok?
  {
  }

  lemma RenamedRecord(rest: Rest, t: Tenant, prior: Record, r: Record, name: string)
    requires HasMetadata(prior.manifest) && Decode(prior.manifest).Ok? && rest.kind != "Scale"
    requires GetNamespace(prior.manifest) == t.namespace
    requires r.manifest == Trimmed(PutField(prior.manifest, "name", Some(Text(name))))
    requires r.labels == StampedOnUpdate(rest, t.cluster, prior.labels, r.manifest)
    ensures View(r).Ok? && GetName(View(r).value) == name
    ensures Labelled(r.labels, rest.kind, t, name)
  {
    NameSet(prior.manifest, name);
    TrimKeepsIdentity(PutField(prior.manifest, "name", Some(Text(name))));
    TransformKeepsIdentity(r.envelope, r.manifest);
    SystemLabelsWin(rest, t.cluster, prior.labels, r.manifest);
  }

  lemma Survives(s: Store, rest: Rest, t: Tenant, obj: Json, name: string)
    requires var k := KeyOf(rest, t, obj);
      && s.records.Keys == {k} && View(s.records[k]).Ok? && GetName(View(s.records[k]).value) == name
      && Labelled(s.records[k].labels, rest.kind, t, name)
    requires name != GetName(obj)
    ensures SurvivesDelete(s, rest, t, obj)
  {
    var k, k' := KeyOf(rest, t, obj), Key(rest.Resource(), t.cluster, t.namespace, name);
    var objs := [View(s.records[k]).value];
    SelectedWhenBoth(s, rest, t, k, None, name);
    KeyStart(rest.Resource(), t.cluster, t.namespace, name);
    KeyStart(rest.Resource(), t.cluster, t.namespace, GetName(obj));
    var start := Key(rest.Resource(), t.cluster, t.namespace, "");
    assert k[|start|..] == GetName(obj) && k'[|start|..] == name;
    assert ItemsOf(rest, t, objs) == [Some(k')];
    OneItemMissing(k', s.records);
    NilRemovesTargets(Job([Some(k')], DEFAULT_DELETE_COLLECTION_WORKERS), s.records, MissingItemRun());
  }

  /** Create, rename by an update, delete the collection: no error, and the object is still there. */
  lemma RenamedSurvives(rest: Rest, t: Tenant, req: Request, obj: Json, birth: Birth, name: string)
    requires PlainRest(rest) && !rest.IsSubresource() && ActsFor(req, t) && IsDnsLabel(t.namespace)
    requires HasMetadata(obj) && Decode(obj).Ok? && name != GetName(obj)
    ensures SurvivesDelete(Run(Store(map[], 0), CreateUpdate(rest, req, obj, birth, Rename(name))), rest, t, obj)
  {
    var ops := CreateUpdate(rest, req, obj, birth, Rename(name));
    var s, k := Effect(Store(map[], 0), ops[0]), KeyOf(rest, t, obj);
    RunTwo(Store(map[], 0), ops[0], ops[1]);
    CreatedOne(rest, t, req, obj, birth);
    UpdatedOne(s, rest, t, req, GetName(obj), Rename(name));
    var s' := Effect(s, ops[1]);
    RenamedRecord(rest, t, s.records[k], s'.records[k], name);
    Survives(s', rest, t, obj, name);
  }

  // ---------------------------------------------------------------- for instance

  const LABELLED := Object(map[
    "kind" := Text("Foo"),
    METADATA := Object(map["name" := Text("x"), "labels" := Object(map["app" := Text("web")])])])

  lemma LabelledObject()
    ensures HasMetadata(LABELLED) && Decode(LABELLED).Ok? && GetName(LABELLED) == "x"
    ensures GetLabels(LABELLED) == map["app" := "web"]
  {
    assert LABELLED.fields[METADATA].Object? && LABELLED.fields["kind"] == Text("Foo");
    assert Metadata(LABELLED)["labels"].fields["app"] == Text("web");
  }

  /** The label keys the server uses are long. */
  lemma ShortKey(key: string)
    requires |key| < 25
    ensures key !in SYSTEM_KEYS && key != CREATED_BY_LABEL
  {
    assert forall k | k in SYSTEM_KEYS :: |k| > 25;
    assert |CREATED_BY_LABEL| > 25;
  }

  /** An object x of kind Foo, labelled app=web: both happen to it, with the printed account of a tenant. */
  lemma LabelledAndRenamed(birth: Birth)
    ensures StillSelected(Run(Store(map[], 0), CreateUpdate(FOOS, CALLER, LABELLED, birth, DropLabels())),
                          FOOS, TENANT, LABELLED, "app", "web")
    ensures SurvivesDelete(Run(Store(map[], 0), CreateUpdate(FOOS, CALLER, LABELLED, birth, Rename("y"))),
                           FOOS, TENANT, LABELLED)
  {
    LabelledObject();
    ShortKey("app");
    PlainPair();
    AccountActs();
    assert "x" != "y" && !FOOS.IsSubresource();
    ListedByDroppedLabel(FOOS, TENANT, CALLER, LABELLED, birth, "app", "web");
    RenamedSurvives(FOOS, TENANT, CALLER, LABELLED, birth, "y");
  }
}
