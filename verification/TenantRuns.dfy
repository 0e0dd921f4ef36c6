/**
 Properties of whole runs of tenant operations: the record invariant, tenant
 non-interference, and reading back what was created.
 */
module TenantRuns {
  import opened Wrappers
  import opened Strings
  import opened Json
  import opened Manifests
  import opened TenantStore

  datatype Op =
    | Create(rest: Rest, req: Request, obj: Option<Json>, dryRun: DryRun, birth: Birth)
    | Update(rest: Rest, req: Request, name: string, f: Change)
    | Delete(rest: Rest, req: Request, name: string)

  /** The effect of one operation whose reads are current. */
  function Effect(s: Store, op: Op): Store {
    match op
    case Create(rest, req, obj, dryRun, birth) => CreateOutcome(s, rest, req, obj, dryRun, birth).0
    case Update(rest, req, name, f) => UpdateOutcome(s, s, rest, req, name, f).0
    case Delete(rest, req, name) => DeleteOutcome(s, rest, req, name).0
  }

  function Run(s: Store, ops: seq<Op>): Store {
    if ops == [] then s else Effect(Run(s, ops[..|ops| - 1]), ops[|ops| - 1])
  }

  // ---------------------------------------------------------------- hypotheses

  /** A namespaced resource other than Namespace, whose plural has no dot. */
  predicate PlainRest(rest: Rest) {
    rest.namespaced && rest.kind != "Namespace" && rest.kind != "Scale" && Free(rest.Resource(), '.')
  }

  predicate DotFree(t: Tenant) {
    Free(t.cluster, '.') && Free(t.namespace, '.')
  }

  predicate DotFreeCaller(req: Request) {
    GetUser(req).Ok? ==> DotFree(Tenant(GetUser(req).value, req.namespace))
  }

  /** The object an update would store in s, if it gets as far as the write. */
  function StoredByUpdate(s: Store, rest: Rest, req: Request, name: string, f: Change): Option<Json> {
    match UpdateRead(s, rest, req, name)
    case Err(_) => None
    case Ok((cluster, key, read)) =>
      match UpdatedRecord(rest, cluster, read, f)
      case Err(_) => None
      case Ok(record) => Some(record.manifest)
  }

  /** What isolation asks of an operation in the state it meets: an update stores its object in the
      namespace of the request. It may rename it. */
  ghost predicate Confined(s: Store, op: Op) {
    && PlainRest(op.rest) && DotFreeCaller(op.req)
    && (op.Update? ==>
          var stored := StoredByUpdate(s, op.rest, op.req, op.name, op.f);
          stored.Some? ==> GetNamespace(stored.value) == op.req.namespace)
  }

  /** What the record invariant asks: the object keeps the name of the request as well. */
  ghost predicate Disciplined(s: Store, op: Op) {
    && Confined(s, op)
    && (op.Update? ==>
          var stored := StoredByUpdate(s, op.rest, op.req, op.name, op.f);
          stored.Some? ==> GetName(stored.value) == op.name)
  }

  ghost predicate AllConfined(s: Store, ops: seq<Op>) {
    ops == []
    || (AllConfined(s, ops[..|ops| - 1]) && Confined(Run(s, ops[..|ops| - 1]), ops[|ops| - 1]))
  }

  ghost predicate AllDisciplined(s: Store, ops: seq<Op>) {
    ops == []
    || (AllDisciplined(s, ops[..|ops| - 1]) && Disciplined(Run(s, ops[..|ops| - 1]), ops[|ops| - 1]))
  }

  // ---------------------------------------------------------------- the record invariant

  predicate KeptRecord(key: string, r: Record) {
    && KIND_LABEL in r.labels && NAME_LABEL in r.labels
    && NAMESPACE_LABEL in r.labels && CLUSTER_LABEL in r.labels
    && Free(r.labels[CLUSTER_LABEL], '.') && Free(r.labels[NAMESPACE_LABEL], '.')
    && key == Key(ResourceOf(key), r.labels[CLUSTER_LABEL], r.labels[NAMESPACE_LABEL], r.labels[NAME_LABEL])
    && GetName(r.manifest) == r.labels[NAME_LABEL]
    && GetNamespace(r.manifest) == r.labels[NAMESPACE_LABEL]
    && Metadata(r.manifest).Keys !! TRIMMED
  }

  predicate Kept(s: Store) {
    forall k | k in s.records :: KeptRecord(k, s.records[k])
  }

  /** A record stored under some name of the tenant its labels give, its object in that namespace. */
  predicate HousedRecord(key: string, r: Record) {
    && NAMESPACE_LABEL in r.labels && CLUSTER_LABEL in r.labels
    && Free(r.labels[CLUSTER_LABEL], '.') && Free(r.labels[NAMESPACE_LABEL], '.')
    && Key(ResourceOf(key), r.labels[CLUSTER_LABEL], r.labels[NAMESPACE_LABEL], "") <= key
    && GetNamespace(r.manifest) == r.labels[NAMESPACE_LABEL]
  }

  predicate Housed(s: Store) {
    forall k | k in s.records :: HousedRecord(k, s.records[k])
  }

  lemma KeyStart(resource: string, cluster: string, namespace: string, name: string)
    ensures Key(resource, cluster, namespace, "") + name == Key(resource, cluster, namespace, name)
  {
  }

  lemma KeptIsHoused(s: Store)
    requires Kept(s)
    ensures Housed(s)
  {
    forall k | k in s.records
      ensures HousedRecord(k, s.records[k])
    {
      var l := s.records[k].labels;
      KeyStart(ResourceOf(k), l[CLUSTER_LABEL], l[NAMESPACE_LABEL], l[NAME_LABEL]);
    }
  }

  /** The key a tenant computes for any name leads only to that tenant's records. */
  lemma KeyLeadsToTenant(key: string, r: Record, resource: string, t: Tenant, name: string)
    requires HousedRecord(key, r)
    requires Free(resource, '.') && DotFree(t)
    requires key == Key(resource, t.cluster, t.namespace, name)
    ensures Owned(r.labels, t) && ResourceOf(key) == resource
  {
    var c, n := r.labels[CLUSTER_LABEL], r.labels[NAMESPACE_LABEL];
    var start := Key(ResourceOf(key), c, n, "");
    KeyStart(ResourceOf(key), c, n, key[|start|..]);
    assert key == start + key[|start|..];
    KeyInjective(resource, t.cluster, t.namespace, name, ResourceOf(key), c, n, key[|start|..]);
  }

  /** Under the record invariant it leads only to that tenant's record of that very name. */
  lemma KeyLeadsToOwner(key: string, r: Record, resource: string, t: Tenant, name: string)
    requires KeptRecord(key, r)
    requires Free(resource, '.') && DotFree(t)
    requires key == Key(resource, t.cluster, t.namespace, name)
    ensures Owned(r.labels, t) && r.labels[NAME_LABEL] == name && ResourceOf(key) == resource
  {
    KeyInjective(resource, t.cluster, t.namespace, name,
                 ResourceOf(key), r.labels[CLUSTER_LABEL], r.labels[NAMESPACE_LABEL], r.labels[NAME_LABEL]);
  }

  /** The object Create stores is in the caller's namespace, unless the server's answer has no usable metadata. */
  lemma CreatedNamespace(rest: Rest, req: Request, obj: Option<Json>, dryRun: DryRun)
    requires rest.namespaced && rest.kind != "Namespace"
    requires DryRunCreate(rest, req, obj, dryRun).Ok?
    ensures var actual := DryRunCreate(rest, req, obj, dryRun).value;
      && Metadata(actual).Keys !! TRIMMED
      && GetNamespace(actual) in {req.namespace, ""}
      && Free(req.namespace, '.')
      && (Settable(dryRun(DryRunBody(rest, obj.value)).value) ==> GetNamespace(actual) == req.namespace)
  {
    var answer := dryRun(DryRunBody(rest, obj.value)).value;
    var placed := SetNamespace(answer, req.namespace);
    TrimKeepsIdentity(placed);
    if Settable(answer) {
      assert Metadata(placed) == Metadata(answer)["namespace" := Text(req.namespace)];
    } else {
      assert placed == answer && GetNamespace(answer) == "";
    }
  }

  /** The one record a create adds, under the key of what is stored. */
  lemma CreateTouches(s: Store, rest: Rest, req: Request, obj: Option<Json>, dryRun: DryRun, birth: Birth)
    ensures var s' := CreateOutcome(s, rest, req, obj, dryRun, birth).0;
      s' != s ==>
        && GetUser(req).Ok? && DryRunCreate(rest, req, obj, dryRun).Ok?
        && var cluster, actual := GetUser(req).value, DryRunCreate(rest, req, obj, dryRun).value;
           var key := Key(rest.Resource(), cluster, GetNamespace(actual), GetName(actual));
           && key !in s.records && s'.records.Keys == s.records.Keys + {key}
           && (forall k | k in s.records :: s'.records[k] == s.records[k])
           && s'.records[key].labels == StampedOnCreate(rest, cluster, actual)
           && s'.records[key].manifest == actual
           && s'.clock == s.clock + 1 && s'.records[key].envelope.resourceVersion == s'.clock
           && CreateOutcome(s, rest, req, obj, dryRun, birth).1 == View(s'.records[key])
  {
  }

  /** An authorized create whose dry run succeeds stores a record exactly when the name is free; otherwise it
      answers that the name exists and changes nothing, as it does when one of the two fails. */
  lemma CreateExactly(s: Store, rest: Rest, req: Request, obj: Option<Json>, dryRun: DryRun, birth: Birth)
    ensures GetUser(req).Err? ==>
      CreateOutcome(s, rest, req, obj, dryRun, birth) == (s, Err(GetUser(req).error))
    ensures GetUser(req).Ok? && DryRunCreate(rest, req, obj, dryRun).Err? ==>
      CreateOutcome(s, rest, req, obj, dryRun, birth) == (s, Err(DryRunCreate(rest, req, obj, dryRun).error))
    ensures GetUser(req).Ok? && DryRunCreate(rest, req, obj, dryRun).Ok? ==>
      var actual := DryRunCreate(rest, req, obj, dryRun).value;
      var key := Key(rest.Resource(), GetUser(req).value, GetNamespace(actual), GetName(actual));
      var (s', r) := CreateOutcome(s, rest, req, obj, dryRun, birth);
      && (key in s.records ==> s' == s && r == Err(AlreadyExists))
      && (key !in s.records ==> s' != s && r != Err(AlreadyExists))
  {
    if GetUser(req).Ok? && DryRunCreate(rest, req, obj, dryRun).Ok? {
      var actual := DryRunCreate(rest, req, obj, dryRun).value;
      var key := Key(rest.Resource(), GetUser(req).value, GetNamespace(actual), GetName(actual));
      var labels := StampedOnCreate(rest, GetUser(req).value, actual);
      assert CreateOutcome(s, rest, req, obj, dryRun, birth).0 == ApiCreate(s, key, labels, actual, birth).0;
      assert key !in s.records ==> ApiCreate(s, key, labels, actual, birth).0.clock == s.clock + 1;
    }
  }

  /** What the caller of a successful create is shown: the version just issued, generation 1, and the
      birth's uid and time; name, namespace and labels as stored. */
  lemma CreateAnswer(s: Store, rest: Rest, req: Request, obj: Option<Json>, dryRun: DryRun, birth: Birth)
    requires CreateOutcome(s, rest, req, obj, dryRun, birth).1.Ok?
    requires Settable(DryRunCreate(rest, req, obj, dryRun).value)
    ensures var (s', r) := CreateOutcome(s, rest, req, obj, dryRun, birth);
      var actual, m := DryRunCreate(rest, req, obj, dryRun).value, Metadata(r.value);
      && Shows(m, "resourceVersion", Some(Number(s'.clock))) && Shows(m, "generation", Some(Number(1)))
      && Shows(m, "uid", if birth.uid != "" then Some(Text(birth.uid)) else None)
      && Shows(m, "creationTimestamp", if birth.created != "" then Some(Text(birth.created)) else None)
      && GetName(r.value) == GetName(actual) && GetNamespace(r.value) == GetNamespace(actual)
      && GetLabels(r.value) == GetLabels(actual) && SameBesideMetadata(actual, r.value)
  {
    CreateExactly(s, rest, req, obj, dryRun, birth);
    CreateTouches(s, rest, req, obj, dryRun, birth);
    var actual := DryRunCreate(rest, req, obj, dryRun).value;
    var key := Key(rest.Resource(), GetUser(req).value, GetNamespace(actual), GetName(actual));
    var e := CreateOutcome(s, rest, req, obj, dryRun, birth).0.records[key].envelope;
    assert e.generation == 1 && e.created == birth.created && e.uid == birth.uid && e.resourceVersion == s.clock + 1;
    EnvelopeSeen(e, actual);
    TransformKeepsIdentity(e, actual);
    RestSeen(e, actual, "");
  }

  lemma CreateKeeps(s: Store, rest: Rest, req: Request, obj: Option<Json>, dryRun: DryRun, birth: Birth)
    requires Kept(s) && PlainRest(rest) && DotFreeCaller(req)
    ensures Kept(CreateOutcome(s, rest, req, obj, dryRun, birth).0)
  {
    if CreateOutcome(s, rest, req, obj, dryRun, birth).0 != s {
      CreateTouches(s, rest, req, obj, dryRun, birth);
      var cluster, actual := GetUser(req).value, DryRunCreate(rest, req, obj, dryRun).value;
      CreatedNamespace(rest, req, obj, dryRun);
      SystemLabelsWin(rest, cluster, map[], actual);
      KeyParts(rest.Resource(), cluster, GetNamespace(actual), GetName(actual));
    }
  }

  /** The one record an update touches, and what it becomes. */
  lemma UpdateTouches(s: Store, rest: Rest, req: Request, name: string, f: Change)
    ensures var s' := UpdateOutcome(s, s, rest, req, name, f).0;
      s' != s ==>
        && UpdateRead(s, rest, req, name).Ok?
        && var (cluster, key, read) := UpdateRead(s, rest, req, name).value;
           && UpdatedRecord(rest, cluster, read, f).Ok?
           && key in s.records && s.records[key] == read
           && s'.records.Keys == s.records.Keys
           && (forall k | k in s.records && k != key :: s'.records[k] == s.records[k])
           && s'.records[key].labels == UpdatedRecord(rest, cluster, read, f).value.labels
           && s'.records[key].manifest == UpdatedRecord(rest, cluster, read, f).value.manifest
           && s'.clock == s.clock + 1 && s'.records[key].envelope.resourceVersion == s'.clock
           && UpdateOutcome(s, s, rest, req, name, f).1 == View(s'.records[key])
  {
  }

  /** What the caller of a successful update is shown: the version just issued, and the uid and creation time
      that the record has had; the generation has moved on exactly if the stored object is another one. */
  lemma UpdateAnswer(s: Store, rest: Rest, req: Request, name: string, f: Change)
    requires UpdateOutcome(s, s, rest, req, name, f).0 != s && UpdateOutcome(s, s, rest, req, name, f).1.Ok?
    requires var (cluster, key, read) := UpdateRead(s, rest, req, name).value;
      UpdateRead(s, rest, req, name).Ok? && UpdatedRecord(rest, cluster, read, f).Ok?
      && Settable(UpdatedRecord(rest, cluster, read, f).value.manifest)
    ensures var (cluster, key, read) := UpdateRead(s, rest, req, name).value;
      var (s', r) := UpdateOutcome(s, s, rest, req, name, f);
      var m, e := Metadata(r.value), read.envelope;
      var g := e.generation + if s'.records[key].manifest == read.manifest then 0 else 1;
      && Shows(m, "resourceVersion", Some(Number(s'.clock)))
      && Shows(m, "generation", if g != 0 then Some(Number(g)) else None)
      && Shows(m, "uid", if e.uid != "" then Some(Text(e.uid)) else None)
      && Shows(m, "creationTimestamp", if e.created != "" then Some(Text(e.created)) else None)
      && SameBesideMetadata(s'.records[key].manifest, r.value)
  {
    UpdateTouches(s, rest, req, name, f);
    var (cluster, key, read) := UpdateRead(s, rest, req, name).value;
    var after := UpdateOutcome(s, s, rest, req, name, f).0.records[key];
    UpdatedEnvelope(s, rest, req, name, f);
    EnvelopeSeen(after.envelope, after.manifest);
    RestSeen(after.envelope, after.manifest, "");
  }

  /** An update leaves the envelope but for version and generation. */
  lemma UpdatedEnvelope(s: Store, rest: Rest, req: Request, name: string, f: Change)
    requires UpdateOutcome(s, s, rest, req, name, f).0 != s
    ensures UpdateRead(s, rest, req, name).Ok?
    ensures var (cluster, key, read) := UpdateRead(s, rest, req, name).value;
      var s' := UpdateOutcome(s, s, rest, req, name, f).0;
      && key in s'.records
      && var e, e' := read.envelope, s'.records[key].envelope;
         && e'.uid == e.uid && e'.created == e.created && e'.graceSeconds == e.graceSeconds
         && e'.deleted == e.deleted && e'.finalizers == e.finalizers && e'.resourceVersion == s'.clock
         && e'.generation == e.generation + if s'.records[key].manifest == read.manifest then 0 else 1
  {
  }

  /** An update keeps the invariant exactly when it leaves the object its name and (dot-free) namespace. */
  lemma UpdateKeepsExactly(s: Store, rest: Rest, req: Request, name: string, f: Change)
    requires Kept(s) && PlainRest(rest) && DotFreeCaller(req)
    requires UpdateOutcome(s, s, rest, req, name, f).0 != s
    ensures var (cluster, key, read) := UpdateRead(s, rest, req, name).value;
      var obj := UpdatedRecord(rest, cluster, read, f).value.manifest;
      Kept(UpdateOutcome(s, s, rest, req, name, f).0)
      <==> GetName(obj) == name && GetNamespace(obj) == req.namespace
  {
    UpdateTouches(s, rest, req, name, f);
    var s' := UpdateOutcome(s, s, rest, req, name, f).0;
    var (cluster, key, read) := UpdateRead(s, rest, req, name).value;
    var obj := UpdatedRecord(rest, cluster, read, f).value.manifest;
    var t := Tenant(cluster, req.namespace);
    KeyLeadsToOwner(key, s.records[key], rest.Resource(), t, name);
    SystemLabelsWin(rest, cluster, read.labels, obj);
    TrimKeepsIdentity(f(read.manifest).value);
    if KeptRecord(key, s'.records[key]) {
      KeyInjective(rest.Resource(), cluster, req.namespace, name,
                   ResourceOf(key), cluster, GetNamespace(obj), GetName(obj));
    }
    assert s'.records.Keys == s.records.Keys;
  }

  lemma EffectKeeps(s: Store, op: Op)
    requires Kept(s) && Disciplined(s, op)
    ensures Kept(Effect(s, op))
  {
    match op
    case Create(rest, req, obj, dryRun, birth) =>
      CreateKeeps(s, rest, req, obj, dryRun, birth);
    case Update(rest, req, name, f) =>
      if Effect(s, op) != s {
        UpdateTouches(s, rest, req, name, f);
        UpdateKeepsExactly(s, rest, req, name, f);
      }
    case Delete(rest, req, name) =>
  }

  // ---------------------------------------------------------------- the weaker invariant behind isolation

  /** An update keeps records under their tenants exactly when it leaves the object its namespace. */
  lemma UpdateHousesExactly(s: Store, rest: Rest, req: Request, name: string, f: Change)
    requires Housed(s) && PlainRest(rest) && DotFreeCaller(req)
    requires UpdateOutcome(s, s, rest, req, name, f).0 != s
    ensures var (cluster, key, read) := UpdateRead(s, rest, req, name).value;
      var obj := UpdatedRecord(rest, cluster, read, f).value.manifest;
      Housed(UpdateOutcome(s, s, rest, req, name, f).0) <==> GetNamespace(obj) == req.namespace
  {
    UpdateTouches(s, rest, req, name, f);
    var s' := UpdateOutcome(s, s, rest, req, name, f).0;
    var (cluster, key, read) := UpdateRead(s, rest, req, name).value;
    var obj := UpdatedRecord(rest, cluster, read, f).value.manifest;
    KeyParts(rest.Resource(), cluster, req.namespace, name);
    KeyStart(rest.Resource(), cluster, req.namespace, name);
    OwnerStamped(rest, cluster, read.labels, obj);
    if HousedRecord(key, s'.records[key]) {
      KeyLeadsToTenant(key, s'.records[key], rest.Resource(), Tenant(cluster, req.namespace), name);
    }
    assert s'.records.Keys == s.records.Keys;
  }

  lemma OwnerStamped(rest: Rest, cluster: string, prior: Labels, obj: Json)
    ensures Owned(StampedOnUpdate(rest, cluster, prior, obj), Tenant(cluster, GetNamespace(obj)))
  {
    SystemLabelsWin(rest, cluster, prior, obj);
  }

  lemma CreateHouses(s: Store, rest: Rest, req: Request, obj: Option<Json>, dryRun: DryRun, birth: Birth)
    requires Housed(s) && PlainRest(rest) && DotFreeCaller(req)
    ensures Housed(CreateOutcome(s, rest, req, obj, dryRun, birth).0)
  {
    if CreateOutcome(s, rest, req, obj, dryRun, birth).0 != s {
      CreateTouches(s, rest, req, obj, dryRun, birth);
      var cluster, actual := GetUser(req).value, DryRunCreate(rest, req, obj, dryRun).value;
      CreatedNamespace(rest, req, obj, dryRun);
      SystemLabelsWin(rest, cluster, map[], actual);
      KeyParts(rest.Resource(), cluster, GetNamespace(actual), GetName(actual));
      KeyStart(rest.Resource(), cluster, GetNamespace(actual), GetName(actual));
    }
  }

  lemma EffectHouses(s: Store, op: Op)
    requires Housed(s) && Confined(s, op)
    ensures Housed(Effect(s, op))
  {
    match op
    case Create(rest, req, obj, dryRun, birth) =>
      CreateHouses(s, rest, req, obj, dryRun, birth);
    case Update(rest, req, name, f) =>
      if Effect(s, op) != s {
        UpdateTouches(s, rest, req, name, f);
        UpdateHousesExactly(s, rest, req, name, f);
      }
    case Delete(rest, req, name) =>
  }

  /** In every run whose updates store no object in another namespace, renaming included, every record stays
      under a name of its tenant. */
  lemma {:induction false} HousedAlways(s: Store, ops: seq<Op>)
    requires Housed(s) && AllConfined(s, ops)
    ensures Housed(Run(s, ops))
  {
    if ops != [] {
      HousedAlways(s, ops[..|ops| - 1]);
      EffectHouses(Run(s, ops[..|ops| - 1]), ops[|ops| - 1]);
    }
  }

  // ---------------------------------------------------------------- the record invariant over runs

  /** Every record of every run is stored under the key of its own labels and object. */
  lemma {:induction false} RecordInvariant(s: Store, ops: seq<Op>)
    requires Kept(s) && AllDisciplined(s, ops)
    ensures Kept(Run(s, ops))
  {
    if ops != [] {
      RecordInvariant(s, ops[..|ops| - 1]);
      EffectKeeps(Run(s, ops[..|ops| - 1]), ops[|ops| - 1]);
    }
  }

  lemma {:induction false} DisciplinedIsPlain(s: Store, ops: seq<Op>)
    requires AllDisciplined(s, ops)
    ensures forall i | 0 <= i < |ops| :: PlainRest(ops[i].rest)
  {
    if ops != [] {
      var before := ops[..|ops| - 1];
      DisciplinedIsPlain(s, before);
      assert forall i | 0 <= i < |before| :: ops[i] == before[i];
    }
  }

  // ---------------------------------------------------------------- changes that ask for nothing special

  /** An object of the namespace stays in it. */
  ghost predicate KeepsNamespace(f: Change, namespace: string) {
    forall j | GetNamespace(j) == namespace :: f(j).Ok? ==> GetNamespace(f(j).value) == namespace
  }

  /** An object of that name and namespace keeps both. */
  ghost predicate KeepsIdentity(f: Change, name: string, namespace: string) {
    forall j | GetName(j) == name && GetNamespace(j) == namespace ::
      f(j).Ok? ==> GetName(f(j).value) == name && GetNamespace(f(j).value) == namespace
  }

  lemma NamespaceKeptIsConfined(s: Store, op: Op)
    requires Housed(s) && op.Update? && PlainRest(op.rest) && DotFreeCaller(op.req)
    requires KeepsNamespace(op.f, op.req.namespace)
    ensures Confined(s, op)
  {
    if StoredByUpdate(s, op.rest, op.req, op.name, op.f).Some? {
      var (cluster, key, read) := UpdateRead(s, op.rest, op.req, op.name).value;
      KeyLeadsToTenant(key, read, op.rest.Resource(), Tenant(cluster, op.req.namespace), op.name);
      TrimKeepsIdentity(op.f(read.manifest).value);
    }
  }

  lemma IdentityKeptIsDisciplined(s: Store, op: Op)
    requires Kept(s) && op.Update? && PlainRest(op.rest) && DotFreeCaller(op.req)
    requires KeepsIdentity(op.f, op.name, op.req.namespace)
    ensures Disciplined(s, op)
  {
    if StoredByUpdate(s, op.rest, op.req, op.name, op.f).Some? {
      var (cluster, key, read) := UpdateRead(s, op.rest, op.req, op.name).value;
      KeyLeadsToOwner(key, read, op.rest.Resource(), Tenant(cluster, op.req.namespace), op.name);
      TrimKeepsIdentity(op.f(read.manifest).value);
    }
  }

  /** Every update of the run carries name and namespace over from what it read. */
  ghost predicate CarriesOver(ops: seq<Op>) {
    forall i | 0 <= i < |ops| ::
      && PlainRest(ops[i].rest) && DotFreeCaller(ops[i].req)
      && (ops[i].Update? ==> KeepsIdentity(ops[i].f, ops[i].name, ops[i].req.namespace))
  }

  /** Runs of such changes meet what the record invariant and isolation ask, wherever they start. */
  lemma {:induction false} CarryingOverSuffices(s: Store, ops: seq<Op>)
    requires Kept(s) && CarriesOver(ops)
    ensures AllDisciplined(s, ops) && AllConfined(s, ops)
  {
    if ops != [] {
      var before, last := ops[..|ops| - 1], ops[|ops| - 1];
      CarryingOverSuffices(s, before);
      RecordInvariant(s, before);
      assert last == ops[|ops| - 1];
      if last.Update? {
        IdentityKeptIsDisciplined(Run(s, before), last);
      }
    }
  }

  /** Every update of the run leaves an object of its namespace there. */
  ghost predicate StaysPut(ops: seq<Op>) {
    forall i | 0 <= i < |ops| ::
      && PlainRest(ops[i].rest) && DotFreeCaller(ops[i].req)
      && (ops[i].Update? ==> KeepsNamespace(ops[i].f, ops[i].req.namespace))
  }

  /** For isolation the namespace is enough. */
  lemma {:induction false} StayingPutSuffices(s: Store, ops: seq<Op>)
    requires Housed(s) && StaysPut(ops)
    ensures AllConfined(s, ops)
  {
    if ops != [] {
      var before, last := ops[..|ops| - 1], ops[|ops| - 1];
      StayingPutSuffices(s, before);
      HousedAlways(s, before);
      assert last == ops[|ops| - 1];
      if last.Update? {
        NamespaceKeptIsConfined(Run(s, before), last);
      }
    }
  }

  /** Setting a label on whatever was read. */
  function AddLabel(key: string, value: string): Change {
    (j: Json) => Ok(SetLabels(j, GetLabels(j)[key := value]))
  }

  lemma AddLabelCarriesOver(key: string, value: string, name: string, namespace: string)
    ensures KeepsIdentity(AddLabel(key, value), name, namespace) && KeepsNamespace(AddLabel(key, value), namespace)
  {
    forall j: Json
      ensures GetName(SetLabels(j, GetLabels(j)[key := value])) == GetName(j)
      ensures GetNamespace(SetLabels(j, GetLabels(j)[key := value])) == GetNamespace(j)
    {
      PutKeepsPlain(j, "labels", OfStrings(Some(GetLabels(j)[key := value])));
    }
  }

  lemma PutKeepsPlain(j: Json, field: string, value: Option<Json>)
    requires field != "name" && field != "namespace"
    ensures GetName(PutField(j, field, value)) == GetName(j)
    ensures GetNamespace(PutField(j, field, value)) == GetNamespace(j)
  {
  }

  // ---------------------------------------------------------------- kind determines resource

  /** The registry of kinds: which plural stores which kind. */
  type Kinds = map<string, string>

  ghost predicate FollowsKinds(kinds: Kinds, ops: seq<Op>) {
    forall i | 0 <= i < |ops| :: ops[i].rest.kind in kinds && kinds[ops[i].rest.kind] == ops[i].rest.Resource()
  }

  predicate KindFixesResource(kinds: Kinds, s: Store) {
    forall k | k in s.records ::
      && KIND_LABEL in s.records[k].labels
      && s.records[k].labels[KIND_LABEL] in kinds
      && ResourceOf(k) == kinds[s.records[k].labels[KIND_LABEL]]
  }

  lemma {:induction false} KindInvariant(kinds: Kinds, s: Store, ops: seq<Op>)
    requires KindFixesResource(kinds, s) && FollowsKinds(kinds, ops)
    requires forall i | 0 <= i < |ops| :: PlainRest(ops[i].rest)
    ensures KindFixesResource(kinds, Run(s, ops))
  {
    if ops != [] {
      var before, op := ops[..|ops| - 1], ops[|ops| - 1];
      var m := Run(s, before);
      KindInvariant(kinds, s, before);
      KindStep(kinds, m, op);
    }
  }

  lemma KindStep(kinds: Kinds, s: Store, op: Op)
    requires KindFixesResource(kinds, s) && PlainRest(op.rest)
    requires op.rest.kind in kinds && kinds[op.rest.kind] == op.rest.Resource()
    ensures KindFixesResource(kinds, Effect(s, op))
  {
    match op
    case Create(rest, req, obj, dryRun, birth) =>
      CreateKeepsKinds(kinds, s, rest, req, obj, dryRun, birth);
    case Update(rest, req, name, f) =>
      UpdateKeepsKinds(kinds, s, rest, req, name, f);
    case Delete(rest, req, name) =>
  }

  lemma CreateKeepsKinds(kinds: Kinds, s: Store, rest: Rest, req: Request, obj: Option<Json>, dryRun: DryRun,
                         birth: Birth)
    requires KindFixesResource(kinds, s) && PlainRest(rest)
    requires rest.kind in kinds && kinds[rest.kind] == rest.Resource()
    ensures KindFixesResource(kinds, CreateOutcome(s, rest, req, obj, dryRun, birth).0)
  {
    if CreateOutcome(s, rest, req, obj, dryRun, birth).0 != s {
      CreateTouches(s, rest, req, obj, dryRun, birth);
      var cluster, actual := GetUser(req).value, DryRunCreate(rest, req, obj, dryRun).value;
      SystemLabelsWin(rest, cluster, map[], actual);
      KeyParts(rest.Resource(), cluster, GetNamespace(actual), GetName(actual));
    }
  }

  lemma KindStamped(rest: Rest, cluster: string, prior: Labels, obj: Json)
    requires rest.kind != "Scale"
    ensures var l := StampedOnUpdate(rest, cluster, prior, obj); KIND_LABEL in l && l[KIND_LABEL] == rest.kind
  {
    SystemLabelsWin(rest, cluster, prior, obj);
  }

  lemma UpdateKeepsKinds(kinds: Kinds, s: Store, rest: Rest, req: Request, name: string, f: Change)
    requires KindFixesResource(kinds, s) && PlainRest(rest)
    requires rest.kind in kinds && kinds[rest.kind] == rest.Resource()
    ensures KindFixesResource(kinds, UpdateOutcome(s, s, rest, req, name, f).0)
  {
    if UpdateOutcome(s, s, rest, req, name, f).0 != s {
      UpdateTouches(s, rest, req, name, f);
      var (cluster, key, read) := UpdateRead(s, rest, req, name).value;
      KindStamped(rest, cluster, read.labels, UpdatedRecord(rest, cluster, read, f).value.manifest);
      KeyParts(rest.Resource(), cluster, req.namespace, name);
    }
  }

  // ---------------------------------------------------------------- non-interference

  /** A store that differs at one key, where `b` owns neither version, looks the same to `b`. */
  lemma DiffersElsewhere(s: Store, s': Store, key: string, b: Tenant)
    requires forall k | k != key ::
      (k in s'.records <==> k in s.records) && (k in s.records ==> s'.records[k] == s.records[k])
    requires key in s.records ==> !Owned(s.records[key].labels, b)
    requires key in s'.records ==> !Owned(s'.records[key].labels, b)
    ensures TenantRecords(s', b) == TenantRecords(s, b)
  {
  }

  lemma CreateIsolated(s: Store, op: Op, a: Tenant, b: Tenant)
    requires op.Create? && PlainRest(op.rest) && ActsFor(op.req, a)
    requires a != b && b.namespace != ""
    ensures TenantRecords(Effect(s, op), b) == TenantRecords(s, b)
  {
    var Create(rest, req, obj, dryRun, birth) := op;
    if Effect(s, op) != s {
      var actual := DryRunCreate(rest, req, obj, dryRun).value;
      CreatedNamespace(rest, req, obj, dryRun);
      SystemLabelsWin(rest, a.cluster, map[], actual);
      DiffersElsewhere(s, Effect(s, op), Key(rest.Resource(), a.cluster, GetNamespace(actual), GetName(actual)), b);
    }
  }

  /** An update that takes effect changes `b`'s records exactly when its object names `b`'s namespace. */
  lemma UpdateReaches(s: Store, rest: Rest, req: Request, name: string, f: Change, a: Tenant, b: Tenant)
    requires Housed(s) && Free(rest.Resource(), '.') && ActsFor(req, a) && DotFree(a)
    requires UpdateOutcome(s, s, rest, req, name, f).0 != s
    requires a != b
    ensures var (cluster, key, read) := UpdateRead(s, rest, req, name).value;
      var obj := UpdatedRecord(rest, cluster, read, f).value.manifest;
      TenantRecords(UpdateOutcome(s, s, rest, req, name, f).0, b) == TenantRecords(s, b)
      <==> b != Tenant(cluster, GetNamespace(obj))
  {
    var s' := UpdateOutcome(s, s, rest, req, name, f).0;
    UpdateTouches(s, rest, req, name, f);
    var (cluster, key, read) := UpdateRead(s, rest, req, name).value;
    var obj := UpdatedRecord(rest, cluster, read, f).value.manifest;
    SystemLabelsWin(rest, cluster, read.labels, obj);
    KeyLeadsToTenant(key, read, rest.Resource(), a, name);
    if b == Tenant(cluster, GetNamespace(obj)) {
      assert key in TenantRecords(s', b) && key !in TenantRecords(s, b);
    } else {
      DiffersElsewhere(s, s', key, b);
    }
  }

  lemma DeleteIsolated(s: Store, op: Op, a: Tenant, b: Tenant)
    requires Housed(s) && op.Delete? && Free(op.rest.Resource(), '.') && ActsFor(op.req, a)
    requires a != b && DotFree(a)
    ensures TenantRecords(Effect(s, op), b) == TenantRecords(s, b)
  {
    var key := Key(op.rest.Resource(), a.cluster, a.namespace, op.name);
    if key in s.records {
      KeyLeadsToTenant(key, s.records[key], op.rest.Resource(), a, op.name);
      DiffersElsewhere(s, Effect(s, op), key, b);
    }
  }

  lemma UpdateIsolated(s: Store, op: Op, a: Tenant, b: Tenant)
    requires Housed(s) && op.Update? && Confined(s, op) && ActsFor(op.req, a)
    requires a != b && DotFree(a)
    ensures TenantRecords(Effect(s, op), b) == TenantRecords(s, b)
  {
    var Update(rest, req, name, f) := op;
    if Effect(s, op) != s {
      UpdateTouches(s, rest, req, name, f);
      UpdateReaches(s, rest, req, name, f, a, b);
    }
  }

  lemma EffectIsolated(s: Store, op: Op, a: Tenant, b: Tenant)
    requires Housed(s) && Confined(s, op)
    requires a != b && b.namespace != "" && DotFree(a) && DotFree(b)
    requires GetUser(op.req).Ok? ==> ActsFor(op.req, a)
    ensures TenantRecords(Effect(s, op), b) == TenantRecords(s, b)
  {
    if GetUser(op.req).Ok? {
      match op
      case Create(rest, req, obj, dryRun, birth) => CreateIsolated(s, op, a, b);
      case Update(rest, req, name, f) => UpdateIsolated(s, op, a, b);
      case Delete(rest, req, name) => DeleteIsolated(s, op, a, b);
    }
  }

  ghost predicate AllBy(ops: seq<Op>, a: Tenant) {
    forall i | 0 <= i < |ops| :: GetUser(ops[i].req).Ok? ==> ActsFor(ops[i].req, a)
  }

  /** Whatever one tenant does without storing an object in another namespace - whatever labels its objects
      carry, and whatever names its updates give them - no other tenant's record changes. */
  lemma {:induction false} NonInterference(s: Store, ops: seq<Op>, a: Tenant, b: Tenant)
    requires Housed(s) && AllConfined(s, ops) && AllBy(ops, a)
    requires a != b && b.namespace != "" && DotFree(a) && DotFree(b)
    ensures TenantRecords(Run(s, ops), b) == TenantRecords(s, b)
  {
    if ops != [] {
      var before := ops[..|ops| - 1];
      NonInterference(s, before, a, b);
      HousedAlways(s, before);
      EffectIsolated(Run(s, before), ops[|ops| - 1], a, b);
    }
  }

  /** Nor does any Get or list of another tenant return anything different. */
  lemma ReadsUnchanged(s: Store, ops: seq<Op>, a: Tenant, b: Tenant, rest: Rest, req: Request, name: string,
                       options: ListOptions)
    requires Housed(s) && AllConfined(s, ops) && AllBy(ops, a)
    requires a != b && b.namespace != "" && DotFree(a) && DotFree(b)
    requires ActsFor(req, b) && Free(rest.Resource(), '.')
    ensures GetOutcome(Run(s, ops), rest, req, name) == GetOutcome(s, rest, req, name)
    ensures Listed(Run(s, ops), Selector(rest, b, options)) == Listed(s, Selector(rest, b, options))
  {
    NonInterference(s, ops, a, b);
    HousedAlways(s, ops);
    OwnRecordsDecideReads(s, Run(s, ops), b, rest, req, name, options);
  }

  /** What a tenant can read is decided by its own records. */
  lemma OwnRecordsDecideReads(s: Store, s': Store, b: Tenant, rest: Rest, req: Request, name: string,
                              options: ListOptions)
    requires Housed(s) && Housed(s') && TenantRecords(s', b) == TenantRecords(s, b)
    requires ActsFor(req, b) && DotFree(b) && Free(rest.Resource(), '.')
    ensures GetOutcome(s', rest, req, name) == GetOutcome(s, rest, req, name)
    ensures Listed(s', Selector(rest, b, options)) == Listed(s, Selector(rest, b, options))
  {
    ListSeesOnlyOwn(s, rest, b, options);
    ListSeesOnlyOwn(s', rest, b, options);
    var key := Key(rest.Resource(), b.cluster, b.namespace, name);
    if key in s.records {
      KeyLeadsToTenant(key, s.records[key], rest.Resource(), b, name);
      assert key in TenantRecords(s, b) && TenantRecords(s, b)[key] == s.records[key];
    }
    if key in s'.records {
      KeyLeadsToTenant(key, s'.records[key], rest.Resource(), b, name);
      assert key in TenantRecords(s', b) && TenantRecords(s', b)[key] == s'.records[key];
    }
  }

  /**
   Update itself does not check the namespace of the object it stores: the change that only names
   another namespace of the same cluster succeeds and is seen there.
   */
  lemma MovedObjectReaches(s: Store, rest: Rest, req: Request, name: string, a: Tenant, b: Tenant)
    requires Housed(s) && PlainRest(rest) && !rest.IsSubresource() && ActsFor(req, a) && DotFree(a)
    requires a != b && a.cluster == b.cluster && b.namespace != ""
    requires var key := Key(rest.Resource(), a.cluster, a.namespace, name);
      key in s.records && Decode(s.records[key].manifest).Ok? && HasMetadata(s.records[key].manifest)
    ensures var f := (j: Json) => Ok(SetNamespace(j, b.namespace));
      TenantRecords(UpdateOutcome(s, s, rest, req, name, f).0, b) != TenantRecords(s, b)
  {
    var f := (j: Json) => Ok(SetNamespace(j, b.namespace));
    var (cluster, key, read) := UpdateRead(s, rest, req, name).value;
    var moved := SetNamespace(read.manifest, b.namespace);
    assert Metadata(moved) == Metadata(read.manifest)["namespace" := Text(b.namespace)];
    TrimKeepsIdentity(moved);
    assert UpdatedRecord(rest, cluster, read, f).Ok?;
    assert UpdateOutcome(s, s, rest, req, name, f).0.clock == s.clock + 1;
    UpdateReaches(s, rest, req, name, f, a, b);
  }

  // ---------------------------------------------------------------- reading back

  /**
   After a successful Create, a Get for the created name, from any copy of the store that has the
   new record, returns exactly what Create returned - provided the server's answer had usable metadata.
   */
  lemma GetAfterCreate(s: Store, rest: Rest, req: Request, obj: Option<Json>, dryRun: DryRun, birth: Birth,
                       cache: Store)
    requires PlainRest(rest)
    requires CreateOutcome(s, rest, req, obj, dryRun, birth).1.Ok?
    requires Settable(dryRun(DryRunBody(rest, obj.value)).value)
    requires var actual := DryRunCreate(rest, req, obj, dryRun).value;
      var key := Key(rest.Resource(), GetUser(req).value, GetNamespace(actual), GetName(actual));
      key in cache.records && cache.records[key] == CreateOutcome(s, rest, req, obj, dryRun, birth).0.records[key]
    ensures var created := CreateOutcome(s, rest, req, obj, dryRun, birth).1;
      GetOutcome(cache, rest, req, GetName(created.value)) == created
  {
    CreatedNamespace(rest, req, obj, dryRun);
    var actual := DryRunCreate(rest, req, obj, dryRun).value;
    var (s', created) := CreateOutcome(s, rest, req, obj, dryRun, birth);
    var key := Key(rest.Resource(), GetUser(req).value, GetNamespace(actual), GetName(actual));
    TransformKeepsIdentity(s'.records[key].envelope, actual);
  }
}
