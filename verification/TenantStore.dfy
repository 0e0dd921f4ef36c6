/**
 The tenant store as values: records in the reserved namespace, the API server's versioned
 create/update/delete, and what each REST operation does to the store. The imperative
 operations are in RestStorage; the properties of whole runs are proved from here.
 */
module TenantStore {
  import opened Wrappers
  import opened Strings
  import opened Json
  import opened Manifests
  import opened Usernames

  const RESERVED_NAMESPACE := "external-crd-reserved"
  const CREATED_BY_LABEL := "k8s.jijiechen.com/created-by"
  const APP_NAME := "external-crd"
  const GROUP_LABEL := "k8s.jijiechen.com/config.group"
  const VERSION_LABEL := "k8s.jijiechen.com/config.version"
  const KIND_LABEL := "k8s.jijiechen.com/config.kind"
  const NAME_LABEL := "k8s.jijiechen.com/config.name"
  const NAMESPACE_LABEL := "k8s.jijiechen.com/config.namespace"
  const CLUSTER_LABEL := "k8s.jijiechen.com/config.cluster"

  type Labels = map<string, string>

  // ---------------------------------------------------------------- the backing store

  datatype Record = Record(labels: Labels, manifest: Json, envelope: Envelope)

  /** `clock` is the last resourceVersion issued; every write takes the next one. */
  datatype Store = Store(records: map<string, Record>, clock: nat)

  /** What the API server chooses for a new record. */
  datatype Birth = Birth(created: string, uid: string)

  function ApiCreate(s: Store, key: string, labels: Labels, manifest: Json, birth: Birth): (Store, Result<Record>) {
    if key in s.records then (s, Err(AlreadyExists))
    else
      var r := Record(labels, manifest, Envelope(1, birth.created, s.clock + 1, birth.uid, None, None, None));
      (Store(s.records[key := r], s.clock + 1), Ok(r))
  }

  /** Accepted only when `r` carries the resourceVersion that is current in the store. */
  function ApiUpdate(s: Store, key: string, r: Record): (Store, Result<Record>) {
    if key !in s.records then (s, Err(NotFound))
    else if s.records[key].envelope.resourceVersion != r.envelope.resourceVersion then (s, Err(Conflict))
    else
      var e := s.records[key].envelope;
      var r' := r.(envelope := e.(resourceVersion := s.clock + 1,
                                  generation := e.generation + if r.manifest == s.records[key].manifest then 0 else 1));
      (Store(s.records[key := r'], s.clock + 1), Ok(r'))
  }

  function ApiDelete(s: Store, key: string): (Store, Result<()>) {
    if key !in s.records then (s, Err(NotFound))
    else (Store(s.records - {key}, s.clock + 1), Ok(()))
  }

  // ---------------------------------------------------------------- requests

  /** The storage of one resource: its plural name (possibly "plural/sub"), kind, group, version. */
  datatype Rest = Rest(name: string, kind: string, group: string, version: string, namespaced: bool)
  {
    /** getResourceName, first component. */
    function Resource(): string { Before(name, '/') }

    predicate IsSubresource() { '/' in name && |Resource()| + 1 < |name| && name[|Resource()| + 1] != '/' }
  }

  /** "plural" names a resource; "plural/sub", whatever follows, names its subresource unless sub is empty. */
  lemma ResourceParts(rest: Rest, plural: string, sub: string, more: string)
    requires Free(plural, '/') && Free(sub, '/') && (more == "" || more[0] == '/')
    ensures rest.name == plural ==> rest.Resource() == plural && !rest.IsSubresource()
    ensures rest.name == plural + "/" + (sub + more) ==>
      rest.Resource() == plural && (rest.IsSubresource() <==> sub != "")
  {
    BeforeSeparator(plural, '/', sub + more);
    assert plural + "/" + (sub + more) == plural + ['/'] + (sub + more);
    BeforeAll(plural);
    if rest.name == plural + "/" + (sub + more) {
      assert rest.name[|plural|] == '/';
      assert rest.name[|plural| + 1..] == sub + more;
    }
  }

  lemma {:induction false} BeforeAll(s: string)
    requires Free(s, '/')
    ensures Before(s, '/') == s
  {
    if s != "" {
      BeforeAll(s[1..]);
    }
  }

  datatype Request = Request(username: Option<string>, namespace: string)

  datatype Tenant = Tenant(cluster: string, namespace: string)

  /** getUser: the caller's cluster, when the caller is authorized for the request's namespace. */
  function GetUser(req: Request): Result<string> {
    match req.username
    case None => Err(Unauthorized)
    case Some(username) =>
      match GetClusterNamespace(username)
      case OutOfRange => Err(Panic)
      case Rejected => Err(Forbidden)
      case Parsed(cluster, namespace) =>
        if |req.namespace| == 0 || req.namespace != namespace then Err(Forbidden) else Ok(cluster)
  }

  /** The caller acts in a cluster exactly when its username names that cluster and the request's non-empty
      namespace. Without a username it is unauthorized; a username that does not parse, or names another namespace,
      is forbidden. */
  lemma GetUserExactly(req: Request, cluster: string)
    ensures GetUser(req) == Ok(cluster)
       <==> && req.username.Some? && req.namespace != ""
            && GetClusterNamespace(req.username.value) == Parsed(cluster, req.namespace)
    ensures GetUser(req) == Err(Unauthorized) <==> req.username.None?
    ensures GetUser(req) == Err(Forbidden)
       <==> && req.username.Some? && !GetClusterNamespace(req.username.value).OutOfRange?
            && forall c: string ::
                 req.namespace == "" || GetClusterNamespace(req.username.value) != Parsed(c, req.namespace)
  {
  }

  predicate ActsFor(req: Request, t: Tenant) {
    GetUser(req) == Ok(t.cluster) && req.namespace == t.namespace
  }

  /** Each username is authorized for at most one tenant. */
  lemma OneTenantPerUser(username: string, ns: string, ns': string)
    requires GetUser(Request(Some(username), ns)).Ok? && GetUser(Request(Some(username), ns')).Ok?
    ensures ns == ns' && ns != ""
    ensures GetUser(Request(Some(username), ns)) == GetUser(Request(Some(username), ns'))
  {
  }

  /** A tenant's printed service account acts for that tenant in its namespace and in no other. */
  lemma PrintedUserActsExactly(random: string, t: Tenant, ns: string)
    requires |random| + 1 == DELIMITER_LENGTH && Free(random, '-') && !Contains(t.namespace, random + "-")
    ensures var user := Some(PrintUsername(random, t.cluster, t.namespace));
      && (GetUser(Request(user, ns)).Ok? <==> ns == t.namespace && ns != "")
      && (t.namespace != "" ==> ActsFor(Request(user, t.namespace), t))
  {
    ParseUndoesPrint(random, t.cluster, t.namespace);
  }

  // ---------------------------------------------------------------- labels

  /** Labels stamped on every record, after and over whatever the object carries. */
  function SystemLabels(rest: Rest, cluster: string, obj: Json): Labels {
    map[
      GROUP_LABEL := rest.group,
      VERSION_LABEL := rest.version,
      KIND_LABEL := rest.kind,
      NAME_LABEL := GetName(obj),
      CLUSTER_LABEL := cluster,
      NAMESPACE_LABEL := GetNamespace(obj)
    ]
  }

  function StampedOnCreate(rest: Rest, cluster: string, obj: Json): Labels {
    GetLabels(obj) + SystemLabels(rest, cluster, obj)
  }

  function StampedOnUpdate(rest: Rest, cluster: string, prior: Labels, obj: Json): Labels {
    var system := SystemLabels(rest, cluster, obj);
    prior + GetLabels(obj) + if rest.kind == "Scale" then system - {KIND_LABEL} else system
  }

  lemma LabelsDistinct()
    ensures GROUP_LABEL != VERSION_LABEL && GROUP_LABEL != KIND_LABEL && GROUP_LABEL != NAME_LABEL
    ensures GROUP_LABEL != NAMESPACE_LABEL && GROUP_LABEL != CLUSTER_LABEL
    ensures VERSION_LABEL != KIND_LABEL && VERSION_LABEL != NAME_LABEL
    ensures VERSION_LABEL != NAMESPACE_LABEL && VERSION_LABEL != CLUSTER_LABEL
    ensures KIND_LABEL != NAME_LABEL && KIND_LABEL != NAMESPACE_LABEL && KIND_LABEL != CLUSTER_LABEL
    ensures NAME_LABEL != NAMESPACE_LABEL && NAME_LABEL != CLUSTER_LABEL && NAMESPACE_LABEL != CLUSTER_LABEL
  {
    assert GROUP_LABEL[25] == 'g' && VERSION_LABEL[25] == 'v' && KIND_LABEL[25] == 'k';
    assert CLUSTER_LABEL[25] == 'c';
    assert |NAME_LABEL| < |NAMESPACE_LABEL|;
    assert NAME_LABEL[25] == 'n' && NAMESPACE_LABEL[25] == 'n';
  }

  /** The labels that name a record's owner, as List and DeleteCollection select on them. */
  predicate Labelled(labels: Labels, kind: string, t: Tenant, name: string) {
    && KIND_LABEL in labels && labels[KIND_LABEL] == kind
    && Owned(labels, t)
    && NAME_LABEL in labels && labels[NAME_LABEL] == name
  }

  predicate Owned(labels: Labels, t: Tenant) {
    && CLUSTER_LABEL in labels && labels[CLUSTER_LABEL] == t.cluster
    && NAMESPACE_LABEL in labels && labels[NAMESPACE_LABEL] == t.namespace
  }

  /** System labels win over every label the object (or the old record) carries. */
  lemma SystemLabelsWin(rest: Rest, cluster: string, prior: Labels, obj: Json)
    ensures Labelled(StampedOnCreate(rest, cluster, obj), rest.kind, Tenant(cluster, GetNamespace(obj)), GetName(obj))
    ensures rest.kind != "Scale" ==>
      Labelled(StampedOnUpdate(rest, cluster, prior, obj), rest.kind, Tenant(cluster, GetNamespace(obj)), GetName(obj))
    ensures KIND_LABEL in prior ==> KIND_LABEL in StampedOnUpdate(rest, cluster, prior, obj)
    ensures var l := StampedOnUpdate(rest, cluster, prior, obj);
      Owned(l, Tenant(cluster, GetNamespace(obj))) && NAME_LABEL in l && l[NAME_LABEL] == GetName(obj)
    ensures FromStorage(StampedOnCreate(rest, cluster, obj), rest)
    ensures FromStorage(StampedOnUpdate(rest, cluster, prior, obj), rest)
  {
    LabelsDistinct();
  }

  /** The labels that name the storage a record came through. */
  predicate FromStorage(labels: Labels, rest: Rest) {
    && GROUP_LABEL in labels && labels[GROUP_LABEL] == rest.group
    && VERSION_LABEL in labels && labels[VERSION_LABEL] == rest.version
  }

  /** Every label that is not the system's is kept: the object's own, and on update those the record had beside
      them. An update through a scale storage leaves the kind label as those say. */
  lemma OtherLabelsKept(rest: Rest, cluster: string, prior: Labels, obj: Json, key: string)
    requires key !in {GROUP_LABEL, VERSION_LABEL, NAME_LABEL, CLUSTER_LABEL, NAMESPACE_LABEL}
    requires key == KIND_LABEL ==> rest.kind == "Scale"
    ensures var l := StampedOnUpdate(rest, cluster, prior, obj);
      if key in GetLabels(obj) then key in l && l[key] == GetLabels(obj)[key]
      else if key in prior then key in l && l[key] == prior[key]
      else key !in l
    ensures var l := StampedOnCreate(rest, cluster, obj);
      key != KIND_LABEL ==>
        (key in l <==> key in GetLabels(obj)) && (key in l ==> l[key] == GetLabels(obj)[key])
  {
  }

  /** Update only ever adds labels. The record of an updated object carries the labels it would have been
      created with exactly when the object still has every label the record had, the system's aside. */
  lemma UpdateLabelsExactly(rest: Rest, cluster: string, prior: Labels, obj: Json)
    requires rest.kind != "Scale"
    ensures StampedOnUpdate(rest, cluster, prior, obj) == StampedOnCreate(rest, cluster, obj)
       <==> prior.Keys <= GetLabels(obj).Keys + SystemLabels(rest, cluster, obj).Keys
  {
    LabelsAdd(prior, GetLabels(obj), SystemLabels(rest, cluster, obj));
  }

  lemma LabelsAdd(prior: Labels, own: Labels, system: Labels)
    ensures prior + own + system == own + system <==> prior.Keys <= own.Keys + system.Keys
  {
    if prior.Keys <= own.Keys + system.Keys {
      assert (prior + own + system).Keys == (own + system).Keys;
    } else {
      var k :| k in prior.Keys && k !in own.Keys + system.Keys;
      assert k in prior + own + system && k !in own + system;
    }
  }

  /** So a label the object has dropped goes on selecting the record as it did before. */
  lemma DroppedLabelStillSelects(rest: Rest, cluster: string, prior: Labels, obj: Json, r: Requirement)
    requires r.key in prior && r.key !in GetLabels(obj) && r.key !in SystemLabels(rest, cluster, obj)
    ensures r.Matches(StampedOnUpdate(rest, cluster, prior, obj)) <==> r.Matches(prior)
  {
    var system := SystemLabels(rest, cluster, obj);
    var stamped := if rest.kind == "Scale" then system - {KIND_LABEL} else system;
    assert r.key !in stamped;
    assert (prior + GetLabels(obj) + stamped)[r.key] == prior[r.key];
  }

  // ---------------------------------------------------------------- create

  /** A DNS label, as namespace names must be. */
  predicate IsDnsLabel(s: string) {
    && 0 < |s| <= 63
    && (forall c | c in s :: 'a' <= c <= 'z' || '0' <= c <= '9' || c == '-')
    && s[0] != '-' && s[|s| - 1] != '-'
  }

  /** Letters and digits, with dashes between. */
  predicate DnsShape(s: string, a: char, middle: string, b: char) {
    && DnsChar(a) && DnsChar(b) && (forall c | c in middle :: DnsChar(c) || c == '-')
    && (s == [a] || s == [a] + middle + [b])
  }

  /** As the validation writes it. Each DNS label is also a label value, so a namespace in which objects can be
      created is one that a list can select on. */
  lemma DnsLabelShape(s: string)
    ensures IsDnsLabel(s) <==> |s| <= 63 && exists a, middle, b :: DnsShape(s, a, middle, b)
    ensures IsDnsLabel(s) ==> ValidLabelValue(s)
  {
    if IsDnsLabel(s) {
      var a, b := s[0], s[|s| - 1];
      assert a in s && b in s;
      if |s| == 1 {
        assert DnsShape(s, a, "", b);
      } else {
        var middle := s[1..|s| - 1];
        assert s == [a] + middle + [b];
        assert forall c | c in middle :: c in s;
        assert DnsShape(s, a, middle, b);
      }
    }
    forall a, middle, b | DnsShape(s, a, middle, b)
      ensures s != "" && (forall c | c in s :: DnsChar(c) || c == '-') && s[0] != '-' && s[|s| - 1] != '-'
    {
    }
  }

  predicate DnsChar(c: char) {
    'a' <= c <= 'z' || '0' <= c <= '9'
  }

  type DryRun = Json -> Result<Json>

  /** The object that is sent for the dry run. */
  function DryRunBody(rest: Rest, u: Json): Json {
    var labelled := SetLabels(u, GetLabels(u)[CREATED_BY_LABEL := APP_NAME]);
    if rest.kind != "Namespace" && rest.namespaced then SetNamespace(labelled, RESERVED_NAMESPACE) else labelled
  }

  /** The request of a namespaced kind goes to the reserved namespace, marked with who created it; name and other
      labels are the object's. A kind without namespaces keeps what it said. */
  lemma DryRunBodyMeaning(rest: Rest, u: Json)
    requires HasMetadata(u)
    ensures var body := DryRunBody(rest, u);
      && GetName(body) == GetName(u)
      && GetNamespace(body)
         == (if rest.namespaced && rest.kind != "Namespace" then "external-crd-reserved" else GetNamespace(u))
      && GetLabels(body) == GetLabels(u)["k8s.jijiechen.com/created-by" := "external-crd"]
      && SameBesideMetadata(u, body)
  {
    var labels := GetLabels(u)[CREATED_BY_LABEL := APP_NAME];
    LabelsReadBack(u, labels);
    NamespaceReadBack(SetLabels(u, labels), RESERVED_NAMESPACE);
  }

  lemma LabelsReadBack(j: Json, kv: Labels)
    requires HasMetadata(j)
    ensures GetLabels(SetLabels(j, kv)) == kv && HasMetadata(SetLabels(j, kv))
    ensures GetName(SetLabels(j, kv)) == GetName(j) && GetNamespace(SetLabels(j, kv)) == GetNamespace(j)
    ensures Decode(j).Ok? ==> Decode(SetLabels(j, kv)).Ok?
    ensures SameBesideMetadata(j, SetLabels(j, kv))
  {
    var m := Metadata(SetLabels(j, kv));
    assert m == Metadata(j)["labels" := OfStrings(Some(kv)).value];
    assert (map k | k in m["labels"].fields :: m["labels"].fields[k].s) == kv;
  }

  lemma NamespaceReadBack(j: Json, namespace: string)
    requires HasMetadata(j)
    ensures var placed := SetNamespace(j, namespace);
      && GetNamespace(placed) == namespace && HasMetadata(placed)
      && GetName(placed) == GetName(j) && GetLabels(placed) == GetLabels(j)
      && SameBesideMetadata(j, placed)
  {
  }

  /** The object to store: the server's dry-run answer, back in the caller's namespace and trimmed. */
  function DryRunCreate(rest: Rest, req: Request, obj: Option<Json>, dryRun: DryRun): Result<Json> {
    match obj
    case None => Err(BadRequest)
    case Some(u) =>
      if (rest.namespaced || rest.kind == "Namespace") && !IsDnsLabel(req.namespace) then Err(Invalid)
      else
        match dryRun(DryRunBody(rest, u))
        case Err(e) => Err(e)
        case Ok(result) =>
          var placed :=
            if rest.kind != "Namespace" && rest.namespaced then SetNamespace(result, req.namespace) else result;
          Ok(Trimmed(placed))
  }

  /** What is not an object, a namespace that is no DNS label, and the server's own refusal are answered in this
      order; otherwise the server's answer is what is stored, trimmed and in the caller's namespace. */
  lemma DryRunExactly(rest: Rest, req: Request, obj: Option<Json>, dryRun: DryRun)
    requires rest.namespaced && rest.kind != "Namespace"
    ensures var r := DryRunCreate(rest, req, obj, dryRun);
      if obj.None? then r == Err(BadRequest)
      else if !IsDnsLabel(req.namespace) then r == Err(Invalid)
      else
        var answer := dryRun(DryRunBody(rest, obj.value));
        if answer.Err? then r == Err(answer.error)
        else
          && r.Ok? && SameBesideMetadata(answer.value, r.value)
          && (HasMetadata(answer.value) ==>
                && GetNamespace(r.value) == req.namespace
                && GetName(r.value) == GetName(answer.value) && GetLabels(r.value) == GetLabels(answer.value))
  {
    if obj.Some? && IsDnsLabel(req.namespace) && dryRun(DryRunBody(rest, obj.value)).Ok? {
      var answer := dryRun(DryRunBody(rest, obj.value)).value;
      TrimKeepsIdentity(SetNamespace(answer, req.namespace));
      TrimExactly(SetNamespace(answer, req.namespace), "");
      if HasMetadata(answer) {
        NamespaceReadBack(answer, req.namespace);
      }
    }
  }

  function CreateOutcome(s: Store, rest: Rest, req: Request, obj: Option<Json>, dryRun: DryRun, birth: Birth)
    : (Store, Result<Json>)
  {
    match GetUser(req)
    case Err(e) => (s, Err(e))
    case Ok(cluster) =>
      match DryRunCreate(rest, req, obj, dryRun)
      case Err(e) => (s, Err(e))
      case Ok(actual) =>
        var key := Key(rest.Resource(), cluster, GetNamespace(actual), GetName(actual));
        var (s', r) := ApiCreate(s, key, StampedOnCreate(rest, cluster, actual), actual, birth);
        match r
        case Err(e) => (s', Err(e))
        case Ok(record) => (s', View(record))
  }

  /** transformManifest of a record. */
  function View(r: Record): Result<Json> {
    if Decode(r.manifest).Ok? then Ok(Transformed(r.envelope, r.manifest)) else Err(Internal)
  }

  // ---------------------------------------------------------------- get, update, delete

  /** Get, from the cache or (with a resourceVersion) from the server: `source` is whichever is read. */
  function GetOutcome(source: Store, rest: Rest, req: Request, name: string): Result<Json> {
    match GetUser(req)
    case Err(e) => Err(e)
    case Ok(cluster) =>
      var key := Key(rest.Resource(), cluster, req.namespace, name);
      if key !in source.records then Err(NotFound) else View(source.records[key])
  }

  /** objInfo.UpdatedObject followed by the update validation. */
  type Change = Json -> Result<Json>

  /** What Update reads through the lister before it writes. */
  function UpdateRead(cache: Store, rest: Rest, req: Request, name: string): Result<(string, string, Record)> {
    if rest.IsSubresource() then Err(MethodNotSupported)
    else
      match GetUser(req)
      case Err(e) => Err(e)
      case Ok(cluster) =>
        var key := Key(rest.Resource(), cluster, req.namespace, name);
        if key !in cache.records then Err(NotFound) else Ok((cluster, key, cache.records[key]))
  }

  /** The record Update sends: the deep copy of what was read, with new labels and a new manifest. */
  function UpdatedRecord(rest: Rest, cluster: string, read: Record, f: Change): Result<Record> {
    match Decode(read.manifest)
    case Err(e) => Err(e)
    case Ok(oldObj) =>
      match f(oldObj)
      case Err(e) => Err(e)
      case Ok(newObj) =>
        var result := Trimmed(newObj);
        Ok(read.(labels := StampedOnUpdate(rest, cluster, read.labels, result), manifest := result))
  }

  function UpdateOutcome(s: Store, cache: Store, rest: Rest, req: Request, name: string, f: Change)
    : (Store, Result<Json>)
  {
    match UpdateRead(cache, rest, req, name)
    case Err(e) => (s, Err(e))
    case Ok((cluster, key, read)) =>
      match UpdatedRecord(rest, cluster, read, f)
      case Err(e) => (s, Err(e))
      case Ok(record) =>
        var (s', r) := ApiUpdate(s, key, record);
        match r
        case Err(e) => (s', Err(e))
        case Ok(stored) => (s', View(stored))
  }

  function DeleteOutcome(s: Store, rest: Rest, req: Request, name: string): (Store, Result<()>) {
    match GetUser(req)
    case Err(e) => (s, Err(e))
    case Ok(cluster) => ApiDelete(s, Key(rest.Resource(), cluster, req.namespace, name))
  }

  /** Why an update is refused before it writes: a subresource, the caller, a record the cache does not have, one
      that does not decode, or the change itself. */
  lemma UpdateRefused(s: Store, cache: Store, rest: Rest, req: Request, name: string, f: Change)
    ensures var outcome := UpdateOutcome(s, cache, rest, req, name, f);
      if rest.IsSubresource() then outcome == (s, Err(MethodNotSupported))
      else if GetUser(req).Err? then outcome == (s, Err(GetUser(req).error))
      else
        var key := Key(rest.Resource(), GetUser(req).value, req.namespace, name);
        if key !in cache.records then outcome == (s, Err(NotFound))
        else
          var manifest := cache.records[key].manifest;
          && (Decode(manifest).Err? ==> outcome == (s, Err(Internal)))
          && (Decode(manifest).Ok? && f(manifest).Err? ==> outcome == (s, Err(f(manifest).error)))
          && (Decode(manifest).Ok? && f(manifest).Ok? && key !in s.records ==> outcome == (s, Err(NotFound)))
  {
  }

  /** Delete answers that the record is missing exactly when there is none under the caller's name, leaving the
      store alone; otherwise it succeeds and takes that record and nothing else. */
  lemma DeleteExactly(s: Store, rest: Rest, req: Request, name: string)
    ensures GetUser(req).Err? ==> DeleteOutcome(s, rest, req, name) == (s, Err(GetUser(req).error))
    ensures GetUser(req).Ok? ==>
      var key := Key(rest.Resource(), GetUser(req).value, req.namespace, name);
      var (s', r) := DeleteOutcome(s, rest, req, name);
      && (r == Err(NotFound) <==> key !in s.records) && (r.Ok? <==> key in s.records)
      && s'.records == s.records - {key}
      && s'.clock == if key in s.records then s.clock + 1 else s.clock
  {
  }

  /** Get answers that the record is missing exactly when its source has none under the caller's name. */
  lemma GetExactly(source: Store, rest: Rest, req: Request, name: string)
    ensures GetUser(req).Err? ==> GetOutcome(source, rest, req, name) == Err(GetUser(req).error)
    ensures GetUser(req).Ok? ==>
      var key := Key(rest.Resource(), GetUser(req).value, req.namespace, name);
      && (GetOutcome(source, rest, req, name) == Err(NotFound) <==> key !in source.records)
      && (key in source.records ==> GetOutcome(source, rest, req, name) == View(source.records[key]))
  {
  }

  // ---------------------------------------------------------------- list

  datatype Operator = Equals | NotEquals | In | NotIn | Exists | DoesNotExist

  datatype Requirement = Requirement(key: string, op: Operator, values: set<string>)
  {
    predicate Matches(labels: Labels) {
      match op
      case Equals => key in labels && labels[key] in values
      case In => key in labels && labels[key] in values
      case NotEquals => key !in labels || labels[key] !in values
      case NotIn => key !in labels || labels[key] !in values
      case Exists => key in labels
      case DoesNotExist => key !in labels
    }
  }

  /** Requirements mean what their names say: Equals fixes the value, In is one of several Equals, and NotEquals,
      NotIn and DoesNotExist are what Equals, In and Exists are not - a missing label included. */
  lemma RequirementLaws(key: string, values: set<string>, value: string, labels: Labels)
    ensures Requirement(key, Equals, {value}).Matches(map[key := value])
    ensures Requirement(key, Equals, {value}).Matches(labels) ==> labels == labels[key := value]
    ensures Requirement(key, Operator.In, values).Matches(labels)
       <==> exists v | v in values :: Requirement(key, Equals, {v}).Matches(labels)
    ensures Requirement(key, NotEquals, {value}).Matches(labels) <==> !Requirement(key, Equals, {value}).Matches(labels)
    ensures Requirement(key, NotIn, values).Matches(labels) <==> !Requirement(key, Operator.In, values).Matches(labels)
    ensures Requirement(key, Exists, {}).Matches(labels)
       <==> exists v :: Requirement(key, Equals, {v}).Matches(labels)
    ensures Requirement(key, DoesNotExist, {}).Matches(labels) <==> !Requirement(key, Exists, {}).Matches(labels)
  {
    if key in labels {
      assert Requirement(key, Equals, {labels[key]}).Matches(labels);
    }
  }

  datatype FieldTerm = FieldTerm(field: string, op: Operator, value: string)

  /** List options: a label selector (None selects everything) and a field selector. */
  datatype ListOptions = ListOptions(labels: Option<seq<Requirement>>, fields: Option<seq<FieldTerm>>)

  predicate ValidLabelValue(v: string) {
    && |v| <= 63
    && (forall c | c in v :: IsAlphanumeric(c) || c in {'-', '_', '.'})
    && (v != "" ==> IsAlphanumeric(v[0]) && IsAlphanumeric(v[|v| - 1]))
  }

  predicate IsAlphanumeric(c: char) {
    'a' <= c <= 'z' || 'A' <= c <= 'Z' || '0' <= c <= '9'
  }

  predicate Selects(reqs: seq<Requirement>, labels: Labels) {
    forall r | r in reqs :: r.Matches(labels)
  }

  /** The field term as a requirement on the name label. */
  predicate UsableTerm(t: FieldTerm) {
    t.field == "metadata.name" && t.op in {Equals, NotEquals} && ValidLabelValue(t.value)
  }

  function TermRequirement(t: FieldTerm): Requirement {
    Requirement(NAME_LABEL, t.op, {t.value})
  }

  function OwnerRequirements(rest: Rest, t: Tenant): seq<Requirement> {
    [ Requirement(KIND_LABEL, Equals, {rest.kind}),
      Requirement(NAMESPACE_LABEL, Equals, {t.namespace}),
      Requirement(CLUSTER_LABEL, Equals, {t.cluster}) ]
  }

  /** convertListOptionsToLabels, when it succeeds: the user's selector and the owner's labels. */
  function Selector(rest: Rest, t: Tenant, options: ListOptions): seq<Requirement> {
    (if options.labels.Some? then options.labels.value else [])
    + (if options.fields.Some? then FieldRequirements(options.fields.value) else [])
    + OwnerRequirements(rest, t)
  }

  /** Whether list options and owner can be expressed as a selector at all. */
  predicate Convertible(rest: Rest, t: Tenant, options: ListOptions) {
    && (options.fields.Some? ==> forall i | 0 <= i < |options.fields.value| :: UsableTerm(options.fields.value[i]))
    && ValidLabelValue(rest.kind) && ValidLabelValue(t.namespace) && ValidLabelValue(t.cluster)
  }

  function FieldRequirements(ts: seq<FieldTerm>): seq<Requirement> {
    seq(|ts|, i requires 0 <= i < |ts| => TermRequirement(ts[i]))
  }

  function SelectedKeys(s: Store, reqs: seq<Requirement>): set<string> {
    set k | k in s.records && Selects(reqs, s.records[k].labels)
  }

  /** The records a list returns. */
  function Listed(s: Store, reqs: seq<Requirement>): map<string, Record> {
    map k | k in s.records && Selects(reqs, s.records[k].labels) :: s.records[k]
  }

  /** `keys` lists the members of `ks`, each once. */
  ghost predicate Enumerates(keys: seq<string>, ks: set<string>) {
    && (forall i, k | 0 <= i < k < |keys| :: keys[i] != keys[k])
    && (forall i | 0 <= i < |keys| :: keys[i] in ks)
    && (forall k | k in ks :: k in keys)
  }

  function TenantRecords(s: Store, t: Tenant): map<string, Record> {
    map k | k in s.records && Owned(s.records[k].labels, t) :: s.records[k]
  }

  /** What the term asks of a record's name: to be the value, or not to be it. */
  predicate NameFits(t: FieldTerm, labels: Labels) {
    match t.op
    case Equals => NAME_LABEL in labels && labels[NAME_LABEL] == t.value
    case NotEquals => !(NAME_LABEL in labels && labels[NAME_LABEL] == t.value)
    case _ => true
  }

  /** A record is selected exactly when it is the tenant's, of the kind, matches what the user asked of labels,
      and its name fits every term of the field selector. */
  lemma SelectedExactly(s: Store, rest: Rest, t: Tenant, options: ListOptions, key: string)
    requires Convertible(rest, t, options)
    ensures key in SelectedKeys(s, Selector(rest, t, options))
       <==> && key in s.records && Owned(s.records[key].labels, t)
            && KIND_LABEL in s.records[key].labels && s.records[key].labels[KIND_LABEL] == rest.kind
            && (options.labels.Some? ==> forall r | r in options.labels.value :: r.Matches(s.records[key].labels))
            && (options.fields.Some? ==> forall f | f in options.fields.value :: NameFits(f, s.records[key].labels))
  {
    if key in s.records {
      var labels := s.records[key].labels;
      var asked := if options.labels.Some? then options.labels.value else [];
      var terms := if options.fields.Some? then options.fields.value else [];
      var named, owner := FieldRequirements(terms), OwnerRequirements(rest, t);
      assert Selector(rest, t, options) == asked + named + owner;
      SelectsParts(asked, named, owner, labels);
      TermsSelect(terms, labels);
      OwnerSelects(rest, t, labels);
    }
  }

  lemma SelectsParts(a: seq<Requirement>, b: seq<Requirement>, c: seq<Requirement>, labels: Labels)
    ensures Selects(a + b + c, labels) <==> Selects(a, labels) && Selects(b, labels) && Selects(c, labels)
  {
  }

  lemma TermsSelect(terms: seq<FieldTerm>, labels: Labels)
    requires forall i | 0 <= i < |terms| :: UsableTerm(terms[i])
    ensures Selects(FieldRequirements(terms), labels) <==> forall f | f in terms :: NameFits(f, labels)
  {
    var reqs := FieldRequirements(terms);
    assert forall i | 0 <= i < |terms| :: reqs[i].Matches(labels) <==> NameFits(terms[i], labels);
    if Selects(reqs, labels) {
      forall f | f in terms
        ensures NameFits(f, labels)
      {
        var i :| 0 <= i < |terms| && terms[i] == f;
        assert reqs[i] in reqs;
      }
    }
  }

  lemma OwnerSelects(rest: Rest, t: Tenant, labels: Labels)
    ensures Selects(OwnerRequirements(rest, t), labels)
       <==> KIND_LABEL in labels && labels[KIND_LABEL] == rest.kind && Owned(labels, t)
  {
    var owner := OwnerRequirements(rest, t);
    assert Selects(owner, labels) <==> owner[0].Matches(labels) && owner[1].Matches(labels) && owner[2].Matches(labels);
  }

  /** A list sees only the tenant's own records, and depends on nothing else in the store. */
  lemma ListSeesOnlyOwn(s: Store, rest: Rest, t: Tenant, options: ListOptions)
    ensures var reqs := Selector(rest, t, options);
      Listed(s, reqs) == map k | k in TenantRecords(s, t) && Selects(reqs, TenantRecords(s, t)[k].labels)
                           :: TenantRecords(s, t)[k]
  {
    var reqs := Selector(rest, t, options);
    var owner := OwnerRequirements(rest, t);
    assert reqs[|reqs| - 2] == owner[1] && reqs[|reqs| - 1] == owner[2];
    forall k | k in Listed(s, reqs)
      ensures k in TenantRecords(s, t)
    {
      assert owner[1].Matches(s.records[k].labels) && owner[2].Matches(s.records[k].labels);
    }
  }
}
