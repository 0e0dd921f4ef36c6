/**
 Two plurals that share a kind. DeleteCollection lists by the kind label and deletes by the plural of
 its own storage, so it leaves a record that it listed and deletes one that it did not.
 */
module SharedKind {
  import opened Wrappers
  import opened Strings
  import opened Usernames
  import opened Json
  import opened Manifests
  import opened TenantStore
  import opened TenantRuns
  import opened WorkerPool
  import opened CollectionDelete

  /** A dry run that accepts the object as it is. */
  function Accept(): DryRun {
    (j: Json) => Ok(j)
  }

  lemma PutKeeps(j: Json, field: string, value: Option<Json>)
    requires HasMetadata(j) && field != "name"
    ensures HasMetadata(PutField(j, field, value)) && GetName(PutField(j, field, value)) == GetName(j)
    ensures Decode(j).Ok? ==> Decode(PutField(j, field, value)).Ok?
  {
  }

  /** What is stored for an accepted object: same name, the caller's namespace, still decodable. */
  lemma AcceptedObject(rest: Rest, req: Request, obj: Json)
    requires PlainRest(rest) && IsDnsLabel(req.namespace) && HasMetadata(obj) && Decode(obj).Ok?
    ensures DryRunCreate(rest, req, Some(obj), Accept()).Ok?
    ensures var actual := DryRunCreate(rest, req, Some(obj), Accept()).value;
      GetName(actual) == GetName(obj) && GetNamespace(actual) == req.namespace && Decode(actual).Ok?
  {
    var labelled := SetLabels(obj, GetLabels(obj)[CREATED_BY_LABEL := APP_NAME]);
    PutKeeps(obj, "labels", OfStrings(Some(GetLabels(obj)[CREATED_BY_LABEL := APP_NAME])));
    var body := SetNamespace(labelled, RESERVED_NAMESPACE);
    PutKeeps(labelled, "namespace", OfText(RESERVED_NAMESPACE));
    assert body == DryRunBody(rest, obj);
    PutKeeps(body, "namespace", OfText(req.namespace));
    TrimKeepsIdentity(SetNamespace(body, req.namespace));
    CreatedNamespace(rest, req, Some(obj), Accept());
  }

  /** The two plurals: one kind, different groups. */
  predicate Pair(first: Rest, second: Rest) {
    && PlainRest(first) && PlainRest(second)
    && first.kind == second.kind && first.group != second.group && first.Resource() != second.Resource()
  }

  function TwoCreates(first: Rest, second: Rest, req: Request, obj: Json, birth: Birth): seq<Op> {
    [Create(first, req, Some(obj), Accept(), birth), Create(second, req, Some(obj), Accept(), birth)]
  }

  /** A selector that asks for the second group only. */
  function OnlyGroup(group: string): ListOptions {
    ListOptions(Some([Requirement(GROUP_LABEL, Equals, {group})]), None)
  }

  function KeyOf(rest: Rest, t: Tenant, obj: Json): string {
    Key(rest.Resource(), t.cluster, t.namespace, GetName(obj))
  }

  /** The record that an accepted create stores. */
  ghost predicate StoredFor(r: Record, rest: Rest, t: Tenant, obj: Json) {
    && GROUP_LABEL in r.labels && r.labels[GROUP_LABEL] == rest.group
    && Labelled(r.labels, rest.kind, t, GetName(obj))
    && GetName(r.manifest) == GetName(obj) && View(r).Ok?
  }

  lemma GroupStamped(rest: Rest, cluster: string, obj: Json)
    ensures var l := StampedOnCreate(rest, cluster, obj); GROUP_LABEL in l && l[GROUP_LABEL] == rest.group
  {
    LabelsDistinct();
  }

  lemma StampedFor(r: Record, rest: Rest, t: Tenant, obj: Json, actual: Json)
    requires r.labels == StampedOnCreate(rest, t.cluster, actual) && r.manifest == actual
    requires GetName(actual) == GetName(obj) && GetNamespace(actual) == t.namespace && Decode(actual).Ok?
    ensures StoredFor(r, rest, t, obj)
  {
    SystemLabelsWin(rest, t.cluster, map[], actual);
    GroupStamped(rest, t.cluster, actual);
  }

  lemma FreeNameIsStored(s: Store, rest: Rest, req: Request, obj: Json, birth: Birth, cluster: string, actual: Json)
    requires GetUser(req) == Ok(cluster) && DryRunCreate(rest, req, Some(obj), Accept()) == Ok(actual)
    requires Key(rest.Resource(), cluster, GetNamespace(actual), GetName(actual)) !in s.records
    ensures CreateOutcome(s, rest, req, Some(obj), Accept(), birth).0 != s
  {
    var key := Key(rest.Resource(), cluster, GetNamespace(actual), GetName(actual));
    var s' := ApiCreate(s, key, StampedOnCreate(rest, cluster, actual), actual, birth).0;
    assert s'.clock == s.clock + 1;
    assert CreateOutcome(s, rest, req, Some(obj), Accept(), birth).0 == s';
  }

  ghost predicate Adds(s: Store, s': Store, rest: Rest, t: Tenant, obj: Json) {
    var key := KeyOf(rest, t, obj);
    && s'.records.Keys == s.records.Keys + {key}
    && (forall k | k in s.records :: s'.records[k] == s.records[k])
    && StoredFor(s'.records[key], rest, t, obj)
  }

  lemma Created(s: Store, rest: Rest, t: Tenant, req: Request, obj: Json, birth: Birth)
    requires PlainRest(rest) && ActsFor(req, t) && IsDnsLabel(t.namespace) && HasMetadata(obj) && Decode(obj).Ok?
    requires KeyOf(rest, t, obj) !in s.records
    ensures Adds(s, CreateOutcome(s, rest, req, Some(obj), Accept(), birth).0, rest, t, obj)
  {
    AcceptedObject(rest, req, obj);
    var actual := DryRunCreate(rest, req, Some(obj), Accept()).value;
    FreeNameIsStored(s, rest, req, obj, birth, t.cluster, actual);
    CreateTouches(s, rest, req, Some(obj), Accept(), birth);
    var s' := CreateOutcome(s, rest, req, Some(obj), Accept(), birth).0;
    StampedFor(s'.records[KeyOf(rest, t, obj)], rest, t, obj, actual);
  }

  lemma KeysDiffer(first: Rest, second: Rest, t: Tenant, obj: Json)
    requires Pair(first, second)
    ensures KeyOf(first, t, obj) != KeyOf(second, t, obj)
  {
    KeyParts(first.Resource(), t.cluster, t.namespace, GetName(obj));
    KeyParts(second.Resource(), t.cluster, t.namespace, GetName(obj));
  }

  /** The store holds exactly the two records. */
  ghost predicate HoldsTwo(s: Store, first: Rest, second: Rest, t: Tenant, obj: Json) {
    var k1, k2 := KeyOf(first, t, obj), KeyOf(second, t, obj);
    && k1 != k2 && s.records.Keys == {k1, k2}
    && StoredFor(s.records[k1], first, t, obj) && StoredFor(s.records[k2], second, t, obj)
  }

  lemma TwoAdded(s: Store, s1: Store, s2: Store, first: Rest, second: Rest, t: Tenant, obj: Json)
    requires s.records == map[] && KeyOf(first, t, obj) != KeyOf(second, t, obj)
    requires Adds(s, s1, first, t, obj) && Adds(s1, s2, second, t, obj)
    ensures HoldsTwo(s2, first, second, t, obj)
  {
  }

  lemma CreatesDisciplined(first: Rest, second: Rest, t: Tenant, req: Request, obj: Json, birth: Birth)
    requires Pair(first, second) && ActsFor(req, t) && DotFree(t)
    ensures AllDisciplined(Store(map[], 0), TwoCreates(first, second, req, obj, birth))
  {
  }

  lemma TwoCreated(first: Rest, second: Rest, t: Tenant, req: Request, obj: Json, birth: Birth)
    requires Pair(first, second) && ActsFor(req, t) && DotFree(t) && IsDnsLabel(t.namespace)
    requires HasMetadata(obj) && Decode(obj).Ok?
    ensures HoldsTwo(Run(Store(map[], 0), TwoCreates(first, second, req, obj, birth)), first, second, t, obj)
  {
    var ops, s0 := TwoCreates(first, second, req, obj, birth), Store(map[], 0);
    var s1 := CreateOutcome(s0, first, req, Some(obj), Accept(), birth).0;
    var s2 := CreateOutcome(s1, second, req, Some(obj), Accept(), birth).0;
    RunTwo(s0, ops[0], ops[1]);
    assert Run(s0, ops) == s2;
    KeysDiffer(first, second, t, obj);
    Created(s0, first, t, req, obj, birth);
    Created(s1, second, t, req, obj, birth);
    TwoAdded(s0, s1, s2, first, second, t, obj);
  }

  lemma RunTwo(s: Store, op: Op, op': Op)
    ensures Run(s, [op, op']) == Effect(Effect(s, op), op')
  {
    assert [op, op'][..1] == [op] && [op][..0] == [];
    assert Run(s, [op][..0]) == s;
    assert Run(s, [op]) == Effect(s, op);
  }

  lemma OnlySecondSelected(s: Store, first: Rest, second: Rest, t: Tenant, obj: Json)
    requires first.group != second.group && first.kind == second.kind && HoldsTwo(s, first, second, t, obj)
    ensures SelectedKeys(s, Selector(first, t, OnlyGroup(second.group))) == {KeyOf(second, t, obj)}
  {
    var k1, k2 := KeyOf(first, t, obj), KeyOf(second, t, obj);
    var reqs, owner := Selector(first, t, OnlyGroup(second.group)), OwnerRequirements(first, t);
    var asked := Requirement(GROUP_LABEL, Equals, {second.group});
    assert reqs == [asked] + owner;
    assert reqs[0] == asked && !asked.Matches(s.records[k1].labels);
    OwnerMatches(first, t, s.records[k2].labels, GetName(obj));
    assert asked.Matches(s.records[k2].labels);
  }

  lemma OwnerMatches(rest: Rest, t: Tenant, labels: Labels, name: string)
    requires Labelled(labels, rest.kind, t, name)
    ensures forall r | r in OwnerRequirements(rest, t) :: r.Matches(labels)
  {
  }

  /** One item, one worker, no failure. */
  function OneItemRun(): seq<Action> {
    [Send, Close, Take(0), Answered(0, Gone), Drain(0), Signal(0), Return]
  }

  lemma OneItemDeleted(key: string, records: Records)
    requires key in records
    ensures var job := Job([Some(key)], DEFAULT_DELETE_COLLECTION_WORKERS);
      && Execute(job, Start(job, records), OneItemRun()).Some?
      && Execute(job, Start(job, records), OneItemRun()).value.caller == Returned(None)
  {
    var job := Job([Some(key)], DEFAULT_DELETE_COLLECTION_WORKERS);
    var acts, s := [], Start(job, records);
    acts := Walk(job, records, acts, s, Send);
    s := Apply(job, s, Send);
    acts := Walk(job, records, acts, s, Close);
    s := Apply(job, s, Close);
    acts := Walk(job, records, acts, s, Take(0));
    s := Apply(job, s, Take(0));
    acts := Walk(job, records, acts, s, Answered(0, Gone));
    s := Apply(job, s, Answered(0, Gone));
    acts := Walk(job, records, acts, s, Drain(0));
    s := Apply(job, s, Drain(0));
    acts := Walk(job, records, acts, s, Signal(0));
    s := Apply(job, s, Signal(0));
    acts := Walk(job, records, acts, s, Return);
    assert acts == OneItemRun();
  }

  lemma ItemOfSecond(s: Store, first: Rest, second: Rest, t: Tenant, obj: Json)
    requires HoldsTwo(s, first, second, t, obj)
    ensures ItemsOf(first, t, [View(s.records[KeyOf(second, t, obj)]).value]) == [Some(KeyOf(first, t, obj))]
  {
    var r := s.records[KeyOf(second, t, obj)];
    TransformKeepsIdentity(r.envelope, r.manifest);
  }

  /** What a DeleteCollection through the first plural did whose selector admits only the second: listed the
      second record, returned without an error, left that record, deleted the other. */
  ghost predicate WrongOneDeleted(s: Store, first: Rest, second: Rest, t: Tenant, obj: Json) {
    var k1, k2 := KeyOf(first, t, obj), KeyOf(second, t, obj);
    && k1 in s.records && k2 in s.records && View(s.records[k2]).Ok?
    && var objs := [View(s.records[k2]).value];
       var job := Job(ItemsOf(first, t, objs), DEFAULT_DELETE_COLLECTION_WORKERS);
       && ListAnswer(s, first, t, OnlyGroup(second.group), [k2], objs)
       && Execute(job, Start(job, s.records), OneItemRun()).Some?
       && var final := Execute(job, Start(job, s.records), OneItemRun()).value;
          final.caller == Returned(None) && final.records == s.records - {k1} && k2 in final.records
  }

  lemma WrongOne(s: Store, first: Rest, second: Rest, t: Tenant, obj: Json)
    requires Pair(first, second) && HoldsTwo(s, first, second, t, obj)
    ensures WrongOneDeleted(s, first, second, t, obj)
  {
    var k1, k2 := KeyOf(first, t, obj), KeyOf(second, t, obj);
    OnlySecondSelected(s, first, second, t, obj);
    ItemOfSecond(s, first, second, t, obj);
    OneItemDeleted(k1, s.records);
    var job := Job([Some(k1)], DEFAULT_DELETE_COLLECTION_WORKERS);
    NilRemovesTargets(job, s.records, OneItemRun());
    assert job.items[0] == Some(k1) && TargetKeys(job) == {k1};
  }

  /** Two creates, each keeping every rule, are enough for it to happen. */
  lemma ListsOneDeletesOther(first: Rest, second: Rest, t: Tenant, req: Request, obj: Json, birth: Birth)
    requires Pair(first, second) && ActsFor(req, t) && DotFree(t) && IsDnsLabel(t.namespace)
    requires HasMetadata(obj) && Decode(obj).Ok?
    ensures AllDisciplined(Store(map[], 0), TwoCreates(first, second, req, obj, birth))
    ensures WrongOneDeleted(Run(Store(map[], 0), TwoCreates(first, second, req, obj, birth)), first, second, t, obj)
  {
    CreatesDisciplined(first, second, t, req, obj, birth);
    TwoCreated(first, second, t, req, obj, birth);
    WrongOne(Run(Store(map[], 0), TwoCreates(first, second, req, obj, birth)), first, second, t, obj);
  }

  const FOOS := Rest("foos", "Foo", "a", "v1", true)
  const BARS := Rest("bars", "Foo", "b", "v1", true)
  const TENANT := Tenant("c", "n")
  const CALLER := Request(Some(PrintUsername("abcd", "c", "n")), "n")
  const X := Object(map["kind" := Text("Foo"), METADATA := Object(map["name" := Text("x")])])

  /** For instance the plurals foos and bars of kind Foo, in groups a and b, an object x, and the printed
      account of a tenant. */
  lemma FoosAndBars(birth: Birth)
    ensures AllDisciplined(Store(map[], 0), TwoCreates(FOOS, BARS, CALLER, X, birth))
    ensures WrongOneDeleted(Run(Store(map[], 0), TwoCreates(FOOS, BARS, CALLER, X, birth)), FOOS, BARS, TENANT, X)
  {
    PlainPair();
    AccountActs();
    assert HasMetadata(X) && Decode(X).Ok?;
    ListsOneDeletesOther(FOOS, BARS, TENANT, CALLER, X, birth);
  }

  lemma PlainPair()
    ensures Pair(FOOS, BARS)
  {
    BeforeAll("foos");
    BeforeAll("bars");
    assert "foos"[0] != "bars"[0] && "a"[0] != "b"[0];
  }

  lemma AccountActs()
    ensures ActsFor(CALLER, TENANT) && DotFree(TENANT) && IsDnsLabel("n")
  {
    assert !Contains("n", "abcd" + "-") by {
      assert |"abcd" + "-"| == 5 && |"n"| == 1;
    }
    PrintedUserActsExactly("abcd", TENANT, "n");
  }
}
