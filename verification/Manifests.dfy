/**
 The envelope around a stored object: its key, and the translation between the stored
 manifest and the object a client sees (transformManifest and trimResult).
 */
module Manifests {
  import opened Wrappers
  import opened Strings
  import opened Json

  // ---------------------------------------------------------------- keys

  /** getNormalizedManifestName: the record's name in the reserved namespace. */
  function Key(resource: string, cluster: string, namespace: string, name: string): string {
    resource + "." + cluster + "." + namespace + "." + name
  }

  function TenantPrefix(cluster: string, namespace: string): string {
    cluster + "." + namespace + "."
  }

  /** The resource part of a record name. */
  function ResourceOf(key: string): string {
    Before(key, '.')
  }

  lemma KeyParts(resource: string, cluster: string, namespace: string, name: string)
    ensures Key(resource, cluster, namespace, name)
         == resource + ['.'] + (cluster + ['.'] + (namespace + ['.'] + name))
    ensures Key(resource, cluster, namespace, name)
         == resource + ['.'] + (TenantPrefix(cluster, namespace) + name)
    ensures Free(resource, '.') ==> ResourceOf(Key(resource, cluster, namespace, name)) == resource
  {
    var tail := TenantPrefix(cluster, namespace) + name;
    assert Key(resource, cluster, namespace, name) == resource + ['.'] + tail;
    if Free(resource, '.') {
      BeforeSeparator(resource, '.', tail);
    }
  }

  /** Equal keys come from equal (resource, cluster, namespace, name); names may contain dots. */
  lemma KeyInjective(r: string, c: string, n: string, m: string, r': string, c': string, n': string, m': string)
    requires Free(r, '.') && Free(c, '.') && Free(n, '.')
    requires Free(r', '.') && Free(c', '.') && Free(n', '.')
    requires Key(r, c, n, m) == Key(r', c', n', m')
    ensures r == r' && c == c' && n == n' && m == m'
  {
    KeyParts(r, c, n, m);
    KeyParts(r', c', n', m');
    SplitOnce(r, c + ['.'] + (n + ['.'] + m), r', c' + ['.'] + (n' + ['.'] + m'), '.');
    SplitOnce(c, n + ['.'] + m, c', n' + ['.'] + m', '.');
    SplitOnce(n, m, n', m', '.');
  }

  /**
   Without the dot-free assumption: two tenants share a record name for some pair of object
   names exactly when one tenant's "cluster.namespace." is a prefix of the other's.
   */
  lemma TenantsCollideExactly(r: string, c: string, n: string, c': string, n': string)
    ensures (exists m: string, m': string :: Key(r, c, n, m) == Key(r, c', n', m'))
       <==> TenantPrefix(c, n) <= TenantPrefix(c', n') || TenantPrefix(c', n') <= TenantPrefix(c, n)
  {
    var p, p' := TenantPrefix(c, n), TenantPrefix(c', n');
    forall m: string, m': string | Key(r, c, n, m) == Key(r, c', n', m')
      ensures p <= p' || p' <= p
    {
      KeyParts(r, c, n, m);
      KeyParts(r, c', n', m');
      assert p + m == Key(r, c, n, m)[|r| + 1..] == p' + m';
      assert if |p| <= |p'| then p == (p' + m')[..|p|] == p'[..|p|] else p' == (p + m)[..|p'|] == p[..|p'|];
    }
    if p <= p' {
      CollidingNames(r, c, n, c', n');
    } else if p' <= p {
      CollidingNames(r, c', n', c, n);
    }
  }

  lemma CollidingNames(r: string, c: string, n: string, c': string, n': string)
    requires TenantPrefix(c, n) <= TenantPrefix(c', n')
    ensures exists m: string :: Key(r, c, n, m) == Key(r, c', n', "")
  {
    var p, p' := TenantPrefix(c, n), TenantPrefix(c', n');
    var m := p'[|p|..];
    KeyParts(r, c, n, m);
    KeyParts(r, c', n', "");
    assert p + m == p' + "";
    assert Key(r, c, n, m) == Key(r, c', n', "");
  }

  /** A dotted cluster id really does collide with another tenant's records. */
  lemma DottedClusterCollides()
    ensures Key("foos", "a.b", "c", "n") == Key("foos", "a", "b", "c.n")
  {
  }

  // ---------------------------------------------------------------- envelope

  type Setting = (string, Option<Json>)

  function MapOf(ps: seq<Setting>, k: nat): map<string, Option<Json>>
    requires k <= |ps|
  {
    if k == 0 then map[] else MapOf(ps, k - 1)[ps[k - 1].0 := ps[k - 1].1]
  }

  /** Server-maintained metadata of a record; 0 is the empty resourceVersion, "" an absent string. */
  datatype Envelope = Envelope(
    generation: int,
    created: string,
    resourceVersion: nat,
    uid: string,
    graceSeconds: Option<int>,
    deleted: Option<string>,
    finalizers: Option<seq<string>>)
  {
    /** What transformManifest writes over the object's metadata, in order: a value, or None to remove. */
    function Settings(): seq<Setting> {
      [
        ("generation", if generation == 0 then None else Some(Number(generation))),
        ("creationTimestamp", OfText(created)),
        ("resourceVersion", if resourceVersion == 0 then None else Some(Number(resourceVersion))),
        ("uid", OfText(uid)),
        ("deletionGracePeriodSeconds", if graceSeconds.None? then None else Some(Number(graceSeconds.value))),
        ("deletionTimestamp", if deleted.None? then None else Some(Text(deleted.value))),
        ("finalizers", FinalizerList())
      ]
    }

    function Overrides(): map<string, Option<Json>> {
      MapOf(Settings(), 7)
    }

    function FinalizerList(): Option<Json> {
      match finalizers
      case None => None
      case Some(fs) => Some(List(seq(|fs|, i requires 0 <= i < |fs| => Text(fs[i]))))
    }
  }

  const TRIMMED: set<string> := {"creationTimestamp", "managedFields", "resourceVersion"}

  function Patch(m: Fields, p: map<string, Option<Json>>): Fields {
    map k | k in m.Keys + p.Keys && (k in p ==> p[k].Some?) :: if k in p then p[k].value else m[k]
  }

  /** SetAnnotations(GetAnnotations()): annotations that are not a string map disappear. */
  function KeepAnnotations(m: Fields): Fields {
    if "annotations" in m && FieldStrings(m, "annotations").None? then m - {"annotations"} else m
  }

  /** Metadata is replaced by `m`, except that an absent metadata object stays absent when `m` is empty. */
  function Replace(j: Json, m: Fields): Json
    requires j.Object?
  {
    if METADATA !in j.fields && m == map[] then j else WithMetadata(j, m)
  }

  /** The client's view of manifest `j` under envelope `e`. */
  function Transformed(e: Envelope, j: Json): Json {
    if Settable(j) then Replace(j, KeepAnnotations(Patch(Metadata(j), e.Overrides()))) else j
  }

  function Trimmed(j: Json): Json {
    if HasMetadata(j) then WithMetadata(j, Metadata(j) - TRIMMED) else j
  }

  lemma PutFieldReplaces(j: Json, m: Fields, name: string, v: Option<Json>)
    requires Settable(j)
    requires METADATA in j.fields || name !in m
    ensures PutField(Replace(j, m), name, v) == Replace(j, Patch(m, map[name := v]))
    ensures Metadata(Replace(j, m)) == m
  {
    var r := Replace(j, m);
    var p := Patch(m, map[name := v]);
    assert METADATA in j.fields ==> r == WithMetadata(j, m);
    assert Metadata(r) == m;
    match v {
      case Some(value) =>
        assert p == m[name := value];
        assert r.fields[METADATA := Object(p)] == j.fields[METADATA := Object(p)];
      case None =>
        assert p == m - {name};
        assert HasMetadata(r) ==> r.fields[METADATA := Object(p)] == j.fields[METADATA := Object(p)];
    }
  }

  /** The first k setters applied to j. */
  ghost function PutAll(j: Json, ps: seq<Setting>, k: nat): Json
    requires k <= |ps|
  {
    if k == 0 then j else PutField(PutAll(j, ps, k - 1), ps[k - 1].0, ps[k - 1].1)
  }

  ghost predicate DistinctNames(ps: seq<Setting>) {
    forall i, k | 0 <= i < k < |ps| :: ps[i].0 != ps[k].0
  }

  lemma PatchStep(m: Fields, p: map<string, Option<Json>>, name: string, v: Option<Json>)
    ensures Patch(Patch(m, p), map[name := v]) == Patch(m, p[name := v])
  {
  }

  lemma {:induction false} MapOfNames(ps: seq<Setting>, k: nat, f: string)
    requires k < |ps| && DistinctNames(ps)
    ensures f in MapOf(ps, k) ==> exists i | 0 <= i < k :: ps[i].0 == f
    ensures ps[k].0 !in MapOf(ps, k)
  {
    if k > 0 {
      MapOfNames(ps, k - 1, f);
      MapOfNames(ps, k - 1, ps[k].0);
    }
  }

  lemma {:induction false} PutAllReplaces(j: Json, ps: seq<Setting>, k: nat)
    requires k <= |ps| && DistinctNames(ps) && Settable(j)
    ensures PutAll(j, ps, k) == Replace(j, Patch(Metadata(j), MapOf(ps, k)))
  {
    var m := Metadata(j);
    if k == 0 {
      assert Patch(m, map[]) == m;
      assert METADATA in j.fields ==> Replace(j, m).fields == j.fields;
    } else {
      PutAllReplaces(j, ps, k - 1);
      var p, name, v := MapOf(ps, k - 1), ps[k - 1].0, ps[k - 1].1;
      MapOfNames(ps, k - 1, name);
      assert METADATA !in j.fields ==> name !in Patch(m, p);
      PutFieldReplaces(j, Patch(m, p), name, v);
      PatchStep(m, p, name, v);
    }
  }

  lemma {:induction false} PutAllUnsettable(j: Json, ps: seq<Setting>, k: nat)
    requires k <= |ps| && !Settable(j)
    ensures PutAll(j, ps, k) == j
  {
    if k > 0 {
      PutAllUnsettable(j, ps, k - 1);
    }
  }

  const OVERRIDDEN: set<string> := {
    "generation", "creationTimestamp", "resourceVersion", "uid",
    "deletionGracePeriodSeconds", "deletionTimestamp", "finalizers"
  }

  lemma OverridesNames(e: Envelope)
    ensures DistinctNames(e.Settings())
    ensures e.Overrides().Keys == OVERRIDDEN
  {
    var ps := e.Settings();
    assert ps[0].0[0] == 'g' && ps[1].0[0] == 'c' && ps[2].0[0] == 'r' && ps[3].0[0] == 'u' && ps[6].0[0] == 'f';
    assert |ps[4].0| != |ps[5].0| && ps[4].0[0] == ps[5].0[0] == 'd';
    assert MapOf(ps, 1).Keys == {"generation"};
    assert MapOf(ps, 2).Keys == {"generation", "creationTimestamp"};
    assert MapOf(ps, 3).Keys == {"generation", "creationTimestamp", "resourceVersion"};
    assert MapOf(ps, 4).Keys == {"generation", "creationTimestamp", "resourceVersion", "uid"};
    assert MapOf(ps, 5).Keys
        == {"generation", "creationTimestamp", "resourceVersion", "uid", "deletionGracePeriodSeconds"};
    assert MapOf(ps, 6).Keys
        == {"generation", "creationTimestamp", "resourceVersion", "uid", "deletionGracePeriodSeconds",
             "deletionTimestamp"};
  }

  lemma PlainNames()
    ensures OVERRIDDEN !! {"name", "namespace", "labels", "annotations", "managedFields"}
    ensures TRIMMED !! {"name", "namespace", "labels", "annotations"}
    ensures TRIMMED <= OVERRIDDEN + {"managedFields"}
  {
  }

  lemma AnnotationsReplaced(m: Fields)
    ensures Patch(m, map["annotations" := OfStrings(FieldStrings(m, "annotations"))]) == KeepAnnotations(m)
  {
    var a := FieldStrings(m, "annotations");
    if a.Some? {
      assert OfStrings(a).value.fields == m["annotations"].fields;
    }
  }

  lemma SettingsTransform(e: Envelope, j: Json)
    ensures var r := PutAll(j, e.Settings(), 7);
      Transformed(e, j) == PutField(r, "annotations", OfStrings(FieldStrings(Metadata(r), "annotations")))
  {
    var ps := e.Settings();
    var r := PutAll(j, ps, 7);
    OverridesNames(e);
    if Settable(j) {
      PutAllReplaces(j, ps, 7);
      var m := Patch(Metadata(j), e.Overrides());
      PlainNames();
      assert METADATA !in j.fields ==> m.Keys <= OVERRIDDEN;
      assert METADATA in j.fields || "annotations" !in m;
      PutFieldReplaces(j, m, "annotations", OfStrings(FieldStrings(m, "annotations")));
      AnnotationsReplaced(m);
    } else {
      PutAllUnsettable(j, ps, 7);
    }
  }

  /** transformManifest, setter by setter. */
  method TransformManifest(e: Envelope, raw: Json) returns (r: Result<Json>)
    ensures r == if Decode(raw).Ok? then Ok(Transformed(e, raw)) else Err(Internal)
  {
    var decoded := Decode(raw);
    if decoded.Err? {
      return Err(Internal);
    }
    var result := decoded.value;
    ghost var ps := e.Settings();
    result := PutField(result, "generation", if e.generation == 0 then None else Some(Number(e.generation)));
    assert result == PutAll(raw, ps, 1);
    result := PutField(result, "creationTimestamp", OfText(e.created));
    assert result == PutAll(raw, ps, 2);
    result := PutField(result, "resourceVersion",
                       if e.resourceVersion == 0 then None else Some(Number(e.resourceVersion)));
    assert result == PutAll(raw, ps, 3);
    result := PutField(result, "uid", OfText(e.uid));
    assert result == PutAll(raw, ps, 4);
    result := PutField(result, "deletionGracePeriodSeconds",
                       if e.graceSeconds.None? then None else Some(Number(e.graceSeconds.value)));
    assert result == PutAll(raw, ps, 5);
    result := PutField(result, "deletionTimestamp", if e.deleted.None? then None else Some(Text(e.deleted.value)));
    assert result == PutAll(raw, ps, 6);
    result := PutField(result, "finalizers", e.FinalizerList());
    assert result == PutAll(raw, ps, 7);
    var annotations := FieldStrings(Metadata(result), "annotations");
    SettingsTransform(e, raw);
    result := PutField(result, "annotations", OfStrings(annotations));
    r := Ok(result);
  }

  /** trimResult: three removals. */
  method TrimResult(j: Json) returns (r: Json)
    ensures r == Trimmed(j)
  {
    r := RemoveField(j, "creationTimestamp");
    r := RemoveField(r, "managedFields");
    r := RemoveField(r, "resourceVersion");
    if HasMetadata(j) {
      assert Metadata(r) == Metadata(j) - TRIMMED;
      assert r.fields == Trimmed(j).fields;
    }
  }

  // ---------------------------------------------------------------- what a client sees

  /** Metadata holds the value under the name, or nothing there when there is no value. */
  predicate Shows(m: Fields, name: string, value: Option<Json>) {
    match value
    case Some(v) => name in m && m[name] == v
    case None => name !in m
  }

  lemma {:induction false} SettingFound(ps: seq<Setting>, k: nat, i: nat)
    requires i < k <= |ps| && DistinctNames(ps)
    ensures ps[i].0 in MapOf(ps, k) && MapOf(ps, k)[ps[i].0] == ps[i].1
  {
    if i < k - 1 {
      SettingFound(ps, k - 1, i);
      assert ps[i].0 != ps[k - 1].0;
    }
  }

  lemma SettingSeen(e: Envelope, j: Json, i: nat)
    requires Settable(j) && i < 7
    ensures Shows(Metadata(Transformed(e, j)), e.Settings()[i].0, e.Settings()[i].1)
  {
    var ps, p := e.Settings(), e.Overrides();
    OverridesNames(e);
    PlainNames();
    SettingFound(ps, 7, i);
    var seen := KeepAnnotations(Patch(Metadata(j), p));
    assert Metadata(Transformed(e, j)) == seen;
    assert ps[i].0 != "annotations";
  }

  /** Each field of the envelope is seen under its own name, and is absent when the envelope has none. */
  lemma EnvelopeSeen(e: Envelope, j: Json)
    requires Settable(j)
    ensures var m := Metadata(Transformed(e, j));
      && Shows(m, "generation", if e.generation != 0 then Some(Number(e.generation)) else None)
      && Shows(m, "creationTimestamp", if e.created != "" then Some(Text(e.created)) else None)
      && Shows(m, "resourceVersion", if e.resourceVersion != 0 then Some(Number(e.resourceVersion)) else None)
      && Shows(m, "uid", if e.uid != "" then Some(Text(e.uid)) else None)
      && Shows(m, "deletionGracePeriodSeconds",
               if e.graceSeconds.Some? then Some(Number(e.graceSeconds.value)) else None)
      && Shows(m, "deletionTimestamp", if e.deleted.Some? then Some(Text(e.deleted.value)) else None)
  {
    SettingSeen(e, j, 0);
    SettingSeen(e, j, 1);
    SettingSeen(e, j, 2);
    SettingSeen(e, j, 3);
    SettingSeen(e, j, 4);
    SettingSeen(e, j, 5);
  }

  /** So are the finalizers, one by one. */
  lemma FinalizersSeen(e: Envelope, j: Json)
    requires Settable(j)
    ensures var m := Metadata(Transformed(e, j));
      match e.finalizers
      case None => "finalizers" !in m
      case Some(fs) =>
        && "finalizers" in m && m["finalizers"].List? && |m["finalizers"].items| == |fs|
        && forall i | 0 <= i < |fs| :: m["finalizers"].items[i] == Text(fs[i])
  {
    SettingSeen(e, j, 6);
  }

  predicate SameBesideMetadata(j: Json, j': Json) {
    if j.Object? then j'.Object? && j'.fields - {METADATA} == j.fields - {METADATA} else j' == j
  }

  /** Everything else is seen as it was stored; only annotations that are not a string map disappear. */
  lemma RestSeen(e: Envelope, j: Json, name: string)
    ensures SameBesideMetadata(j, Transformed(e, j))
    ensures name !in {"generation", "creationTimestamp", "resourceVersion", "uid", "deletionGracePeriodSeconds",
                      "deletionTimestamp", "finalizers"}
        && (name == "annotations" ==> FieldStrings(Metadata(j), "annotations").Some?)
        ==> Shows(Metadata(Transformed(e, j)), name, if name in Metadata(j) then Some(Metadata(j)[name]) else None)
  {
    if Settable(j) {
      OverridesNames(e);
      assert Metadata(Transformed(e, j)) == KeepAnnotations(Patch(Metadata(j), e.Overrides()));
    }
  }

  /** Trimming takes creationTimestamp, managedFields and resourceVersion out of the metadata, and nothing else. */
  lemma TrimExactly(j: Json, name: string)
    ensures Shows(Metadata(Trimmed(j)), name,
                  if name in Metadata(j) && name !in {"creationTimestamp", "managedFields", "resourceVersion"}
                  then Some(Metadata(j)[name]) else None)
    ensures SameBesideMetadata(j, Trimmed(j))
  {
  }

  // ---------------------------------------------------------------- read, then write back

  lemma PatchTwice(m: Fields, p: map<string, Option<Json>>, cut: set<string>)
    requires forall k | k in cut && k in m :: k in p
    ensures Patch(Patch(m, p) - cut, p) == Patch(m, p)
  {
  }

  lemma KeepAnnotationsTwice(m: Fields, p: map<string, Option<Json>>, cut: set<string>)
    requires "annotations" !in p && "annotations" !in cut
    requires Patch(Patch(m, p) - cut, p) == Patch(m, p)
    ensures KeepAnnotations(Patch(KeepAnnotations(Patch(m, p)) - cut, p)) == KeepAnnotations(Patch(m, p))
  {
    var q := Patch(m, p);
    var k := KeepAnnotations(q);
    if k != q {
      assert Patch(k - cut, p) == Patch(q - cut, p) - {"annotations"};
      assert "annotations" !in Patch(k - cut, p);
    }
  }

  /** On metadata: what a client sees is stable under trim-and-store iff nothing trimmed goes missing. */
  lemma SeenAgainExactly(m: Fields, p: map<string, Option<Json>>, cut: set<string>, f: string)
    requires f in cut && cut <= p.Keys + {f} && f !in p
    requires f != "annotations" && "annotations" !in p && "annotations" !in cut
    ensures var seen := KeepAnnotations(Patch(m, p));
      KeepAnnotations(Patch(seen - cut, p)) == seen <==> f !in m
  {
    var seen := KeepAnnotations(Patch(m, p));
    if f !in m {
      PatchTwice(m, p, cut);
      KeepAnnotationsTwice(m, p, cut);
    } else {
      assert f in seen;
      assert f !in KeepAnnotations(Patch(seen - cut, p));
    }
  }

  lemma TransformOfObject(e: Envelope, j: Json)
    requires HasMetadata(j)
    ensures Transformed(e, j) == WithMetadata(j, KeepAnnotations(Patch(Metadata(j), e.Overrides())))
  {
  }

  /**
   Reading an object and storing what was read changes nothing a client can see, exactly when
   the stored metadata has no managedFields.
   */
  lemma ReadWriteBackExactly(e: Envelope, j: Json)
    ensures Transformed(e, Trimmed(Transformed(e, j))) == Transformed(e, j)
       <==> "managedFields" !in Metadata(j)
  {
    if Settable(j) {
      OverridesNames(e);
      PlainNames();
      var p, m, t := e.Overrides(), Metadata(j), Transformed(e, j);
      var seen := KeepAnnotations(Patch(m, p));
      if METADATA !in j.fields && seen == map[] {
        assert t == j && Trimmed(t) == j;
      } else {
        assert t == WithMetadata(j, seen);
        var back := seen - TRIMMED;
        var again := KeepAnnotations(Patch(back, p));
        var stored := Trimmed(t);
        assert HasMetadata(stored) && Metadata(stored) == back;
        TransformOfObject(e, stored);
        assert Transformed(e, stored).fields == j.fields[METADATA := Object(again)];
        SeenAgainExactly(m, p, TRIMMED, "managedFields");
        assert again != seen ==> Metadata(Transformed(e, stored)) != Metadata(t);
      }
    }
  }

  /** Whether a stored manifest decodes is not affected by reading and storing it back. */
  lemma ReadWriteBackDecodes(e: Envelope, j: Json)
    ensures Decode(Trimmed(Transformed(e, j))).Ok? == Decode(j).Ok?
  {
  }

  /** The name, namespace and labels a client reads are the stored ones. */
  lemma TransformKeepsIdentity(e: Envelope, j: Json)
    ensures GetName(Transformed(e, j)) == GetName(j)
    ensures GetNamespace(Transformed(e, j)) == GetNamespace(j)
    ensures GetLabels(Transformed(e, j)) == GetLabels(j)
  {
    if Settable(j) {
      OverridesNames(e);
      PlainNames();
      var seen := KeepAnnotations(Patch(Metadata(j), e.Overrides()));
      assert Metadata(Transformed(e, j)) == seen;
      SamePlainFields(Metadata(j), e.Overrides());
    }
  }

  lemma SamePlainFields(m: Fields, p: map<string, Option<Json>>)
    requires p.Keys !! {"name", "namespace", "labels"}
    ensures var s := KeepAnnotations(Patch(m, p));
      forall f | f in {"name", "namespace", "labels"} :: (f in s <==> f in m) && (f in m ==> s[f] == m[f])
  {
  }

  lemma TrimKeepsIdentity(j: Json)
    ensures GetName(Trimmed(j)) == GetName(j)
    ensures GetNamespace(Trimmed(j)) == GetNamespace(j)
    ensures GetLabels(Trimmed(j)) == GetLabels(j)
    ensures Metadata(Trimmed(j)).Keys !! TRIMMED
  {
  }
}
