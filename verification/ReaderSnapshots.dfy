/**
 The informer goroutine and the request handlers, interleaved. An event becomes a script of
 locked steps: discovery entries are changed one locked call at a time, the two maps inside one
 critical section that first changes one map and then the other. Readers hold the read lock for
 two separate lookups. The route table has its own lock and is not read here.
 */
module ReaderSnapshots {
  import opened Wrappers
  import opened Strings
  import opened Discovery
  import opened Priority
  import opened Registration

  type Storages = map<string, Storage>
  type Scopes = map<string, RequestScope>

  datatype Edit = Erase(plural: string) | Store(spec: Spec, version: Version)
  {
    function OnStorages(m: Storages): Storages {
      if Erase? then m - {plural} else m[spec.plural := StorageOf(spec, version)]
    }

    function OnScopes(m: Scopes): Scopes {
      if Erase? then m - {plural} else m[spec.plural := ScopeOf(spec, version)]
    }
  }

  datatype Item = Main(spec: Spec) | Scale(spec: Spec) | Unlist(plural: string) | Critical(edit: Edit)

  type Script = seq<Item>

  function RemoveScript(plural: string): Script {
    [Unlist(plural), Critical(Erase(plural))]
  }

  function AddScript(entries: Entries, crd: Crd, services: ApiServices): Script {
    match RegistrableVersion(crd)
    case None => []
    case Some(v) =>
      if Outranked(entries, CallFor(crd.spec.group, v.name, crd.spec.plural, services)) then []
      else [Main(crd.spec)] + (if ListsScale(crd.spec) then [Scale(crd.spec)] else []) + [Critical(Store(crd.spec, v))]
  }

  /** The locked steps of one event; the priority decision does not depend on the maps. */
  function EventScript(entries: Entries, e: Event): Script {
    match e
    case Added(crd, services) => if Skipped(crd.spec) then [] else AddScript(entries, crd, services)
    case Updated(prior, crd, services) =>
      if crd.terminating || prior.spec == crd.spec || Skipped(crd.spec) then []
      else RemoveScript(prior.spec.plural) + AddScript(entries, crd, services)
    case Deleted(crd) => RemoveScript(crd.spec.plural)
  }

  datatype Reader =
    | Locked(resource: string)
    | HasScope(resource: string, scope: Option<RequestScope>)
    | HasBoth(resource: string, scope: Option<RequestScope>, storage: Option<Storage>)

  datatype Seen = Seen(resource: string, scope: Option<RequestScope>, storage: Option<Storage>)

  /** `phase` counts the steps into the critical section at the head of the script; it is non-zero
      exactly while the write lock is held. */
  datatype System = System(
    handled: seq<Event>,
    script: Script,
    phase: nat,
    storages: Storages,
    scopes: Scopes,
    listed: Slice,
    entries: Entries,
    readers: map<nat, Reader>,
    answers: seq<Seen>)

  datatype Action =
    | Begin(e: Event) | Step
    | RLock(id: nat, resource: string) | ReadScope(id: nat) | ReadStorage(id: nat) | RUnlock(id: nat)

  ghost predicate Enabled(s: System, a: Action) {
    match a
    case Begin(_) => s.script == []
    case Step => s.script != [] && (s.script[0].Critical? && s.phase == 0 ==> s.readers == map[])
    case RLock(id, _) => s.phase == 0 && id !in s.readers
    case ReadScope(id) => id in s.readers && s.readers[id].Locked?
    case ReadStorage(id) => id in s.readers && s.readers[id].HasScope?
    case RUnlock(id) => id in s.readers && s.readers[id].HasBoth?
  }

  function Get<T>(m: map<string, T>, k: string): Option<T> {
    if k in m then Some(m[k]) else None
  }

  /** The priority map after an event, which depends on no other structure. */
  function EntriesAfter(entries: Entries, e: Event): Entries {
    Handle(Handler(map[], map[], [], [], entries), e).entries
  }

  function OnListed(s: Slice, i: Item): Slice {
    match i
    case Main(spec) => Upsert(s, MainEntry(spec))
    case Scale(spec) => Upsert(s, ScaleEntry(spec))
    case Unlist(plural) => Without(s, plural)
    case Critical(_) => s
  }

  function Next(s: System, a: Action): System
    requires a.Step? ==> s.script != []
    requires (a.ReadScope? || a.ReadStorage? || a.RUnlock?) ==> a.id in s.readers
    requires a.ReadStorage? ==> s.readers[a.id].HasScope?
    requires a.RUnlock? ==> s.readers[a.id].HasBoth?
  {
    match a
    case Begin(e) =>
      s.(script := EventScript(s.entries, e), entries := EntriesAfter(s.entries, e), handled := s.handled + [e])
    case Step =>
      if !s.script[0].Critical? then s.(listed := OnListed(s.listed, s.script[0]), script := s.script[1..])
      else
        var edit := s.script[0].edit;
        (match s.phase
         case 0 => s.(phase := 1)
         case 1 => s.(storages := edit.OnStorages(s.storages), phase := 2)
         case 2 => s.(scopes := edit.OnScopes(s.scopes), phase := 3)
         case _ => s.(script := s.script[1..], phase := 0))
    case RLock(id, resource) => s.(readers := s.readers[id := Locked(resource)])
    case ReadScope(id) =>
      var r := s.readers[id].resource;
      s.(readers := s.readers[id := HasScope(r, Get(s.scopes, r))])
    case ReadStorage(id) =>
      var r := s.readers[id];
      s.(readers := s.readers[id := HasBoth(r.resource, r.scope, Get(s.storages, r.resource))])
    case RUnlock(id) =>
      var r := s.readers[id];
      s.(readers := s.readers - {id}, answers := s.answers + [Seen(r.resource, r.scope, r.storage)])
  }

  // ---------------------------------------------------------------- invariants

  /** Storage and scope of plural p made from one version of one definition. */
  ghost predicate FromOne(p: string, storage: Storage, scope: RequestScope) {
    exists spec: Spec, v: Version :: spec.plural == p && storage == StorageOf(spec, v) && scope == ScopeOf(spec, v)
  }

  /** Both or neither, and both made from one version of one definition of plural p. */
  ghost predicate OnePair(p: string, storage: Option<Storage>, scope: Option<RequestScope>) {
    match (storage, scope)
    case (Some(st), Some(sc)) => FromOne(p, st, sc)
    case (None, None) => true
    case _ => false
  }

  /** Such a pair serves plural p, and the two say the same of group, version, kind and namespacing. */
  lemma PairMeaning(p: string, storage: Storage, scope: RequestScope)
    requires OnePair(p, Some(storage), Some(scope))
    ensures storage.rest.name == p && scope.resource == p
    ensures storage.rest.group == scope.group && storage.rest.version == scope.version
    ensures storage.rest.kind == scope.kind && storage.rest.namespaced == !scope.clusterScoped
  {
  }

  ghost predicate Paired(storages: Storages, scopes: Scopes) {
    forall p :: OnePair(p, Get(storages, p), Get(scopes, p))
  }

  lemma EditPairs(edit: Edit, storages: Storages, scopes: Scopes)
    requires Paired(storages, scopes)
    ensures Paired(edit.OnStorages(storages), edit.OnScopes(scopes))
  {
    if edit.Store? {
      assert FromOne(edit.spec.plural, StorageOf(edit.spec, edit.version), ScopeOf(edit.spec, edit.version));
    }
    forall p
      ensures OnePair(p, Get(edit.OnStorages(storages), p), Get(edit.OnScopes(scopes), p))
    {
      assert OnePair(p, Get(storages, p), Get(scopes, p));
    }
  }

  ghost predicate LockInv(s: System) {
    && (s.phase > 0 ==> s.script != [] && s.script[0].Critical? && s.readers == map[] && s.phase <= 3)
    && (s.phase >= 2 ==> s.storages == s.script[0].edit.OnStorages(s.storages))
    && (s.phase == 3 ==> s.scopes == s.script[0].edit.OnScopes(s.scopes))
    && (if s.phase == 2 then Paired(s.storages, s.script[0].edit.OnScopes(s.scopes)) else Paired(s.storages, s.scopes))
    && (forall id | id in s.readers ::
          var r := s.readers[id];
          && (!r.Locked? ==> r.scope == Get(s.scopes, r.resource))
          && (r.HasBoth? ==> r.storage == Get(s.storages, r.resource)))
    && (forall i | 0 <= i < |s.answers| :: OnePair(s.answers[i].resource, s.answers[i].storage, s.answers[i].scope))
  }

  lemma LockInvStep(s: System, a: Action)
    requires LockInv(s) && Enabled(s, a)
    ensures LockInv(Next(s, a))
  {
    if a.Step? && s.script[0].Critical? && s.phase == 1 {
      EditPairs(s.script[0].edit, s.storages, s.scopes);
    }
    if a.RUnlock? {
      var p := s.readers[a.id].resource;
      assert OnePair(p, Get(s.storages, p), Get(s.scopes, p));
    }
  }

  /** Scale entries in a script directly follow the main entry of the same definition; plurals are slash-free. */
  ghost predicate OrderedScript(script: Script) {
    && (forall i | 0 < i < |script| && script[i].Scale? :: script[i - 1] == Main(script[i].spec))
    && (forall i | 0 <= i < |script| :: (script[i].Main? || script[i].Scale?) ==> Free(script[i].spec.plural, '/'))
    && (forall i | 0 <= i < |script| && script[i].Unlist? :: Free(script[i].plural, '/'))
  }

  ghost predicate ListingInv(s: System) {
    && Unique(s.listed)
    && OrderedScript(s.script)
    && (s.script != [] && s.script[0].Scale? ==> Holds(s.listed, s.script[0].spec.plural))
    && ScaleBesideMain(s.listed)
  }

  ghost predicate SlashFreeEvent(e: Event) {
    Free(e.crd.spec.plural, '/') && (e.Updated? ==> Free(e.prior.spec.plural, '/'))
  }

  lemma HoldsAfter(s: Slice, i: Item, name: string)
    ensures Holds(OnListed(s, i), name) <==>
      match i
      case Main(spec) => name == spec.plural || Holds(s, name)
      case Scale(spec) => name == ScaleName(spec.plural) || Holds(s, name)
      case Unlist(p) => !Belongs(name, p) && Holds(s, name)
      case Critical(_) => Holds(s, name)
    ensures Unique(s) ==> Unique(OnListed(s, i))
  {
    LookupFinds(s, name);
    LookupFinds(OnListed(s, i), name);
    match i
    case Main(spec) => UpsertIsMapUpdate(s, MainEntry(spec), name);
    case Scale(spec) => UpsertIsMapUpdate(s, ScaleEntry(spec), name);
    case Unlist(p) => WithoutIsMapRemoval(s, p, name);
    case Critical(_) =>
  }

  lemma TailOrdered(script: Script)
    requires script != [] && OrderedScript(script)
    ensures OrderedScript(script[1..])
    ensures |script| > 1 && script[1].Scale? ==> script[0] == Main(script[1].spec)
  {
    var tail := script[1..];
    assert forall i | 0 <= i < |tail| :: tail[i] == script[i + 1];
  }

  lemma EventScriptOrdered(entries: Entries, e: Event)
    requires SlashFreeEvent(e)
    ensures OrderedScript(EventScript(entries, e))
    ensures EventScript(entries, e) != [] ==> !EventScript(entries, e)[0].Scale?
  {
    if !e.Deleted? {
      AddScriptOrdered(entries, e.crd, e.services);
    }
  }

  lemma AddScriptOrdered(entries: Entries, crd: Crd, services: ApiServices)
    requires Free(crd.spec.plural, '/')
    ensures OrderedScript(AddScript(entries, crd, services))
    ensures AddScript(entries, crd, services) != [] ==> AddScript(entries, crd, services)[0].Main?
  {
  }

  ghost predicate ScaleBesideMain(listed: Slice) {
    forall p: string | Free(p, '/') && Holds(listed, ScaleName(p)) :: Holds(listed, p)
  }

  lemma ItemKeepsScale(listed: Slice, i: Item)
    requires ScaleBesideMain(listed)
    requires (i.Main? || i.Scale?) ==> Free(i.spec.plural, '/')
    requires i.Unlist? ==> Free(i.plural, '/')
    requires i.Scale? ==> Holds(listed, i.spec.plural)
    ensures ScaleBesideMain(OnListed(listed, i))
  {
    forall p: string | Free(p, '/') && Holds(OnListed(listed, i), ScaleName(p))
      ensures Holds(OnListed(listed, i), p)
    {
      HoldsAfter(listed, i, p);
      HoldsAfter(listed, i, ScaleName(p));
      match i {
        case Main(spec) => ScaleNameApart(spec.plural, p);
        case Scale(spec) => ScaleNameApart(p, spec.plural);
        case Unlist(q) => if p != q { BelongsToOne(p, q, p); }
        case Critical(_) =>
      }
    }
  }

  lemma StepKeepsListing(listed: Slice, script: Script)
    requires Unique(listed) && ScaleBesideMain(listed) && OrderedScript(script)
    requires script != [] && (script[0].Scale? ==> Holds(listed, script[0].spec.plural))
    ensures var after := OnListed(listed, script[0]);
      && Unique(after) && ScaleBesideMain(after) && OrderedScript(script[1..])
      && (|script| > 1 && script[1].Scale? ==> Holds(after, script[1].spec.plural))
  {
    TailOrdered(script);
    HoldsAfter(listed, script[0], "");
    ItemKeepsScale(listed, script[0]);
    if |script| > 1 && script[1].Scale? {
      HoldsAfter(listed, script[0], script[1].spec.plural);
    }
  }

  lemma ListingInvStep(s: System, a: Action)
    requires ListingInv(s) && Enabled(s, a) && (a.Begin? ==> SlashFreeEvent(a.e))
    ensures ListingInv(Next(s, a))
  {
    if a.Begin? {
      EventScriptOrdered(s.entries, a.e);
    } else if a.Step? {
      StepKeepsListing(s.listed, s.script);
      assert s.script[0].Critical? ==> OnListed(s.listed, s.script[0]) == s.listed;
    } else {
      assert Next(s, a).script == s.script && Next(s, a).listed == s.listed;
    }
  }

  // ---------------------------------------------------------------- what a script amounts to

  datatype Maps = Maps(storages: Storages, scopes: Scopes, listed: Slice)

  function MapsOf(h: Handler): Maps {
    Maps(h.storages, h.scopes, h.listed)
  }

  function Play(m: Maps, i: Item): Maps {
    if i.Critical? then Maps(i.edit.OnStorages(m.storages), i.edit.OnScopes(m.scopes), m.listed)
    else m.(listed := OnListed(m.listed, i))
  }

  function PlayAll(m: Maps, script: Script): Maps
    decreases |script|
  {
    if script == [] then m else PlayAll(Play(m, script[0]), script[1..])
  }

  lemma {:induction false} PlayAppend(m: Maps, a: Script, b: Script)
    ensures PlayAll(m, a + b) == PlayAll(PlayAll(m, a), b)
    decreases |a|
  {
    if a == [] {
      assert a + b == b;
    } else {
      assert (a + b)[1..] == a[1..] + b;
      PlayAppend(Play(m, a[0]), a[1..], b);
    }
  }

  lemma PlayOne(m: Maps, i: Item)
    ensures PlayAll(m, [i]) == Play(m, i)
  {
    assert [i][1..] == [];
  }

  lemma PlayTwo(m: Maps, i: Item, k: Item)
    ensures PlayAll(m, [i, k]) == Play(Play(m, i), k)
  {
    assert [i, k] == [i] + [k];
    PlayAppend(m, [i], [k]);
    PlayOne(m, i);
    PlayOne(Play(m, i), k);
  }

  lemma AddScriptPlays(h: Handler, crd: Crd, services: ApiServices)
    ensures PlayAll(MapsOf(h), AddScript(h.entries, crd, services)) == MapsOf(AddStorage(h, crd, services))
  {
    var script := AddScript(h.entries, crd, services);
    if script != [] {
      var main, tail := Main(crd.spec), Critical(Store(crd.spec, RegistrableVersion(crd).value));
      if ListsScale(crd.spec) {
        assert script == [main, Scale(crd.spec)] + [tail];
        PlayAppend(MapsOf(h), [main, Scale(crd.spec)], [tail]);
        PlayTwo(MapsOf(h), main, Scale(crd.spec));
        PlayOne(Play(Play(MapsOf(h), main), Scale(crd.spec)), tail);
      } else {
        assert script == [main, tail];
        PlayTwo(MapsOf(h), main, tail);
      }
    }
  }

  lemma EventScriptPlays(h: Handler, e: Event)
    ensures PlayAll(MapsOf(h), EventScript(h.entries, e)) == MapsOf(Handle(h, e))
  {
    match e
    case Added(crd, services) => AddScriptPlays(h, crd, services);
    case Updated(prior, crd, services) =>
      PlayAppend(MapsOf(h), RemoveScript(prior.spec.plural), AddScript(h.entries, crd, services));
      PlayTwo(MapsOf(h), Unlist(prior.spec.plural), Critical(Erase(prior.spec.plural)));
      AddScriptPlays(RemoveStorage(h, prior.spec), crd, services);
    case Deleted(crd) =>
      PlayTwo(MapsOf(h), Unlist(crd.spec.plural), Critical(Erase(crd.spec.plural)));
  }

  /** The rest of the script, played without readers, ends where the sequential handler ends. */
  ghost predicate OnCourse(h0: Handler, s: System) {
    && s.entries == HandleAll(h0, s.handled).entries
    && PlayAll(Maps(s.storages, s.scopes, s.listed), s.script) == MapsOf(HandleAll(h0, s.handled))
  }

  lemma EntriesAlone(h: Handler, h': Handler, e: Event)
    requires h.entries == h'.entries
    ensures Handle(h, e).entries == Handle(h', e).entries
  {
  }

  lemma OnCourseStep(h0: Handler, s: System, a: Action)
    requires OnCourse(h0, s) && LockInv(s) && Enabled(s, a)
    ensures OnCourse(h0, Next(s, a))
  {
    match a
    case Begin(e) =>
      var h := HandleAll(h0, s.handled);
      assert (s.handled + [e])[..|s.handled|] == s.handled;
      EventScriptPlays(h, e);
      EntriesAlone(h, Handler(map[], map[], [], [], s.entries), e);
    case Step =>
      var m := Maps(s.storages, s.scopes, s.listed);
      if s.script[0].Critical? {
        var edit := s.script[0].edit;
        assert edit.OnStorages(edit.OnStorages(s.storages)) == edit.OnStorages(s.storages);
        assert edit.OnScopes(edit.OnScopes(s.scopes)) == edit.OnScopes(s.scopes);
      }
    case _ =>
  }

  // ---------------------------------------------------------------- runs

  ghost function Execute(s: System, acts: seq<Action>): Option<System> {
    if acts == [] then Some(s)
    else
      match Execute(s, acts[..|acts| - 1])
      case None => None
      case Some(m) => if Enabled(m, acts[|acts| - 1]) then Some(Next(m, acts[|acts| - 1])) else None
  }

  /** No event yet, and a handler whose own maps already agree. */
  ghost predicate Initial(h0: Handler, s: System) {
    && s == System([], [], 0, h0.storages, h0.scopes, h0.listed, h0.entries, map[], [])
    && h0.storages == map[] && h0.scopes == map[] && h0.listed == []
  }

  lemma {:induction false} InvAlways(h0: Handler, s: System, acts: seq<Action>)
    requires Initial(h0, s) && Execute(s, acts).Some?
    requires forall i | 0 <= i < |acts| && acts[i].Begin? :: SlashFreeEvent(acts[i].e)
    ensures var r := Execute(s, acts).value; LockInv(r) && ListingInv(r) && OnCourse(h0, r)
  {
    if acts != [] {
      var before := acts[..|acts| - 1];
      InvAlways(h0, s, before);
      var m := Execute(s, before).value;
      LockInvStep(m, acts[|acts| - 1]);
      ListingInvStep(m, acts[|acts| - 1]);
      OnCourseStep(h0, m, acts[|acts| - 1]);
    } else {
      assert forall p :: OnePair(p, Get(s.storages, p), Get(s.scopes, p));
    }
  }

  /** Under every interleaving, what a reader gets is both or neither, made from one definition; and
      whenever the write lock is free the two maps have the same keys. */
  lemma ReadersSeePairs(h0: Handler, s: System, acts: seq<Action>)
    requires Initial(h0, s) && Execute(s, acts).Some?
    requires forall i | 0 <= i < |acts| && acts[i].Begin? :: SlashFreeEvent(acts[i].e)
    ensures var r := Execute(s, acts).value;
      && (forall i | 0 <= i < |r.answers| :: OnePair(r.answers[i].resource, r.answers[i].storage, r.answers[i].scope))
      && (r.phase == 0 ==> Paired(r.storages, r.scopes) && r.storages.Keys == r.scopes.Keys)
  {
    InvAlways(h0, s, acts);
    var r := Execute(s, acts).value;
    if r.phase == 0 {
      forall p
        ensures p in r.storages <==> p in r.scopes
      {
        assert OnePair(p, Get(r.storages, p), Get(r.scopes, p));
      }
    }
  }

  /** At every moment the discovery lock is free - between any two steps - "p/scale" is listed only beside "p". */
  lemma ScaleNeverAlone(h0: Handler, s: System, acts: seq<Action>, p: string)
    requires Initial(h0, s) && Execute(s, acts).Some? && Free(p, '/')
    requires forall i | 0 <= i < |acts| && acts[i].Begin? :: SlashFreeEvent(acts[i].e)
    ensures var r := Execute(s, acts).value;
      Unique(r.listed) && (Holds(r.listed, ScaleName(p)) ==> Holds(r.listed, p))
  {
    InvAlways(h0, s, acts);
  }

  /** Readers change nothing: between events the maps and the listing are the sequential handler's. */
  lemma QuiescentIsSequential(h0: Handler, s: System, acts: seq<Action>)
    requires Initial(h0, s) && Execute(s, acts).Some?
    requires forall i | 0 <= i < |acts| && acts[i].Begin? :: SlashFreeEvent(acts[i].e)
    ensures var r := Execute(s, acts).value;
      r.script == [] ==> Maps(r.storages, r.scopes, r.listed) == MapsOf(HandleAll(h0, r.handled))
  {
    InvAlways(h0, s, acts);
  }
}
