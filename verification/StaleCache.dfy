/**
 Clients of the tenant store running concurrently over a lagging lister cache. Update reads
 through the cache and writes later; anything may happen in between. The resourceVersion that
 the deep copy carries makes the whole system equivalent to running the committed operations
 one at a time, each reading the store as it then was.
 */
module StaleCache {
  import opened Wrappers
  import Json
  import Manifests
  import opened TenantStore
  import opened TenantRuns

  /** An Update between its cached read and its write. */
  datatype Pending = Pending(
    rest: Rest, req: Request, name: string, f: Change, cluster: string, key: string, read: Record)

  /** `history` holds every state the store has been in; the last one is current. */
  datatype System = System(history: seq<Store>, pending: map<nat, Pending>)
  {
    ghost predicate Valid() { |history| > 0 }

    function Current(): Store
      requires |history| > 0
    {
      history[|history| - 1]
    }
  }

  datatype Action =
    | Read(client: nat, rest: Rest, req: Request, name: string, f: Change, snapshot: nat)
    | Write(client: nat)
    | Direct(op: Op)

  ghost predicate Enabled(sys: System, a: Action)
    requires sys.Valid()
  {
    match a
    case Read(client, _, _, _, _, snapshot) => client !in sys.pending && snapshot < |sys.history|
    case Write(client) => client in sys.pending
    case Direct(op) => !op.Update?
  }

  /** The store after a pending update's write arrives: unchanged unless the server accepts it. */
  function Written(s: Store, p: Pending): Store {
    match UpdatedRecord(p.rest, p.cluster, p.read, p.f)
    case Err(_) => s
    case Ok(record) => ApiUpdate(s, p.key, record).0
  }

  function Next(sys: System, a: Action): System
    requires |sys.history| > 0
    requires a.Read? ==> a.snapshot < |sys.history|
    requires a.Write? ==> a.client in sys.pending
  {
    match a
    case Read(client, rest, req, name, f, snapshot) =>
      (match UpdateRead(sys.history[snapshot], rest, req, name)
       case Err(_) => sys
       case Ok((cluster, key, read)) =>
         sys.(pending := sys.pending[client := Pending(rest, req, name, f, cluster, key, read)]))
    case Write(client) =>
      System(sys.history + [Written(sys.Current(), sys.pending[client])], sys.pending - {client})
    case Direct(op) =>
      sys.(history := sys.history + [Effect(sys.Current(), op)])
  }

  /** The operation an action commits, if it changes the store. */
  function Committed(sys: System, a: Action): seq<Op>
    requires |sys.history| > 0
    requires a.Write? ==> a.client in sys.pending
  {
    match a
    case Read(_, _, _, _, _, _) => []
    case Write(client) =>
      var p := sys.pending[client];
      if Written(sys.Current(), p) != sys.Current() then [Op.Update(p.rest, p.req, p.name, p.f)] else []
    case Direct(op) => [op]
  }

  /** One version of a record is one value: versions are never reused. */
  ghost predicate Agrees(s: Store, key: string, r: Record) {
    && r.envelope.resourceVersion <= s.clock
    && (key in s.records && s.records[key].envelope.resourceVersion == r.envelope.resourceVersion ==>
          s.records[key] == r)
  }

  ghost predicate AllAgree(past: Store, s: Store) {
    forall k | k in past.records :: Agrees(s, k, past.records[k])
  }

  ghost predicate Inv(sys: System) {
    && sys.Valid()
    && (forall i | 0 <= i < |sys.history| :: AllAgree(sys.history[i], sys.Current()))
    && (forall c | c in sys.pending ::
          var p := sys.pending[c];
          && Agrees(sys.Current(), p.key, p.read)
          && !p.rest.IsSubresource()
          && GetUser(p.req) == Ok(p.cluster)
          && p.key == Manifests.Key(p.rest.Resource(), p.cluster, p.req.namespace, p.name))
  }

  /** A store grows out of another by one write: new versions are above every old one. */
  ghost predicate OneWrite(s: Store, s': Store) {
    && s.clock <= s'.clock
    && forall k | k in s'.records ::
         || (k in s.records && s'.records[k] == s.records[k])
         || s'.records[k].envelope.resourceVersion == s.clock + 1 == s'.clock
  }

  lemma AgreesLater(s: Store, s': Store, key: string, r: Record)
    requires OneWrite(s, s') && Agrees(s, key, r)
    ensures Agrees(s', key, r)
  {
  }

  lemma EffectIsOneWrite(s: Store, op: Op)
    ensures OneWrite(s, Effect(s, op))
  {
  }

  lemma WrittenIsOneWrite(s: Store, p: Pending)
    ensures OneWrite(s, Written(s, p))
  {
  }

  /** An accepted write found in the store the very record the client had read. */
  lemma AcceptedReadIsCurrent(s: Store, p: Pending)
    requires Agrees(s, p.key, p.read)
    requires Written(s, p) != s
    ensures p.key in s.records && s.records[p.key] == p.read
  {
  }

  lemma HistoryGrows(sys: System, s': Store, pending: map<nat, Pending>)
    requires Inv(sys) && OneWrite(sys.Current(), s')
    requires pending.Keys <= sys.pending.Keys && forall c | c in pending :: pending[c] == sys.pending[c]
    requires forall k | k in s'.records :: s'.records[k].envelope.resourceVersion <= s'.clock
    ensures Inv(System(sys.history + [s'], pending))
  {
    var s := sys.Current();
    var sys' := System(sys.history + [s'], pending);
    assert sys'.Current() == s';
    forall i | 0 <= i < |sys'.history|
      ensures AllAgree(sys'.history[i], s')
    {
      if i < |sys.history| {
        assert AllAgree(sys.history[i], s);
        forall k | k in sys.history[i].records
          ensures Agrees(s', k, sys.history[i].records[k])
        {
          AgreesLater(s, s', k, sys.history[i].records[k]);
        }
      }
    }
    forall c | c in pending
      ensures Agrees(s', pending[c].key, pending[c].read)
    {
      AgreesLater(s, s', pending[c].key, pending[c].read);
    }
  }

  lemma ReadKeepsInv(sys: System, client: nat, rest: Rest, req: Request, name: string, f: Change, snapshot: nat)
    requires Inv(sys) && snapshot < |sys.history|
    ensures Inv(Next(sys, Read(client, rest, req, name, f, snapshot)))
  {
    assert AllAgree(sys.history[snapshot], sys.Current());
    var sys' := Next(sys, Read(client, rest, req, name, f, snapshot));
    assert sys'.history == sys.history && sys'.Current() == sys.Current();
    if UpdateRead(sys.history[snapshot], rest, req, name).Ok? {
      var (cluster, key, read) := UpdateRead(sys.history[snapshot], rest, req, name).value;
      assert key in sys.history[snapshot].records && read == sys.history[snapshot].records[key];
    }
  }

  lemma InvStep(sys: System, a: Action)
    requires Inv(sys) && Enabled(sys, a)
    ensures Inv(Next(sys, a))
  {
    var s := sys.Current();
    assert AllAgree(s, s);
    match a
    case Read(client, rest, req, name, f, snapshot) =>
      ReadKeepsInv(sys, client, rest, req, name, f, snapshot);
    case Write(client) =>
      WrittenIsOneWrite(s, sys.pending[client]);
      HistoryGrows(sys, Written(s, sys.pending[client]), sys.pending - {client});
    case Direct(op) =>
      EffectIsOneWrite(s, op);
      HistoryGrows(sys, Effect(s, op), sys.pending);
  }

  /** A step of the stale system is no step, or one atomic operation on the current store. */
  lemma StepIsAtomic(sys: System, a: Action)
    requires Inv(sys) && Enabled(sys, a)
    ensures Next(sys, a).Valid()
    ensures var ops := Committed(sys, a);
      && (ops == [] ==> Next(sys, a).Current() == sys.Current())
      && (ops != [] ==> |ops| == 1 && Next(sys, a).Current() == Effect(sys.Current(), ops[0]))
  {
    var s := sys.Current();
    match a
    case Read(_, _, _, _, _, _) =>
    case Write(client) =>
      var p := sys.pending[client];
      if Written(s, p) != s {
        AcceptedReadIsCurrent(s, p);
        assert UpdateRead(s, p.rest, p.req, p.name) == Ok((p.cluster, p.key, p.read));
      }
    case Direct(op) =>
  }

  // ---------------------------------------------------------------- runs

  ghost predicate Runs(sys: System, acts: seq<Action>)
    requires sys.Valid()
    decreases |acts|
  {
    acts == [] ||
    (Enabled(sys, acts[0]) && Next(sys, acts[0]).Valid() && Runs(Next(sys, acts[0]), acts[1..]))
  }

  ghost function Last(sys: System, acts: seq<Action>): (r: System)
    requires sys.Valid() && Runs(sys, acts)
    ensures r.Valid()
    decreases |acts|
  {
    if acts == [] then sys else Last(Next(sys, acts[0]), acts[1..])
  }

  ghost function CommitLog(sys: System, acts: seq<Action>): seq<Op>
    requires sys.Valid() && Runs(sys, acts)
    decreases |acts|
  {
    if acts == [] then [] else Committed(sys, acts[0]) + CommitLog(Next(sys, acts[0]), acts[1..])
  }

  lemma {:induction false} RunAppends(s: Store, ops: seq<Op>, more: seq<Op>)
    ensures Run(s, ops + more) == Run(Run(s, ops), more)
  {
    if more == [] {
      assert ops + more == ops;
    } else {
      var all := ops + more;
      assert all[..|all| - 1] == ops + more[..|more| - 1];
      RunAppends(s, ops, more[..|more| - 1]);
    }
  }

  lemma RunOne(s: Store, op: Op)
    ensures Run(s, [op]) == Effect(s, op)
  {
    assert [op][..0] == [];
    assert Run(s, [op][..0]) == s;
  }

  /**
   Linearizability: for every interleaving of clients and every cache lag, the final store is the one
   obtained by running the committed operations one after another on current reads.
   */
  lemma {:induction false} StaleRunsAreSerial(sys: System, acts: seq<Action>)
    requires Inv(sys) && Runs(sys, acts)
    ensures Inv(Last(sys, acts))
    ensures Last(sys, acts).Current() == Run(sys.Current(), CommitLog(sys, acts))
    decreases |acts|
  {
    if acts != [] {
      var a, sys' := acts[0], Next(sys, acts[0]);
      InvStep(sys, a);
      StepIsAtomic(sys, a);
      StaleRunsAreSerial(sys', acts[1..]);
      var ops := Committed(sys, a);
      RunAppends(sys.Current(), ops, CommitLog(sys', acts[1..]));
      if ops != [] {
        RunOne(sys.Current(), ops[0]);
        assert ops == [ops[0]];
      }
    }
  }

  /**
   No lost update: in any state the system can reach, a write the server accepts stores the trimmed
   change of the manifest that was current just before it, over the labels that were current.
   */
  lemma NoLostUpdate(sys: System, acts: seq<Action>, client: nat)
    requires Inv(sys) && Runs(sys, acts)
    requires client in Last(sys, acts).pending
    requires var now := Last(sys, acts); Written(now.Current(), now.pending[client]) != now.Current()
    ensures var now := Last(sys, acts);
      var p, s := now.pending[client], now.Current();
      var s' := Next(now, Write(client)).Current();
      && p.key in s.records && p.key in s'.records
      && Json.Decode(s.records[p.key].manifest).Ok? && p.f(s.records[p.key].manifest).Ok?
      && s'.records[p.key].manifest == Manifests.Trimmed(p.f(s.records[p.key].manifest).value)
      && s'.records[p.key].labels
         == StampedOnUpdate(p.rest, p.cluster, s.records[p.key].labels, s'.records[p.key].manifest)
      && s'.records[p.key].envelope.resourceVersion > s.records[p.key].envelope.resourceVersion
      && s'.records.Keys == s.records.Keys
      && forall k | k in s.records && k != p.key :: s'.records[k] == s.records[k]
  {
    StaleRunsAreSerial(sys, acts);
    var now := Last(sys, acts);
    var p, s := now.pending[client], now.Current();
    AcceptedReadIsCurrent(s, p);
    assert AllAgree(s, s);
    assert Next(now, Write(client)).Current() == Written(s, p);
    assert Written(s, p).records.Keys == s.records.Keys;
  }

  /** The change f, except that the client submits its object with resourceVersion v. */
  function Resubmitted(f: Change, v: string): Change {
    (prior: Json.Json) =>
      match f(prior)
      case Err(e) => Err(e)
      case Ok(obj) => Ok(if Json.HasMetadata(obj) then Json.SetField(obj, "resourceVersion", Json.Text(v)) else obj)
  }

  /** What guards a write is the version the server read, not the one the client submits: whatever
      resourceVersion the submitted object carries, the store and the answer are the same. */
  lemma SubmittedVersionIgnored(s: Store, cache: Store, rest: Rest, req: Request, name: string, f: Change, v: string)
    ensures UpdateOutcome(s, cache, rest, req, name, Resubmitted(f, v)) == UpdateOutcome(s, cache, rest, req, name, f)
  {
    if UpdateRead(cache, rest, req, name).Ok? {
      var (cluster, key, read) := UpdateRead(cache, rest, req, name).value;
      var answer := f(read.manifest);
      if answer.Ok? && Json.HasMetadata(answer.value) {
        TrimForgetsVersion(answer.value, v);
      }
      assert UpdatedRecord(rest, cluster, read, Resubmitted(f, v)) == UpdatedRecord(rest, cluster, read, f);
    }
  }

  lemma TrimForgetsVersion(obj: Json.Json, v: string)
    requires Json.HasMetadata(obj)
    ensures Manifests.Trimmed(Json.SetField(obj, "resourceVersion", Json.Text(v))) == Manifests.Trimmed(obj)
  {
    var m := Json.Metadata(obj);
    assert m["resourceVersion" := Json.Text(v)] - Manifests.TRIMMED == m - Manifests.TRIMMED;
    var submitted := Json.SetField(obj, "resourceVersion", Json.Text(v));
    assert Manifests.Trimmed(submitted).fields == Manifests.Trimmed(obj).fields;
  }

  /** A write that reaches an existing record is refused exactly when the cache showed another version of it. */
  lemma ConflictExactly(s: Store, cache: Store, rest: Rest, req: Request, name: string, f: Change)
    requires UpdateRead(cache, rest, req, name).Ok?
    requires var (cluster, key, read) := UpdateRead(cache, rest, req, name).value;
      key in s.records && UpdatedRecord(rest, cluster, read, f).Ok?
    ensures var (cluster, key, read) := UpdateRead(cache, rest, req, name).value;
      var (s', r) := UpdateOutcome(s, cache, rest, req, name, f);
      && (r == Err(Conflict) <==>
            cache.records[key].envelope.resourceVersion != s.records[key].envelope.resourceVersion)
      && (s' == s <==> r == Err(Conflict))
  {
  }

  /** In any state the system can reach, however old the client's read: its write is refused exactly when
      the record that it read is no longer the one in the store. */
  lemma RefusedExactly(sys: System, acts: seq<Action>, client: nat)
    requires Inv(sys) && Runs(sys, acts)
    requires client in Last(sys, acts).pending
    requires var p := Last(sys, acts).pending[client]; UpdatedRecord(p.rest, p.cluster, p.read, p.f).Ok?
    ensures var now := Last(sys, acts);
      var p, s := now.pending[client], now.Current();
      Next(now, Write(client)).Current() == s <==> !(p.key in s.records && s.records[p.key] == p.read)
  {
    StaleRunsAreSerial(sys, acts);
    var now := Last(sys, acts);
    var p, s := now.pending[client], now.Current();
    assert Agrees(s, p.key, p.read);
    assert Next(now, Write(client)).Current() == Written(s, p);
    WrittenExactly(s, p);
  }

  lemma WrittenExactly(s: Store, p: Pending)
    requires Agrees(s, p.key, p.read) && UpdatedRecord(p.rest, p.cluster, p.read, p.f).Ok?
    ensures Written(s, p) == s <==> !(p.key in s.records && s.records[p.key] == p.read)
  {
    var record := UpdatedRecord(p.rest, p.cluster, p.read, p.f).value;
    assert record.envelope == p.read.envelope;
    var (s', r) := ApiUpdate(s, p.key, record);
    assert Written(s, p) == s';
    assert r.Ok? ==> s'.clock == s.clock + 1;
  }

  /** A fresh system over a store whose versions have all been issued. */
  ghost predicate Initial(sys: System) {
    && |sys.history| == 1 && sys.pending == map[]
    && forall k | k in sys.history[0].records ::
         sys.history[0].records[k].envelope.resourceVersion <= sys.history[0].clock
  }

  /** The record invariant and tenant isolation, for every interleaving and every cache lag; isolation
      holds even when updates rename objects. */
  lemma StaleRunsKeepTenantsApart(sys: System, acts: seq<Action>, a: Tenant, b: Tenant)
    requires Initial(sys) && Runs(sys, acts)
    requires Housed(sys.Current()) && AllConfined(sys.Current(), CommitLog(sys, acts))
    ensures Housed(Last(sys, acts).Current())
    ensures Kept(sys.Current()) && AllDisciplined(sys.Current(), CommitLog(sys, acts))
        ==> Kept(Last(sys, acts).Current())
    ensures AllBy(CommitLog(sys, acts), a) && a != b && b.namespace != "" && DotFree(a) && DotFree(b)
        ==> TenantRecords(Last(sys, acts).Current(), b) == TenantRecords(sys.Current(), b)
  {
    StaleRunsAreSerial(sys, acts);
    var log := CommitLog(sys, acts);
    HousedAlways(sys.Current(), log);
    if Kept(sys.Current()) && AllDisciplined(sys.Current(), log) {
      RecordInvariant(sys.Current(), log);
    }
    if AllBy(log, a) && a != b && b.namespace != "" && DotFree(a) && DotFree(b) {
      NonInterference(sys.Current(), log, a, b);
    }
  }
}
