/**
 DeleteCollection while other clients are at work: the pool of WorkerPool and the clients of StaleCache
 take turns on one store. Seen from the store the pool is one more client of StaleCache; seen from the
 pool the other clients change nothing but the records.
 */
module SharedStore {
  import opened Wrappers
  import opened Json
  import opened TenantStore
  import opened TenantRuns
  import Manifests
  import opened CollectionDelete
  import Cache = StaleCache
  import Pool = WorkerPool

  /** The pool's view of the records is the current state of the store. */
  datatype Both = Both(sys: Cache.System, pool: Pool.State)

  datatype Move = Client(step: Cache.Action) | Worker(act: Pool.Action)

  /** One DeleteCollection call: the storage it came through, its caller, what it listed. */
  datatype Call = Call(rest: Rest, req: Request, t: Tenant, objs: seq<Json>, limit: int)
  {
    function Job(): Pool.Job { PoolOf(rest, t, objs, limit) }
  }

  ghost predicate Consistent(b: Both) {
    b.sys.Valid() && b.pool.records == b.sys.Current().records
  }

  ghost predicate Enabled(c: Call, b: Both, m: Move)
    requires Consistent(b)
  {
    match m
    case Client(step) => Cache.Enabled(b.sys, step) && Cache.Next(b.sys, step).Valid()
    case Worker(act) => Pool.Enabled(c.Job(), b.pool, act)
  }

  /** Whether the answer took a record out of the store. */
  predicate Deletes(act: Pool.Action) {
    act.Answered? && (act.answer.Gone? || (act.answer.Broken? && act.answer.applied))
  }

  function Next(c: Call, b: Both, m: Move): Both
    requires Consistent(b) && Enabled(c, b, m)
  {
    match m
    case Client(step) =>
      var sys := Cache.Next(b.sys, step);
      Both(sys, b.pool.(records := sys.Current().records))
    case Worker(act) =>
      var pool := Pool.Apply(c.Job(), b.pool, act);
      if Deletes(act)
      then Both(b.sys.(history := b.sys.history + [Store(pool.records, b.sys.Current().clock + 1)]), pool)
      else Both(b.sys, pool)
  }

  /** What a move is to the store: a client's step, a delete of the item's name, or nothing. */
  function StepsOf(c: Call, b: Both, m: Move): seq<Cache.Action>
    requires Consistent(b) && Enabled(c, b, m)
  {
    match m
    case Client(step) => [step]
    case Worker(act) =>
      if Deletes(act)
      then [Cache.Direct(Delete(c.rest, c.req, GetName(c.objs[b.pool.workers[act.w].index])))]
      else []
  }

  /** A pool step that takes a record is the atomic Delete of the listed object's name, and no other pool
      step touches the store. */
  lemma WorkerIsDelete(c: Call, b: Both, act: Pool.Action)
    requires Consistent(b) && Enabled(c, b, Worker(act)) && ActsFor(c.req, c.t)
    ensures Consistent(Next(c, b, Worker(act)))
    ensures var steps := StepsOf(c, b, Worker(act));
      Next(c, b, Worker(act)).sys
      == if steps == [] then b.sys
         else b.sys.(history := b.sys.history + [Effect(b.sys.Current(), steps[0].op)])
  {
    var s := b.sys.Current();
    if Deletes(act) {
      var index := b.pool.workers[act.w].index;
      var key := Manifests.Key(c.rest.Resource(), c.t.cluster, c.t.namespace, GetName(c.objs[index]));
      assert c.Job().items[index] == Some(key);
      assert Effect(s, Delete(c.rest, c.req, GetName(c.objs[index]))) == Store(s.records - {key}, s.clock + 1);
    } else {
      assert Pool.Apply(c.Job(), b.pool, act).records == b.pool.records;
    }
  }

  // ---------------------------------------------------------------- runs

  ghost function Play(c: Call, b: Both, moves: seq<Move>): Option<Both>
    requires Consistent(b)
    decreases |moves|
  {
    if moves == [] then Some(b)
    else if Enabled(c, b, moves[0]) && Consistent(Next(c, b, moves[0])) then Play(c, Next(c, b, moves[0]), moves[1..])
    else None
  }

  ghost function AllSteps(c: Call, b: Both, moves: seq<Move>): seq<Cache.Action>
    requires Consistent(b) && Play(c, b, moves).Some?
    decreases |moves|
  {
    if moves == [] then [] else StepsOf(c, b, moves[0]) + AllSteps(c, Next(c, b, moves[0]), moves[1..])
  }

  /** The two conjuncts Play asks of a move come down to the first. */
  lemma EnabledSuffices(c: Call, b: Both, m: Move)
    requires Consistent(b) && Enabled(c, b, m) && ActsFor(c.req, c.t)
    ensures Consistent(Next(c, b, m))
  {
    if m.Worker? {
      WorkerIsDelete(c, b, m.act);
    }
  }

  /** Every interleaving of the pool with other clients is, on the store, a run of StaleCache: what holds of
      those runs - serial equivalence, no lost update, tenant isolation - holds with a DeleteCollection among them. */
  lemma {:induction false} SharedRunIsStaleRun(c: Call, b: Both, moves: seq<Move>)
    requires Consistent(b) && ActsFor(c.req, c.t) && Play(c, b, moves).Some?
    ensures Cache.Runs(b.sys, AllSteps(c, b, moves))
    ensures Cache.Last(b.sys, AllSteps(c, b, moves)) == Play(c, b, moves).value.sys
    decreases |moves|
  {
    if moves != [] {
      var b' := Next(c, b, moves[0]);
      var rest := AllSteps(c, b', moves[1..]);
      SharedRunIsStaleRun(c, b', moves[1..]);
      var all := StepsOf(c, b, moves[0]) + rest;
      if moves[0].Worker? {
        WorkerIsDelete(c, b, moves[0].act);
      }
      if StepsOf(c, b, moves[0]) == [] {
        assert all == rest;
      } else {
        assert all[0] == StepsOf(c, b, moves[0])[0] && all[1..] == rest;
        assert Cache.Next(b.sys, all[0]) == b'.sys;
      }
    }
  }

  /** Conservation, the error channel and the verdict do not depend on nobody else writing. */
  lemma {:induction false} PoolInvAmongOthers(c: Call, b: Both, moves: seq<Move>)
    requires Consistent(b) && Pool.Inv(c.Job(), b.pool) && Play(c, b, moves).Some?
    ensures Pool.Inv(c.Job(), Play(c, b, moves).value.pool)
    decreases |moves|
  {
    if moves != [] {
      if moves[0].Worker? {
        Pool.InvStep(c.Job(), b.pool, moves[0].act);
      } else {
        OtherRecords(c.Job(), b.pool, Next(c, b, moves[0]).pool.records);
      }
      PoolInvAmongOthers(c, Next(c, b, moves[0]), moves[1..]);
    }
  }

  lemma OtherRecords(job: Pool.Job, p: Pool.State, records: Pool.Records)
    requires Pool.Inv(job, p)
    ensures Pool.Inv(job, p.(records := records))
  {
    var p' := p.(records := records);
    forall i: nat
      ensures Pool.Places(job, p', i) == if i < job.N() then 1 else 0
    {
      assert Pool.Places(job, p', i) == Pool.Places(job, p, i);
    }
  }

  /** So among any other clients the pool can always move until it returns, its error is one of the failures,
      and without an error every listed item was answered once, each by a delete or by its absence. */
  lemma PoolAmongOthers(c: Call, b: Both, moves: seq<Move>) returns (act: Pool.Action)
    requires Consistent(b) && b.pool == Pool.Start(c.Job(), b.sys.Current().records) && Play(c, b, moves).Some?
    ensures var p := Play(c, b, moves).value.pool;
      && (p.caller.Waiting? ==> Pool.Enabled(c.Job(), p, act))
      && Pool.HonestVerdict(p)
      && (p.caller == Pool.Returned(None) ==> Pool.AllAttempted(c.Job(), p))
  {
    Pool.InvStart(c.Job(), b.sys.Current().records);
    PoolInvAmongOthers(c, b, moves);
    var p := Play(c, b, moves).value.pool;
    Pool.VerdictIsHonest(c.Job(), p);
    if p.caller == Pool.Returned(None) {
      Pool.NilIsComplete(c.Job(), p);
    }
    if p.caller.Waiting? {
      act := Pool.SomeStep(c.Job(), p);
    } else {
      act := Pool.Return;
    }
  }
}
