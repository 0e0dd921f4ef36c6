/**
 The goroutines of DeleteCollection as a step machine: a distributor feeding a bounded channel
 of indices, W workers deleting, a bounded error channel, a wait group, and the caller that
 returns when the wait group is empty. Every step of every goroutine is one Action; an
 execution is any sequence of enabled actions.
 */
module WorkerPool {
  import opened Wrappers
  import opened TenantStore

  type Records = map<string, Record>

  const DEFAULT_DELETE_COLLECTION_WORKERS := 2

  /** `items[i]` is the key item i deletes; None stands for an item without object metadata. */
  datatype Job = Job(items: seq<Option<string>>, limit: int)
  {
    function N(): nat { |items| }

    /** workersNumber: the limit, at most one worker an item, at least one worker. */
    function Workers(): nat {
      var w := if limit > |items| then |items| else limit;
      if w < 1 then 1 else w
    }

    function ToProcessCapacity(): nat { 2 * Workers() }

    function ErrsCapacity(): nat { Workers() + 1 }
  }

  /** As many workers as items and limit allow, but at least one. */
  lemma WorkersExactly(job: Job, w: nat)
    ensures job.Workers() >= 1
    ensures job.Workers() > 1 ==> job.Workers() <= job.limit && job.Workers() <= job.N()
    ensures w <= job.limit && w <= job.N() ==> w <= job.Workers()
  {
  }

  /** The answer to one delete: gone, already missing, or an error other than NotFound, which may still
      have deleted. */
  datatype Answer = Gone | Missing | Broken(error: Error, applied: bool)

  datatype Worker =
    | Idle
    | Holding(index: nat)
    | Failing(error: Error)
    | Leaving(posted: bool)
    | Done(posted: bool)

  datatype Verdict = Waiting | Returned(error: Option<Error>)

  datatype Attempt = Attempt(index: nat, answer: Answer)

  datatype State = State(
    next: nat,              // items the distributor has sent
    closed: bool,           // toProcess closed
    toProcess: seq<nat>,
    workers: seq<Worker>,
    errs: seq<Error>,
    waitGroup: int,
    caller: Verdict,
    records: Records,
    log: seq<Attempt>)      // deletes answered so far, in order

  datatype Action =
    | Send | Close
    | Take(w: nat) | Answered(w: nat, answer: Answer) | Post(w: nat) | Drain(w: nat) | Signal(w: nat)
    | Return

  function Start(job: Job, records: Records): State {
    State(0, false, [], seq(job.Workers(), _ => Idle), [], job.Workers(), Waiting, records, [])
  }

  predicate Possible(job: Job, records: Records, index: nat, answer: Answer)
    requires index < job.N()
  {
    match job.items[index]
    case None => answer.Broken? && answer.error != NotFound && !answer.applied
    case Some(key) =>
      match answer
      case Gone => key in records
      case Missing => key !in records
      case Broken(error, applied) => error != NotFound && (applied ==> key in records)
  }

  predicate Enabled(job: Job, s: State, a: Action) {
    match a
    case Send => !s.closed && s.next < job.N() && |s.toProcess| < job.ToProcessCapacity()
    case Close => !s.closed && s.next == job.N()
    case Take(w) => w < |s.workers| && s.workers[w].Idle? && s.toProcess != []
    case Answered(w, answer) =>
      w < |s.workers| && s.workers[w].Holding? && s.workers[w].index < job.N()
      && Possible(job, s.records, s.workers[w].index, answer)
    case Post(w) => w < |s.workers| && s.workers[w].Failing? && |s.errs| < job.ErrsCapacity()
    case Drain(w) => w < |s.workers| && s.workers[w].Idle? && s.toProcess == [] && s.closed
    case Signal(w) => w < |s.workers| && s.workers[w].Leaving?
    case Return => s.caller.Waiting? && s.waitGroup == 0
  }

  function Apply(job: Job, s: State, a: Action): State
    requires Enabled(job, s, a)
  {
    match a
    case Send => s.(next := s.next + 1, toProcess := s.toProcess + [s.next])
    case Close => s.(closed := true)
    case Take(w) => s.(toProcess := s.toProcess[1..], workers := s.workers[w := Holding(s.toProcess[0])])
    case Answered(w, answer) =>
      var index := s.workers[w].index;
      var after := if answer.Broken? then Failing(answer.error) else Idle;
      var deleted := answer.Gone? || (answer.Broken? && answer.applied);
      s.(workers := s.workers[w := after],
         records := if deleted then s.records - {job.items[index].value} else s.records,
         log := s.log + [Attempt(index, answer)])
    case Post(w) => s.(errs := s.errs + [s.workers[w].error], workers := s.workers[w := Leaving(true)])
    case Drain(w) => s.(workers := s.workers[w := Leaving(false)])
    case Signal(w) => s.(workers := s.workers[w := Done(s.workers[w].posted)], waitGroup := s.waitGroup - 1)
    case Return => s.(caller := Returned(if s.errs == [] then None else Some(s.errs[0])))
  }

  // ---------------------------------------------------------------- sums over workers

  function Sum(ws: seq<Worker>, f: Worker -> nat): nat {
    if ws == [] then 0 else Sum(ws[..|ws| - 1], f) + f(ws[|ws| - 1])
  }

  lemma {:induction false} SumUpdate(ws: seq<Worker>, w: nat, x: Worker, f: Worker -> nat)
    requires w < |ws|
    ensures Sum(ws[w := x], f) + f(ws[w]) == Sum(ws, f) + f(x)
  {
    var ws' := ws[w := x];
    if w == |ws| - 1 {
      assert ws'[..|ws| - 1] == ws[..|ws| - 1];
    } else {
      SumUpdate(ws[..|ws| - 1], w, x, f);
      assert ws'[..|ws| - 1] == ws[..|ws| - 1][w := x];
    }
  }

  lemma {:induction false} SumBounds(ws: seq<Worker>, f: Worker -> nat, g: Worker -> nat, c: nat)
    requires forall x :: f(x) + g(x) <= c
    ensures Sum(ws, f) + Sum(ws, g) <= c * |ws|
  {
    if ws != [] {
      SumBounds(ws[..|ws| - 1], f, g, c);
      assert c * |ws| == c * (|ws| - 1) + c;
    }
  }

  lemma {:induction false} SumAll(ws: seq<Worker>, f: Worker -> nat, c: nat)
    requires forall i | 0 <= i < |ws| :: f(ws[i]) == c
    ensures Sum(ws, f) == c * |ws|
  {
    if ws != [] {
      SumAll(ws[..|ws| - 1], f, c);
    }
  }

  lemma {:induction false} SumZero(ws: seq<Worker>, f: Worker -> nat)
    requires Sum(ws, f) == 0
    ensures forall i | 0 <= i < |ws| :: f(ws[i]) == 0
  {
    if ws != [] {
      SumZero(ws[..|ws| - 1], f);
      forall i | 0 <= i < |ws|
        ensures f(ws[i]) == 0
      {
        if i < |ws| - 1 {
          assert ws[i] == ws[..|ws| - 1][i];
        }
      }
    }
  }

  lemma {:induction false} SumAtLeast(ws: seq<Worker>, w: nat, f: Worker -> nat)
    requires w < |ws|
    ensures f(ws[w]) <= Sum(ws, f)
  {
    if w < |ws| - 1 {
      SumAtLeast(ws[..|ws| - 1], w, f);
    }
  }

  function Live(w: Worker): nat { if w.Done? then 0 else 1 }
  function Posted(w: Worker): nat { if (w.Leaving? || w.Done?) && w.posted then 1 else 0 }
  function Pending(w: Worker): nat { if w.Failing? then 1 else 0 }

  function HoldsIndex(i: nat): Worker -> nat {
    (w: Worker) => if w.Holding? && w.index == i then 1 else 0
  }

  function FailsWith(e: Error): Worker -> nat {
    (w: Worker) => if w.Failing? && w.error == e then 1 else 0
  }

  // ---------------------------------------------------------------- the log

  /** How often index i has been answered. */
  function Attempts(log: seq<Attempt>, i: nat): nat {
    if log == [] then 0 else Attempts(log[..|log| - 1], i) + if log[|log| - 1].index == i then 1 else 0
  }

  /** Deletes that failed with something other than NotFound. */
  function Failures(log: seq<Attempt>): seq<Error> {
    if log == [] then []
    else
      var last := log[|log| - 1];
      Failures(log[..|log| - 1]) + if last.answer.Broken? then [last.answer.error] else []
  }

  lemma {:induction false} NoFailures(log: seq<Attempt>)
    ensures Failures(log) == [] <==> forall i | 0 <= i < |log| :: !log[i].answer.Broken?
  {
    if log != [] {
      var before := log[..|log| - 1];
      NoFailures(before);
      if Failures(before) != [] {
        var i :| 0 <= i < |before| && before[i].answer.Broken?;
        assert log[i] == before[i];
      } else if !log[|log| - 1].answer.Broken? {
        forall i | 0 <= i < |log|
          ensures !log[i].answer.Broken?
        {
          if i < |before| { assert log[i] == before[i]; }
        }
      }
    }
  }

  // ---------------------------------------------------------------- invariants

  /** The places index i is in: not yet sent, buffered, in a worker's hand, answered. */
  function Places(job: Job, s: State, i: nat): nat {
    (if s.next <= i < job.N() then 1 else 0) + multiset(s.toProcess)[i]
    + Sum(s.workers, HoldsIndex(i)) + Attempts(s.log, i)
  }

  /** Those places partition [0, n): every index is in exactly one of them, once, and nothing else is anywhere. */
  ghost predicate Conserved(job: Job, s: State) {
    forall i: nat :: Places(job, s, i) == if i < job.N() then 1 else 0
  }

  /** Every failure is in the error channel or about to be put there. */
  ghost predicate ErrorsKept(s: State) {
    forall e: Error :: multiset(s.errs)[e] + Sum(s.workers, FailsWith(e)) == multiset(Failures(s.log))[e]
  }

  ghost predicate Shape(job: Job, s: State) {
    && s.next <= job.N()
    && (s.closed ==> s.next == job.N())
    && |s.toProcess| <= job.ToProcessCapacity()
    && |s.workers| == job.Workers()
    && s.waitGroup == Sum(s.workers, Live)
    && |s.errs| == Sum(s.workers, Posted)
    && (forall w | 0 <= w < |s.workers| ::
          (s.workers[w].Leaving? || s.workers[w].Done?) && !s.workers[w].posted ==> s.closed && s.toProcess == [])
  }

  ghost predicate Inv(job: Job, s: State) {
    && Shape(job, s)
    && Conserved(job, s)
    && ErrorsKept(s)
    && (s.caller.Returned? ==>
          && s.waitGroup == 0
          && s.caller.error == if s.errs == [] then None else Some(s.errs[0]))
  }

  lemma InvStart(job: Job, records: Records)
    ensures Inv(job, Start(job, records))
  {
    var s := Start(job, records);
    SumAll(s.workers, Live, 1);
    SumAll(s.workers, Posted, 0);
    forall i: nat
      ensures Places(job, s, i) == if i < job.N() then 1 else 0
    {
      SumAll(s.workers, HoldsIndex(i), 0);
    }
    forall e: Error
      ensures multiset(s.errs)[e] + Sum(s.workers, FailsWith(e)) == multiset(Failures(s.log))[e]
    {
      SumAll(s.workers, FailsWith(e), 0);
    }
  }

  lemma PlacesStep(job: Job, s: State, a: Action, i: nat)
    requires s.next <= job.N() && Enabled(job, s, a)
    ensures Places(job, Apply(job, s, a), i) == Places(job, s, i)
  {
    var s' := Apply(job, s, a);
    if a.Take? || a.Answered? || a.Post? || a.Drain? || a.Signal? {
      SumUpdate(s.workers, a.w, s'.workers[a.w], HoldsIndex(i));
    }
    if a.Take? {
      assert s.toProcess == [s.toProcess[0]] + s'.toProcess;
    }
    if a.Answered? {
      assert s'.log[..|s.log|] == s.log;
    }
  }

  lemma ErrorsStep(job: Job, s: State, a: Action, e: Error)
    requires Enabled(job, s, a)
    requires multiset(s.errs)[e] + Sum(s.workers, FailsWith(e)) == multiset(Failures(s.log))[e]
    ensures var s' := Apply(job, s, a);
      multiset(s'.errs)[e] + Sum(s'.workers, FailsWith(e)) == multiset(Failures(s'.log))[e]
  {
    if a.Take? || a.Answered? || a.Post? || a.Drain? || a.Signal? {
      var after := Apply(job, s, a).workers[a.w];
      SumUpdate(s.workers, a.w, after, FailsWith(e));
      if a.Answered? {
        FailuresGrow(s.log, Attempt(s.workers[a.w].index, a.answer), e);
      } else if a.Post? {
        ErrorsGrow(s.errs, s.workers[a.w].error, e);
      } else {
        assert FailsWith(e)(after) == FailsWith(e)(s.workers[a.w]) == 0;
      }
    }
  }

  lemma ErrorsGrow(errs: seq<Error>, x: Error, e: Error)
    ensures multiset(errs + [x])[e] == multiset(errs)[e] + if x == e then 1 else 0
  {
  }

  lemma FailuresGrow(log: seq<Attempt>, x: Attempt, e: Error)
    ensures multiset(Failures(log + [x]))[e]
         == multiset(Failures(log))[e] + if x.answer.Broken? && x.answer.error == e then 1 else 0
  {
    assert (log + [x])[..|log|] == log;
  }

  lemma ShapeStep(job: Job, s: State, a: Action)
    requires Shape(job, s) && Enabled(job, s, a)
    ensures Shape(job, Apply(job, s, a))
  {
    var s' := Apply(job, s, a);
    if a.Take? || a.Answered? || a.Post? || a.Drain? || a.Signal? {
      SumUpdate(s.workers, a.w, s'.workers[a.w], Live);
      SumUpdate(s.workers, a.w, s'.workers[a.w], Posted);
    }
  }

  lemma InvStep(job: Job, s: State, a: Action)
    requires Inv(job, s) && Enabled(job, s, a)
    ensures Inv(job, Apply(job, s, a))
  {
    ShapeStep(job, s, a);
    forall i: nat
      ensures Places(job, Apply(job, s, a), i) == if i < job.N() then 1 else 0
    {
      PlacesStep(job, s, a, i);
    }
    forall e: Error
      ensures var s' := Apply(job, s, a);
        multiset(s'.errs)[e] + Sum(s'.workers, FailsWith(e)) == multiset(Failures(s'.log))[e]
    {
      ErrorsStep(job, s, a, e);
    }
    if s.waitGroup == 0 {
      AllDone(job, s);
    }
  }

  lemma AllDone(job: Job, s: State)
    requires Shape(job, s) && s.waitGroup == 0
    ensures forall w | 0 <= w < |s.workers| :: s.workers[w].Done?
  {
    SumZero(s.workers, Live);
    forall w | 0 <= w < |s.workers|
      ensures s.workers[w].Done?
    {
      assert Live(s.workers[w]) == 0;
    }
  }

  // ---------------------------------------------------------------- executions

  /** The state after executing `acts`, or None if some action was not enabled. */
  function Execute(job: Job, s: State, acts: seq<Action>): Option<State> {
    if acts == [] then Some(s)
    else
      match Execute(job, s, acts[..|acts| - 1])
      case None => None
      case Some(m) => if Enabled(job, m, acts[|acts| - 1]) then Some(Apply(job, m, acts[|acts| - 1])) else None
  }

  lemma {:induction false} InvAlways(job: Job, records: Records, acts: seq<Action>)
    requires Execute(job, Start(job, records), acts).Some?
    ensures Inv(job, Execute(job, Start(job, records), acts).value)
  {
    if acts == [] {
      InvStart(job, records);
    } else {
      InvAlways(job, records, acts[..|acts| - 1]);
      InvStep(job, Execute(job, Start(job, records), acts[..|acts| - 1]).value, acts[|acts| - 1]);
    }
  }

  /** In every reachable state every index is in exactly one place, and indices outside [0, n) nowhere. */
  lemma EachIndexOnce(job: Job, records: Records, acts: seq<Action>, i: nat)
    requires Execute(job, Start(job, records), acts).Some?
    ensures Places(job, Execute(job, Start(job, records), acts).value, i) == if i < job.N() then 1 else 0
  {
    InvAlways(job, records, acts);
  }

  lemma RoomForError(job: Job, s: State, w: nat)
    requires Inv(job, s) && w < |s.workers| && s.workers[w].Failing?
    ensures |s.errs| + 1 <= job.Workers() && Enabled(job, s, Post(w))
  {
    SumBounds(s.workers, Posted, Pending, 1);
    SumAtLeast(s.workers, w, Pending);
  }

  /** The channel is a queue: it holds the items sent last, in the order they were sent. */
  lemma {:induction false} QueueInOrder(job: Job, records: Records, acts: seq<Action>, i: nat)
    requires Execute(job, Start(job, records), acts).Some?
    requires i < |Execute(job, Start(job, records), acts).value.toProcess|
    ensures var s := Execute(job, Start(job, records), acts).value; s.toProcess[i] + |s.toProcess| == s.next + i
  {
    var before, a := acts[..|acts| - 1], acts[|acts| - 1];
    var m := Execute(job, Start(job, records), before).value;
    if a.Take? {
      QueueInOrder(job, records, before, i + 1);
    } else if !a.Send? || i < |m.toProcess| {
      QueueInOrder(job, records, before, i);
    }
  }

  /** A worker that has an error to report never finds the error channel full. */
  lemma ErrsNeverBlocks(job: Job, records: Records, acts: seq<Action>, w: nat)
    requires Execute(job, Start(job, records), acts).Some?
    requires var s := Execute(job, Start(job, records), acts).value; w < |s.workers| && s.workers[w].Failing?
    ensures var s := Execute(job, Start(job, records), acts).value;
      |s.errs| + 1 <= job.Workers() && Enabled(job, s, Post(w))
  {
    InvAlways(job, records, acts);
    RoomForError(job, Execute(job, Start(job, records), acts).value, w);
  }

  // ---------------------------------------------------------------- progress

  /** Under the invariant some goroutine can move until the caller has returned, whatever the records are. */
  lemma SomeStep(job: Job, s: State) returns (a: Action)
    requires Inv(job, s) && s.caller.Waiting?
    ensures Enabled(job, s, a)
  {
    if forall w | 0 <= w < |s.workers| :: s.workers[w].Done? {
      SumAll(s.workers, Live, 0);
      return Return;
    }
    var w :| 0 <= w < |s.workers| && !s.workers[w].Done?;
    match s.workers[w] {
      case Leaving(_) => a := Signal(w);
      case Failing(_) =>
        RoomForError(job, s, w);
        a := Post(w);
      case Holding(i) =>
        SumAtLeast(s.workers, w, HoldsIndex(i));
        assert Places(job, s, i) == 1;
        a := Answered(w, match job.items[i]
                         case None => Broken(Internal, false)
                         case Some(key) => if key in s.records then Gone else Missing);
      case Idle =>
        if s.toProcess != [] {
          a := Take(w);
        } else if s.closed {
          a := Drain(w);
        } else if s.next < job.N() {
          a := Send;
        } else {
          a := Close;
        }
    }
  }

  /** Some goroutine of the pool can move, until the caller has returned. */
  lemma NeverStuck(job: Job, records: Records, acts: seq<Action>) returns (a: Action)
    requires Execute(job, Start(job, records), acts).Some?
    requires Execute(job, Start(job, records), acts).value.caller.Waiting?
    ensures Enabled(job, Execute(job, Start(job, records), acts).value, a)
  {
    InvAlways(job, records, acts);
    a := SomeStep(job, Execute(job, Start(job, records), acts).value);
  }

  function Weight(w: Worker): nat {
    match w
    case Idle => 2
    case Holding(_) => 4
    case Failing(_) => 3
    case Leaving(_) => 1
    case Done(_) => 0
  }

  /** Work left; every action lowers it. */
  function Measure(job: Job, s: State): int {
    4 * (job.N() - s.next) + 3 * |s.toProcess| + Sum(s.workers, Weight)
    + (if s.closed then 0 else 1) + (if s.caller.Waiting? then 1 else 0)
  }

  lemma MeasureDrops(job: Job, s: State, a: Action)
    requires Shape(job, s) && Enabled(job, s, a)
    ensures 0 <= Measure(job, Apply(job, s, a)) < Measure(job, s)
  {
    var s' := Apply(job, s, a);
    ShapeStep(job, s, a);
    if a.Take? || a.Answered? || a.Post? || a.Drain? || a.Signal? {
      SumUpdate(s.workers, a.w, s'.workers[a.w], Weight);
    }
  }

  /** No execution is longer than 4n + 2W + 2 steps: together with NeverStuck, the caller always returns. */
  lemma {:induction false} Terminates(job: Job, records: Records, acts: seq<Action>)
    requires Execute(job, Start(job, records), acts).Some?
    ensures |acts| + Measure(job, Execute(job, Start(job, records), acts).value) <= 4 * job.N() + 2 * job.Workers() + 2
    ensures 0 <= Measure(job, Execute(job, Start(job, records), acts).value)
  {
    var s0 := Start(job, records);
    if acts == [] {
      SumAll(s0.workers, Weight, 2);
    } else {
      var before := acts[..|acts| - 1];
      Terminates(job, records, before);
      InvAlways(job, records, before);
      MeasureDrops(job, Execute(job, s0, before).value, acts[|acts| - 1]);
    }
  }

  // ---------------------------------------------------------------- the verdict

  /** Once all workers are gone, the channel holds the failures and nothing else. */
  lemma ErrorsAreFailures(job: Job, s: State)
    requires Inv(job, s) && s.waitGroup == 0
    ensures multiset(s.errs) == multiset(Failures(s.log)) && |s.errs| == |Failures(s.log)|
  {
    AllDone(job, s);
    forall e: Error
      ensures multiset(s.errs)[e] == multiset(Failures(s.log))[e]
    {
      SumAll(s.workers, FailsWith(e), 0);
    }
    assert multiset(s.errs) == multiset(Failures(s.log));
    assert |multiset(s.errs)| == |s.errs| && |multiset(Failures(s.log))| == |Failures(s.log)|;
  }

  /** The caller got an error iff some delete failed with something other than NotFound, and it is one of those. */
  ghost predicate HonestVerdict(s: State) {
    && (s.caller.Returned? ==>
          && (s.caller.error.Some? <==> exists i | 0 <= i < |s.log| :: s.log[i].answer.Broken?)
          && (s.caller.error.Some? ==> s.caller.error.value in multiset(Failures(s.log))))
  }

  lemma VerdictIsHonest(job: Job, s: State)
    requires Inv(job, s)
    ensures HonestVerdict(s)
  {
    if s.caller.Returned? {
      NoFailures(s.log);
      ErrorsAreFailures(job, s);
      if s.errs != [] {
        assert s.errs[0] in multiset(s.errs);
      }
    }
  }

  lemma ErrorExactly(job: Job, records: Records, acts: seq<Action>)
    requires Execute(job, Start(job, records), acts).Some?
    requires Execute(job, Start(job, records), acts).value.caller.Returned?
    ensures var s := Execute(job, Start(job, records), acts).value;
      && (s.caller.error.Some? <==> exists i | 0 <= i < |s.log| :: s.log[i].answer.Broken?)
      && (s.caller.error.Some? ==> s.caller.error.value in multiset(Failures(s.log)))
  {
    InvAlways(job, records, acts);
    VerdictIsHonest(job, Execute(job, Start(job, records), acts).value);
  }

  /** Everything was handed out, answered once, and answered without an error. */
  ghost predicate AllAttempted(job: Job, s: State) {
    && s.closed && s.toProcess == [] && s.next == job.N()
    && (forall i | 0 <= i < job.N() :: Attempts(s.log, i) == 1)
    && forall i | 0 <= i < |s.log| :: !s.log[i].answer.Broken?
  }

  lemma NilIsComplete(job: Job, s: State)
    requires Inv(job, s) && s.caller == Returned(None)
    ensures AllAttempted(job, s)
  {
    VerdictIsHonest(job, s);
    AllDone(job, s);
    assert s.errs == [];
    SumZero(s.workers, Posted);
    assert Posted(s.workers[0]) == 0;
    forall i | 0 <= i < job.N()
      ensures Attempts(s.log, i) == 1
    {
      SumAll(s.workers, HoldsIndex(i), 0);
      assert Places(job, s, i) == 1;
    }
  }

  /** A nil return means: every index answered, the channel closed and empty, the distributor finished. */
  lemma NilMeansAllAttempted(job: Job, records: Records, acts: seq<Action>)
    requires Execute(job, Start(job, records), acts).Some?
    requires Execute(job, Start(job, records), acts).value.caller == Returned(None)
    ensures AllAttempted(job, Execute(job, Start(job, records), acts).value)
  {
    InvAlways(job, records, acts);
    NilIsComplete(job, Execute(job, Start(job, records), acts).value);
  }

  /** Once the caller has returned no worker is left to take anything. */
  lemma OnlyDistributorLeft(job: Job, records: Records, acts: seq<Action>, a: Action)
    requires Execute(job, Start(job, records), acts).Some?
    requires Execute(job, Start(job, records), acts).value.caller.Returned?
    requires Enabled(job, Execute(job, Start(job, records), acts).value, a)
    ensures a.Send? || a.Close?
  {
    var s := Execute(job, Start(job, records), acts).value;
    InvAlways(job, records, acts);
    AllDone(job, s);
  }

  // ---------------------------------------------------------------- the distributor left behind

  /** The caller has returned and the distributor, with the channel still open, can never move again. */
  ghost predicate Stranded(job: Job, s: State) {
    s.caller.Returned? && !s.closed && forall a :: !Enabled(job, s, a)
  }

  function Held(w: Worker): nat { if w.Holding? then 1 else 0 }

  /** Everything sent is buffered, in a worker's hand, or answered. */
  lemma {:induction false} SentIsAccountedFor(job: Job, records: Records, acts: seq<Action>)
    requires Execute(job, Start(job, records), acts).Some?
    ensures var s := Execute(job, Start(job, records), acts).value;
      s.next == |s.toProcess| + Sum(s.workers, Held) + |s.log|
  {
    if acts == [] {
      SumAll(Start(job, records).workers, Held, 0);
    } else {
      var before, a := acts[..|acts| - 1], acts[|acts| - 1];
      SentIsAccountedFor(job, records, before);
      var m := Execute(job, Start(job, records), before).value;
      if a.Take? || a.Answered? || a.Post? || a.Drain? || a.Signal? {
        SumUpdate(m.workers, a.w, Apply(job, m, a).workers[a.w], Held);
      }
    }
  }

  lemma {:induction false} FailuresAreAnswers(log: seq<Attempt>)
    ensures |Failures(log)| <= |log|
  {
    if log != [] {
      FailuresAreAnswers(log[..|log| - 1]);
    }
  }

  /** Before the distributor is stranded, every worker has spent an item on an error and the channel is full. */
  lemma StrandedNeedsItems(job: Job, records: Records, acts: seq<Action>)
    requires Execute(job, Start(job, records), acts).Some?
    requires Stranded(job, Execute(job, Start(job, records), acts).value)
    ensures job.N() > 3 * job.Workers()
  {
    var s := Execute(job, Start(job, records), acts).value;
    InvAlways(job, records, acts);
    AllDone(job, s);
    assert !Enabled(job, s, Send) && !Enabled(job, s, Close);
    SumAll(s.workers, Held, 0);
    SumAll(s.workers, Posted, 1);
    SentIsAccountedFor(job, records, acts);
    ErrorsAreFailures(job, s);
    FailuresAreAnswers(s.log);
  }

  /** `acts` leads to m. */
  ghost predicate Reaches(job: Job, records: Records, acts: seq<Action>, m: State) {
    Execute(job, Start(job, records), acts) == Some(m)
  }

  lemma Walk(job: Job, records: Records, acts: seq<Action>, m: State, a: Action) returns (longer: seq<Action>)
    requires Reaches(job, records, acts, m) && Enabled(job, m, a)
    ensures longer == acts + [a] && Reaches(job, records, longer, Apply(job, m, a))
  {
    longer := acts + [a];
    assert longer[..|acts|] == acts;
  }

  /** The distributor sends k more items while nobody else moves. */
  lemma {:induction false} SendMany(job: Job, records: Records, acts: seq<Action>, m: State, k: nat)
    returns (longer: seq<Action>, m': State)
    requires Reaches(job, records, acts, m) && !m.closed
    requires m.next + k <= job.N() && |m.toProcess| + k <= job.ToProcessCapacity()
    requires forall i | i in m.toProcess :: i < job.N()
    ensures Reaches(job, records, longer, m')
    ensures m' == m.(next := m.next + k, toProcess := m'.toProcess)
    ensures |m'.toProcess| == |m.toProcess| + k && forall i | i in m'.toProcess :: i < job.N()
    decreases k
  {
    if k == 0 {
      return acts, m;
    }
    var one := Walk(job, records, acts, m, Send);
    longer, m' := SendMany(job, records, one, Apply(job, m, Send), k - 1);
  }

  /** The first j workers have each failed with e and gone; the others have not started. */
  ghost predicate FirstFailed(job: Job, s: State, e: Error, j: nat) {
    && !s.closed && s.caller.Waiting? && j <= |s.workers| == job.Workers()
    && s.waitGroup == job.Workers() - j && s.next == job.Workers() <= job.N()
    && |s.toProcess| == job.Workers() - j && (forall i | i in s.toProcess :: i < job.N())
    && |s.errs| == j && (forall i | 0 <= i < j :: s.errs[i] == e)
    && forall w | 0 <= w < |s.workers| :: s.workers[w] == if w < j then Done(true) else Idle
  }

  /** Worker w takes an item, gets the error e, posts it and leaves. */
  lemma FailOne(job: Job, records: Records, acts: seq<Action>, m: State, e: Error, w: nat)
    returns (longer: seq<Action>, m': State)
    requires Reaches(job, records, acts, m) && FirstFailed(job, m, e, w) && w < job.Workers() && e != NotFound
    ensures Reaches(job, records, longer, m') && FirstFailed(job, m', e, w + 1)
  {
    assert m.toProcess[0] in m.toProcess && forall i | i in m.toProcess[1..] :: i in m.toProcess;
    longer := Walk(job, records, acts, m, Take(w));
    m' := Apply(job, m, Take(w));
    var answered := Answered(w, Broken(e, false));
    longer := Walk(job, records, longer, m', answered);
    m' := Apply(job, m', answered);
    assert m'.workers == m.workers[w := Failing(e)];
    longer := Walk(job, records, longer, m', Post(w));
    m' := Apply(job, m', Post(w));
    longer := Walk(job, records, longer, m', Signal(w));
    m' := Apply(job, m', Signal(w));
    assert m'.workers == m.workers[w := Done(true)] && m'.errs == m.errs + [e];
  }

  lemma {:induction false} FailMany(job: Job, records: Records, acts: seq<Action>, m: State, e: Error, j: nat)
    returns (longer: seq<Action>, m': State)
    requires Reaches(job, records, acts, m) && FirstFailed(job, m, e, j) && e != NotFound
    ensures Reaches(job, records, longer, m') && FirstFailed(job, m', e, job.Workers())
    decreases job.Workers() - j
  {
    if j == job.Workers() {
      return acts, m;
    }
    var one, m1 := FailOne(job, records, acts, m, e, j);
    longer, m' := FailMany(job, records, one, m1, e, j + 1);
  }

  /** With more than 3W items, every error can be the one that strands the distributor: each worker
      takes an item and fails, the caller returns, and the distributor fills the channel. */
  lemma StrandedIsReachable(job: Job, records: Records, e: Error) returns (acts: seq<Action>)
    requires job.N() > 3 * job.Workers() && e != NotFound
    ensures Execute(job, Start(job, records), acts).Some?
    ensures var s := Execute(job, Start(job, records), acts).value;
      Stranded(job, s) && s.caller == Returned(Some(e))
  {
    var s := Start(job, records);
    acts, s := SendMany(job, records, [], s, job.Workers());
    acts, s := FailMany(job, records, acts, s, e, 0);
    acts := Walk(job, records, acts, s, Return);
    s := Apply(job, s, Return);
    acts, s := SendMany(job, records, acts, s, 2 * job.Workers());
    assert forall a :: !Enabled(job, s, a);
  }

  /**
   The distributor is not waited for. Some execution leaves it blocked for good after the caller has
   returned exactly when there are more items than three times the number of workers.
   */
  lemma DistributorStrandedExactly(job: Job, records: Records)
    ensures (exists acts :: Execute(job, Start(job, records), acts).Some?
                            && Stranded(job, Execute(job, Start(job, records), acts).value))
       <==> job.N() > 3 * job.Workers()
  {
    forall acts | Execute(job, Start(job, records), acts).Some?
                  && Stranded(job, Execute(job, Start(job, records), acts).value)
      ensures job.N() > 3 * job.Workers()
    {
      StrandedNeedsItems(job, records, acts);
    }
    if job.N() > 3 * job.Workers() {
      var acts := StrandedIsReachable(job, records, Internal);
    }
  }

  /** With the limit every storage is given, that is from seven listed items on. */
  lemma DefaultStrandedExactly(items: seq<Option<string>>, records: Records)
    ensures var job := Job(items, DEFAULT_DELETE_COLLECTION_WORKERS);
      (exists acts :: Execute(job, Start(job, records), acts).Some?
                      && Stranded(job, Execute(job, Start(job, records), acts).value))
      <==> |items| >= 7
  {
    DistributorStrandedExactly(Job(items, DEFAULT_DELETE_COLLECTION_WORKERS), records);
  }
}
