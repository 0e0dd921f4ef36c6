/**
 WatchWrapper as a step machine: the upstream watch, the Run goroutine that holds the wrapper's
 mutex for its whole loop, concurrent Stop calls, cancellation, and the consumer of the bounded
 result channel.
 */
module Watch {
  import opened Wrappers
  import opened Json

  datatype Event = Event(kind: string, obj: Json)

  type Fixup = Option<Json -> Json>

  datatype Holder = Nobody | RunGoroutine | StopCall(id: nat)

  datatype RunPc = Ready | Selecting | Sending(event: Event) | Finished

  datatype StopPc = Waiting | Locked | Stopped

  datatype State = State(
    emitted: seq<Event>,    // everything upstream has put on its channel
    upstream: seq<Event>,   // of that, what Run has not received
    upstreamClosed: bool,
    cancelled: bool,
    mutex: Holder,
    run: RunPc,
    stops: map<nat, StopPc>,
    result: seq<Event>,
    taken: seq<Event>,      // what Run has received
    consumed: seq<Event>)   // what the consumer has received

  datatype Action =
    | Emit(event: Event) | CloseUpstream | Cancel
    | RunLock | SeeDone | SeeClosed | Receive | Push
    | Consume | HandOver
    | CallStop(id: nat) | LockStop(id: nat) | StopUpstream(id: nat) | UnlockStop(id: nat)

  function Start(): State {
    State([], [], false, false, Nobody, Ready, map[], [], [], [])
  }

  /** `size` is the capacity of the result channel. HandOver is a send that meets a waiting receiver. */
  predicate Enabled(size: nat, s: State, a: Action) {
    match a
    case Emit(_) => !s.upstreamClosed
    case CloseUpstream => !s.upstreamClosed
    case Cancel => !s.cancelled
    case RunLock => s.run.Ready? && s.mutex.Nobody?
    case SeeDone => s.run.Selecting? && s.cancelled
    case SeeClosed => s.run.Selecting? && s.upstream == [] && s.upstreamClosed
    case Receive => s.run.Selecting? && s.upstream != []
    case Push => s.run.Sending? && |s.result| < size
    case Consume => s.result != []
    case HandOver => s.run.Sending? && s.result == []
    case CallStop(id) => id !in s.stops
    case LockStop(id) => id in s.stops && s.stops[id].Waiting? && s.mutex.Nobody?
    case StopUpstream(id) => id in s.stops && s.stops[id].Locked?
    case UnlockStop(id) => id in s.stops && s.stops[id].Stopped?
  }

  /** The event Run forwards: its type unchanged, its object fixed up when there is a fixup. */
  function Fixed(fixup: Fixup, e: Event): Event {
    match fixup
    case None => e
    case Some(f) => Event(e.kind, f(e.obj))
  }

  function FixedAll(fixup: Fixup, es: seq<Event>): seq<Event> {
    seq(|es|, i requires 0 <= i < |es| => Fixed(fixup, es[i]))
  }

  function Next(size: nat, fixup: Fixup, s: State, a: Action): State
    requires Enabled(size, s, a)
  {
    match a
    case Emit(e) => s.(emitted := s.emitted + [e], upstream := s.upstream + [e])
    case CloseUpstream => s.(upstreamClosed := true)
    case Cancel => s.(cancelled := true)
    case RunLock => s.(mutex := RunGoroutine, run := Selecting)
    case SeeDone => s.(mutex := Nobody, run := Finished)
    case SeeClosed => s.(mutex := Nobody, run := Finished)
    case Receive =>
      var e := s.upstream[0];
      s.(upstream := s.upstream[1..], taken := s.taken + [e], run := Sending(Fixed(fixup, e)))
    case Push => s.(result := s.result + [s.run.event], run := Selecting)
    case Consume => s.(result := s.result[1..], consumed := s.consumed + [s.result[0]])
    case HandOver => s.(consumed := s.consumed + [s.run.event], run := Selecting)
    case CallStop(id) => s.(stops := s.stops[id := Waiting])
    case LockStop(id) => s.(mutex := StopCall(id), stops := s.stops[id := Locked])
    case StopUpstream(id) => s.(stops := s.stops[id := Stopped])
    case UnlockStop(id) => s.(mutex := Nobody, stops := s.stops - {id})
  }

  function Execute(size: nat, fixup: Fixup, s: State, acts: seq<Action>): Option<State> {
    if acts == [] then Some(s)
    else
      match Execute(size, fixup, s, acts[..|acts| - 1])
      case None => None
      case Some(m) =>
        if Enabled(size, m, acts[|acts| - 1]) then Some(Next(size, fixup, m, acts[|acts| - 1])) else None
  }

  predicate InLoop(s: State) {
    s.run.Selecting? || s.run.Sending?
  }

  function InHand(s: State): seq<Event> {
    if s.run.Sending? then [s.run.event] else []
  }

  /** Nothing lost, nothing repeated, nothing reordered, at most one event in hand. */
  ghost predicate Lossless(fixup: Fixup, s: State) {
    && s.emitted == s.taken + s.upstream
    && FixedAll(fixup, s.taken) == s.consumed + s.result + InHand(s)
  }

  /** The mutex is held by Run exactly during its loop, and by a Stop exactly while it is inside. */
  ghost predicate Exclusive(s: State) {
    && (s.mutex.RunGoroutine? <==> InLoop(s))
    && (s.mutex.StopCall? ==> s.mutex.id in s.stops)
    && forall id | id in s.stops :: !s.stops[id].Waiting? <==> s.mutex == StopCall(id)
  }

  lemma FixedAppend(fixup: Fixup, es: seq<Event>, e: Event)
    ensures FixedAll(fixup, es + [e]) == FixedAll(fixup, es) + [Fixed(fixup, e)]
  {
  }

  lemma ReceiveLossless(size: nat, fixup: Fixup, s: State)
    requires Lossless(fixup, s) && Enabled(size, s, Receive)
    ensures Lossless(fixup, Next(size, fixup, s, Receive))
  {
    var s' := Next(size, fixup, s, Receive);
    FixedAppend(fixup, s.taken, s.upstream[0]);
    assert s.upstream == [s.upstream[0]] + s.upstream[1..];
    assert InHand(s) == [] && InHand(s') == [Fixed(fixup, s.upstream[0])];
  }

  lemma ConsumeLossless(size: nat, fixup: Fixup, s: State)
    requires Lossless(fixup, s) && Enabled(size, s, Consume)
    ensures Lossless(fixup, Next(size, fixup, s, Consume))
  {
    assert s.result == [s.result[0]] + s.result[1..];
  }

  lemma EmitLossless(size: nat, fixup: Fixup, s: State, e: Event)
    requires Lossless(fixup, s) && Enabled(size, s, Emit(e))
    ensures Lossless(fixup, Next(size, fixup, s, Emit(e)))
  {
    assert s.taken + (s.upstream + [e]) == s.emitted + [e];
  }

  lemma LosslessStep(size: nat, fixup: Fixup, s: State, a: Action)
    requires Lossless(fixup, s) && Enabled(size, s, a)
    ensures Lossless(fixup, Next(size, fixup, s, a))
  {
    match a
    case Receive => ReceiveLossless(size, fixup, s);
    case Consume => ConsumeLossless(size, fixup, s);
    case Emit(e) => EmitLossless(size, fixup, s, e);
    case _ =>
  }

  lemma ExclusiveStep(size: nat, fixup: Fixup, s: State, a: Action)
    requires Exclusive(s) && Enabled(size, s, a)
    ensures Exclusive(Next(size, fixup, s, a))
  {
  }

  lemma {:induction false} InvAlways(size: nat, fixup: Fixup, acts: seq<Action>)
    requires Execute(size, fixup, Start(), acts).Some?
    ensures var s := Execute(size, fixup, Start(), acts).value;
      Lossless(fixup, s) && Exclusive(s) && |s.result| <= size
  {
    if acts != [] {
      var before := acts[..|acts| - 1];
      InvAlways(size, fixup, before);
      var m := Execute(size, fixup, Start(), before).value;
      LosslessStep(size, fixup, m, acts[|acts| - 1]);
      ExclusiveStep(size, fixup, m, acts[|acts| - 1]);
    }
  }

  /** What the consumer has is always an exact prefix of the fixed-up upstream events, in order; when
      Run has finished, every event it ever took has been delivered or is waiting in the channel. */
  lemma ForwardsInOrder(size: nat, fixup: Fixup, acts: seq<Action>)
    requires Execute(size, fixup, Start(), acts).Some?
    ensures var s := Execute(size, fixup, Start(), acts).value;
      && s.consumed <= FixedAll(fixup, s.emitted)
      && (s.run.Finished? ==> s.consumed + s.result == FixedAll(fixup, s.taken))
      && forall i | 0 <= i < |s.consumed| :: s.consumed[i].kind == s.emitted[i].kind
  {
    InvAlways(size, fixup, acts);
    var s := Execute(size, fixup, Start(), acts).value;
    PrefixIsFixed(fixup, s.taken, s.upstream, s.consumed, s.result + InHand(s));
  }

  lemma PrefixIsFixed(fixup: Fixup, taken: seq<Event>, upstream: seq<Event>, consumed: seq<Event>, waiting: seq<Event>)
    requires FixedAll(fixup, taken) == consumed + waiting
    ensures consumed <= FixedAll(fixup, taken + upstream)
    ensures forall i | 0 <= i < |consumed| :: consumed[i].kind == (taken + upstream)[i].kind
  {
    var fixed := FixedAll(fixup, taken + upstream);
    forall i | 0 <= i < |consumed|
      ensures fixed[i] == consumed[i] && consumed[i].kind == taken[i].kind
    {
      assert consumed[i] == FixedAll(fixup, taken)[i];
    }
  }

  /** What an event must look like when it is forwarded: its object fixed up, or as it came without a fixup. */
  predicate IsForwarded(fixup: Fixup, came: Event, goes: Event) {
    goes.kind == came.kind && match fixup case None => goes.obj == came.obj case Some(f) => goes.obj == f(came.obj)
  }

  /** Event i of `part` is what upstream's event start + i must be forwarded as. */
  predicate AllForwarded(fixup: Fixup, emitted: seq<Event>, start: nat, part: seq<Event>) {
    start + |part| <= |emitted| && forall i | 0 <= i < |part| :: IsForwarded(fixup, emitted[start + i], part[i])
  }

  /** The fixup is applied once to each event: to what was consumed, to what waits in the channel, and to the one
      in hand, counting on from the first event that upstream ever emitted. */
  lemma FixupApplied(size: nat, fixup: Fixup, acts: seq<Action>)
    requires Execute(size, fixup, Start(), acts).Some?
    ensures var s := Execute(size, fixup, Start(), acts).value;
      && |s.consumed| + |s.result| + |InHand(s)| + |s.upstream| == |s.emitted|
      && AllForwarded(fixup, s.emitted, 0, s.consumed)
      && AllForwarded(fixup, s.emitted, |s.consumed|, s.result)
      && AllForwarded(fixup, s.emitted, |s.consumed| + |s.result|, InHand(s))
  {
    InvAlways(size, fixup, acts);
    var s := Execute(size, fixup, Start(), acts).value;
    FixedOnce(fixup, s.taken, s.emitted, s.consumed, s.result, InHand(s));
  }

  lemma FixedOnce(fixup: Fixup, taken: seq<Event>, emitted: seq<Event>,
                  consumed: seq<Event>, result: seq<Event>, hand: seq<Event>)
    requires taken <= emitted && FixedAll(fixup, taken) == consumed + result + hand
    ensures |consumed| + |result| + |hand| == |taken|
    ensures AllForwarded(fixup, emitted, 0, consumed) && AllForwarded(fixup, emitted, |consumed|, result)
    ensures AllForwarded(fixup, emitted, |consumed| + |result|, hand)
  {
    var all := FixedAll(fixup, taken);
    assert |all| == |taken|;
    assert forall i | 0 <= i < |all| :: IsForwarded(fixup, emitted[i], all[i]);
    assert forall i | 0 <= i < |consumed| :: consumed[i] == all[i];
    assert forall i | 0 <= i < |result| :: result[i] == all[|consumed| + i];
    assert forall i | 0 <= i < |hand| :: hand[i] == all[|consumed| + |result| + i];
  }

  /** The upstream watcher is never stopped while Run is in its loop. */
  lemma NeverStoppedInLoop(size: nat, fixup: Fixup, acts: seq<Action>, id: nat)
    requires Execute(size, fixup, Start(), acts).Some?
    requires Enabled(size, Execute(size, fixup, Start(), acts).value, StopUpstream(id))
    ensures !InLoop(Execute(size, fixup, Start(), acts).value)
  {
    InvAlways(size, fixup, acts);
  }

  /** Conversely a Stop that arrives during the loop waits until Run returns. */
  lemma StopWaitsForRun(size: nat, fixup: Fixup, acts: seq<Action>, id: nat)
    requires Execute(size, fixup, Start(), acts).Some?
    requires InLoop(Execute(size, fixup, Start(), acts).value)
    ensures var s := Execute(size, fixup, Start(), acts).value;
      && !Enabled(size, s, LockStop(id)) && !Enabled(size, s, StopUpstream(id)) && !Enabled(size, s, UnlockStop(id))
  {
    InvAlways(size, fixup, acts);
  }

  predicate RunCanMove(size: nat, s: State) {
    || Enabled(size, s, SeeDone) || Enabled(size, s, SeeClosed)
    || Enabled(size, s, Receive) || Enabled(size, s, Push)
  }

  /**
   Cancellation does not always end the loop. Once cancelled, Run can move on its own exactly while the
   consumer is no more events behind than the result channel holds.
   */
  lemma CancelFreesRunExactly(size: nat, fixup: Fixup, acts: seq<Action>)
    requires Execute(size, fixup, Start(), acts).Some?
    requires var s := Execute(size, fixup, Start(), acts).value; InLoop(s) && s.cancelled
    ensures var s := Execute(size, fixup, Start(), acts).value;
      RunCanMove(size, s) <==> |s.taken| - |s.consumed| <= size
  {
    InvAlways(size, fixup, acts);
    var s := Execute(size, fixup, Start(), acts).value;
    assert |s.taken| == |FixedAll(fixup, s.taken)| == |s.consumed| + |s.result| + |InHand(s)|;
  }

  // ---------------------------------------------------------------- a cancelled wrapper that stays

  /** Cancelled, an event in hand, the channel full: Run holds the mutex and waits for the consumer. */
  ghost predicate Stuck(size: nat, s: State) {
    s.cancelled && s.run.Sending? && |s.result| == size && s.mutex.RunGoroutine?
  }

  /** `acts` leads to m. */
  ghost predicate Reaches(size: nat, fixup: Fixup, acts: seq<Action>, m: State) {
    Execute(size, fixup, Start(), acts) == Some(m)
  }

  lemma Walk(size: nat, fixup: Fixup, acts: seq<Action>, m: State, a: Action) returns (longer: seq<Action>)
    requires Reaches(size, fixup, acts, m) && Enabled(size, m, a)
    ensures Reaches(size, fixup, longer, Next(size, fixup, m, a))
  {
    longer := acts + [a];
    assert longer[..|acts|] == acts;
  }

  /** Upstream emits an event and Run forwards it into the channel, k times over. */
  lemma {:induction false} FillMany(size: nat, fixup: Fixup, acts: seq<Action>, m: State, e: Event, k: nat)
    returns (longer: seq<Action>, m': State)
    requires Reaches(size, fixup, acts, m) && m.run.Selecting? && !m.upstreamClosed && |m.result| + k <= size
    requires m.mutex.RunGoroutine?
    ensures Reaches(size, fixup, longer, m') && m'.run.Selecting? && !m'.upstreamClosed
    ensures |m'.result| == |m.result| + k && m'.cancelled == m.cancelled && m'.mutex == m.mutex
    decreases k
  {
    if k == 0 {
      return acts, m;
    }
    longer := Walk(size, fixup, acts, m, Emit(e));
    m' := Next(size, fixup, m, Emit(e));
    longer := Walk(size, fixup, longer, m', Receive);
    m' := Next(size, fixup, m', Receive);
    longer := Walk(size, fixup, longer, m', Push);
    m' := Next(size, fixup, m', Push);
    longer, m' := FillMany(size, fixup, longer, m', e, k - 1);
  }

  /** It happens for every size: one event more than the channel holds, a consumer that stops, a cancellation. */
  lemma StuckIsReachable(size: nat, fixup: Fixup, e: Event) returns (acts: seq<Action>)
    ensures Execute(size, fixup, Start(), acts).Some?
    ensures Stuck(size, Execute(size, fixup, Start(), acts).value)
  {
    var s := Start();
    acts := Walk(size, fixup, [], s, RunLock);
    s := Next(size, fixup, s, RunLock);
    acts, s := FillMany(size, fixup, acts, s, e, size);
    acts := Walk(size, fixup, acts, s, Emit(e));
    s := Next(size, fixup, s, Emit(e));
    acts := Walk(size, fixup, acts, s, Receive);
    s := Next(size, fixup, s, Receive);
    if !s.cancelled {
      acts := Walk(size, fixup, acts, s, Cancel);
    }
  }

  predicate NoConsumer(acts: seq<Action>) {
    forall i | 0 <= i < |acts| :: !acts[i].Consume? && !acts[i].HandOver?
  }

  /** And it is for good: whatever happens next, if the consumer takes nothing, Run is where it was and
      every Stop call is still waiting for the mutex. */
  lemma {:induction false} StrandedWithoutConsumer(size: nat, fixup: Fixup, acts: seq<Action>, more: seq<Action>)
    requires Execute(size, fixup, Start(), acts).Some?
    requires Stuck(size, Execute(size, fixup, Start(), acts).value)
    requires NoConsumer(more) && Execute(size, fixup, Start(), acts + more).Some?
    ensures var s, s' := Execute(size, fixup, Start(), acts).value, Execute(size, fixup, Start(), acts + more).value;
      && Stuck(size, s') && s'.run == s.run && s'.result == s.result && s'.taken == s.taken
      && forall id | id in s'.stops :: s'.stops[id].Waiting?
  {
    InvAlways(size, fixup, acts + more);
    if more == [] {
      assert acts + more == acts;
    } else {
      var all := acts + more;
      assert all[..|all| - 1] == acts + more[..|more| - 1];
      StrandedWithoutConsumer(size, fixup, acts, more[..|more| - 1]);
      assert all[|all| - 1] == more[|more| - 1];
    }
  }
}
