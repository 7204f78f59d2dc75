// Tearing one instance down while its workers run (internal/relay/relay.go): every interleaving of
// the coordinator's teardown, the instance's receivers and send worker, and the broadcaster.
module Teardown {
  // Where a goroutine stands. Receivers: before the context check, inside ReadFrom, handling a
  // read error, offering a packet to the broadcast channel, or gone.
  datatype Receiver = Checking | Reading | Erring | Publishing | ReceiverGone
  // The send worker: at its select, writing a dequeued packet, or gone.
  datatype Worker = Selecting | Writing | WorkerGone
  // The broadcaster, as far as this instance goes: elsewhere, or past the ctx.Err check and about
  // to offer a packet to this queue.
  datatype Broadcaster = Elsewhere | Offering
  datatype Coordinator = Cancelling | ClosingSocket(next: nat) | Waiting | ClosingHandle | Finished

  datatype State = State(cancelled: bool, receivers: seq<Receiver>, worker: Worker, queue: nat, capacity: nat,
                         broadcaster: Broadcaster, coordinator: Coordinator, handleOpen: bool)

  datatype Event =
    | ReceiverChecks(i: nat)           // select on ctx.Done with a default
    | ReadReturns(i: nat, ok: bool)    // ReadFrom returns, at its deadline at the latest
    | ReceiverErrs(i: nat)             // re-checks the context after a read error
    | Publishes(i: nat)                // the channel send is chosen; whether there is room is left open
    | GivesUp(i: nat)                  // ctx.Done is chosen instead
    | Dequeues
    | WriteReturns                     // bounded by the write deadline
    | WorkerExits
    | BroadcasterChecks                // ctx.Err is nil: the packet will be offered
    | Enqueues                         // or drops it, when the queue is full
    | ParentCancels                    // the whole relay shuts down
    | TeardownSteps

  predicate AllGone(s: State) {
    s.worker.WorkerGone? && forall i | 0 <= i < |s.receivers| :: s.receivers[i].ReceiverGone?
  }

  predicate Enabled(s: State, e: Event) {
    match e
    case ReceiverChecks(i) => i < |s.receivers| && s.receivers[i].Checking?
    case ReadReturns(i, _) => i < |s.receivers| && s.receivers[i].Reading?
    case ReceiverErrs(i) => i < |s.receivers| && s.receivers[i].Erring?
    case Publishes(i) => i < |s.receivers| && s.receivers[i].Publishing?
    case GivesUp(i) => i < |s.receivers| && s.receivers[i].Publishing? && s.cancelled
    case Dequeues => s.worker.Selecting? && s.queue > 0
    case WriteReturns => s.worker.Writing?
    case WorkerExits => s.worker.Selecting? && s.cancelled
    case BroadcasterChecks => s.broadcaster.Elsewhere? && !s.cancelled
    case Enqueues => s.broadcaster.Offering?
    case ParentCancels => !s.cancelled
    case TeardownSteps => !s.coordinator.Finished? && (s.coordinator.Waiting? ==> AllGone(s))
  }

  function SetReceiver(s: State, i: nat, r: Receiver): State
    requires i < |s.receivers|
  {
    s.(receivers := s.receivers[i := r])
  }

  function TeardownStep(s: State): State {
    match s.coordinator
    case Cancelling => s.(cancelled := true, coordinator := ClosingSocket(0))
    case ClosingSocket(k) =>
      if k < |s.receivers| then s.(coordinator := ClosingSocket(k + 1)) else s.(coordinator := Waiting)
    case Waiting => s.(coordinator := ClosingHandle)
    case ClosingHandle => s.(handleOpen := false, coordinator := Finished)
    case Finished => s
  }

  function Step(s: State, e: Event): State {
    if !Enabled(s, e) then s
    else match e
    case ReceiverChecks(i) => SetReceiver(s, i, if s.cancelled then ReceiverGone else Reading)
    case ReadReturns(i, ok) => SetReceiver(s, i, if ok then Publishing else Erring)
    case ReceiverErrs(i) => SetReceiver(s, i, if s.cancelled then ReceiverGone else Checking)
    case Publishes(i) => SetReceiver(s, i, Checking)
    case GivesUp(i) => SetReceiver(s, i, ReceiverGone)
    case Dequeues => s.(worker := Writing, queue := s.queue - 1)
    case WriteReturns => s.(worker := Selecting)
    case WorkerExits => s.(worker := WorkerGone)
    case BroadcasterChecks => s.(broadcaster := Offering)
    case Enqueues => s.(broadcaster := Elsewhere, queue := if s.queue < s.capacity then s.queue + 1 else s.queue)
    case ParentCancels => s.(cancelled := true)
    case TeardownSteps => TeardownStep(s)
  }

  function Run(s: State, events: seq<Event>): State {
    if events == [] then s else Step(Run(s, events[..|events| - 1]), events[|events| - 1])
  }

  // A freshly built instance: one receiver per socket and one worker, all at their first step.
  predicate Built(s: State) {
    && !s.cancelled && s.handleOpen && s.coordinator.Cancelling? && s.broadcaster.Elsewhere?
    && s.queue == 0 && s.worker.Selecting?
    && (forall i | 0 <= i < |s.receivers| :: s.receivers[i].Checking?)
  }

  // ---- Safety ----

  predicate Inv(s: State) {
    && (!s.coordinator.Cancelling? ==> s.cancelled)
    && (s.handleOpen <==> !s.coordinator.Finished?)
    && (s.coordinator.ClosingHandle? || s.coordinator.Finished? ==> AllGone(s))
    && (!s.cancelled ==> !s.worker.WorkerGone? && forall i | 0 <= i < |s.receivers| :: !s.receivers[i].ReceiverGone?)
  }

  lemma StepKeepsInv(s: State, e: Event)
    requires Inv(s)
    ensures Inv(Step(s, e))
  {
  }

  // The handle is closed only once every worker of the instance has exited, and no worker exits
  // before the context is cancelled.
  lemma {:induction false} HandleOutlivesWorkers(s: State, events: seq<Event>)
    requires Built(s)
    ensures var t := Run(s, events);
            && Inv(t)
            && (!t.handleOpen ==> AllGone(t))
            && (t.worker.WorkerGone? || (exists i :: 0 <= i < |t.receivers| && t.receivers[i].ReceiverGone?) ==> t.cancelled)
  {
    if events == [] {
    } else {
      HandleOutlivesWorkers(s, events[..|events| - 1]);
      StepKeepsInv(Run(s, events[..|events| - 1]), events[|events| - 1]);
    }
  }

  // ---- How often each thing can still happen once the context is cancelled ----

  // What goroutine i may still publish, what the broadcaster may still enqueue, and how many
  // iterations the worker has left.
  function PublishCredit(s: State, i: nat): nat {
    if i < |s.receivers| && (s.receivers[i].Reading? || s.receivers[i].Publishing?) then 1 else 0
  }

  function EnqueueCredit(s: State): nat {
    if s.broadcaster.Offering? then 1 else 0
  }

  function WorkerCredit(s: State): nat {
    if s.worker.WorkerGone? then 0 else s.queue + EnqueueCredit(s) + 1
  }

  // How many events of a run from `s` satisfy the guard of the thing counted.
  function Published(s: State, events: seq<Event>, i: nat): nat {
    if events == [] then 0
    else
      var init, e := events[..|events| - 1], events[|events| - 1];
      Published(s, init, i) + (if e == Publishes(i) && Enabled(Run(s, init), e) then 1 else 0)
  }

  function Enqueued(s: State, events: seq<Event>): nat {
    if events == [] then 0
    else
      var init, e := events[..|events| - 1], events[|events| - 1];
      Enqueued(s, init) + (if e.Enqueues? && Enabled(Run(s, init), e) then 1 else 0)
  }

  // Turns of the worker's select: dequeues, and the exit.
  function WorkerTurns(s: State, events: seq<Event>): nat {
    if events == [] then 0
    else
      var init, e := events[..|events| - 1], events[|events| - 1];
      WorkerTurns(s, init) + (if (e.Dequeues? || e.WorkerExits?) && Enabled(Run(s, init), e) then 1 else 0)
  }

  lemma {:induction false} CancelledStays(s: State, events: seq<Event>)
    requires s.cancelled
    ensures Run(s, events).cancelled && |Run(s, events).receivers| == |s.receivers|
  {
    if events == [] {
    } else {
      CancelledStays(s, events[..|events| - 1]);
    }
  }

  lemma StepSpendsPublishCredit(s: State, e: Event, i: nat)
    requires s.cancelled
    ensures PublishCredit(Step(s, e), i) + (if e == Publishes(i) && Enabled(s, e) then 1 else 0) <= PublishCredit(s, i)
  {
  }

  // After cancellation a receiver publishes at most one more packet: none at all unless it was
  // already past its context check.
  lemma {:induction false} LastPublish(s: State, events: seq<Event>, i: nat)
    requires s.cancelled
    ensures Published(s, events, i) + PublishCredit(Run(s, events), i) <= PublishCredit(s, i) <= 1
  {
    if events == [] {
    } else {
      var init := events[..|events| - 1];
      LastPublish(s, init, i);
      CancelledStays(s, init);
      StepSpendsPublishCredit(Run(s, init), events[|events| - 1], i);
    }
  }

  lemma StepSpendsEnqueueCredit(s: State, e: Event)
    requires s.cancelled
    ensures EnqueueCredit(Step(s, e)) + (if e.Enqueues? && Enabled(s, e) then 1 else 0) <= EnqueueCredit(s)
  {
  }

  // The broadcaster offers this queue at most one more packet.
  lemma {:induction false} LastEnqueue(s: State, events: seq<Event>)
    requires s.cancelled
    ensures Enqueued(s, events) + EnqueueCredit(Run(s, events)) <= EnqueueCredit(s) <= 1
  {
    if events == [] {
    } else {
      var init := events[..|events| - 1];
      LastEnqueue(s, init);
      CancelledStays(s, init);
      StepSpendsEnqueueCredit(Run(s, init), events[|events| - 1]);
    }
  }

  lemma StepSpendsWorkerCredit(s: State, e: Event)
    requires s.cancelled
    ensures WorkerCredit(Step(s, e)) + (if (e.Dequeues? || e.WorkerExits?) && Enabled(s, e) then 1 else 0)
         <= WorkerCredit(s)
  {
  }

  // The worker's remaining turns are at most the packets queued, that one more, and its exit.
  lemma {:induction false} LastTurns(s: State, events: seq<Event>)
    requires s.cancelled
    ensures WorkerTurns(s, events) + WorkerCredit(Run(s, events)) <= WorkerCredit(s) <= s.queue + 2
  {
    if events == [] {
    } else {
      var init := events[..|events| - 1];
      LastTurns(s, init);
      CancelledStays(s, init);
      StepSpendsWorkerCredit(Run(s, init), events[|events| - 1]);
    }
  }

  // ---- Termination ----

  function ReceiverRank(r: Receiver): nat {
    match r
    case Reading => 3
    case Publishing => 2
    case Checking => 1
    case Erring => 1
    case ReceiverGone => 0
  }

  function ReceiverRanks(rs: seq<Receiver>): nat {
    if rs == [] then 0 else ReceiverRanks(rs[..|rs| - 1]) + ReceiverRank(rs[|rs| - 1])
  }

  function WorkerRank(s: State): nat {
    match s.worker
    case WorkerGone => 0
    case Selecting => 2 * s.queue + 1
    case Writing => 2 * s.queue + 2
  }

  function TeardownRank(s: State): nat {
    match s.coordinator
    case Cancelling => |s.receivers| + 4
    case ClosingSocket(k) => if k <= |s.receivers| then |s.receivers| - k + 3 else 3
    case Waiting => 2
    case ClosingHandle => 1
    case Finished => 0
  }

  // An explicit bound on the steps that are left in the teardown.
  function Rank(s: State): nat {
    ReceiverRanks(s.receivers) + WorkerRank(s) + 3 * EnqueueCredit(s) + TeardownRank(s)
  }

  lemma {:induction false} RanksUpdate(rs: seq<Receiver>, i: nat, r: Receiver)
    requires i < |rs|
    ensures ReceiverRanks(rs[i := r]) == ReceiverRanks(rs) - ReceiverRank(rs[i]) + ReceiverRank(r)
  {
    var n := |rs| - 1;
    if i == n {
      assert rs[i := r][..n] == rs[..n];
    } else {
      assert rs[i := r][..n] == rs[..n][i := r];
      RanksUpdate(rs[..n], i, r);
    }
  }

  lemma ReceiverLowersRank(s: State, i: nat, r: Receiver)
    requires i < |s.receivers| && ReceiverRank(r) < ReceiverRank(s.receivers[i])
    ensures Rank(SetReceiver(s, i, r)) < Rank(s)
  {
    RanksUpdate(s.receivers, i, r);
  }

  lemma TeardownLowersRank(s: State)
    requires s.cancelled && Enabled(s, TeardownSteps)
    ensures Rank(TeardownStep(s)) < Rank(s)
  {
    hide ReceiverRanks;
  }

  lemma StepLowersRank(s: State, e: Event)
    requires s.cancelled && Enabled(s, e)
    ensures Rank(Step(s, e)) < Rank(s)
  {
    hide ReceiverRanks;
    match e
    case ReceiverChecks(i) => ReceiverLowersRank(s, i, ReceiverGone);
    case ReadReturns(i, ok) => ReceiverLowersRank(s, i, if ok then Publishing else Erring);
    case ReceiverErrs(i) => ReceiverLowersRank(s, i, ReceiverGone);
    case Publishes(i) => ReceiverLowersRank(s, i, Checking);
    case GivesUp(i) => ReceiverLowersRank(s, i, ReceiverGone);
    case TeardownSteps => TeardownLowersRank(s);
    case _ =>
  }

  function Steps(s: State, events: seq<Event>): nat {
    if events == [] then 0
    else
      var init, e := events[..|events| - 1], events[|events| - 1];
      Steps(s, init) + (if Enabled(Run(s, init), e) then 1 else 0)
  }

  lemma {:induction false} StepsAreBounded(s: State, events: seq<Event>)
    requires Inv(s) && s.cancelled
    ensures Inv(Run(s, events)) && Run(s, events).cancelled
    ensures Steps(s, events) + Rank(Run(s, events)) <= Rank(s)
  {
    if events == [] {
    } else {
      var t, e := Run(s, events[..|events| - 1]), events[|events| - 1];
      StepsAreBounded(s, events[..|events| - 1]);
      StepKeepsInv(t, e);
      if Enabled(t, e) {
        StepLowersRank(t, e);
      }
    }
  }

  // While the teardown is not finished something of this instance can move: wg.Wait is never stuck,
  // even with a full broadcast channel.
  lemma NeverStuck(s: State) returns (e: Event)
    requires Inv(s) && s.cancelled && !s.coordinator.Finished?
    ensures Enabled(s, e) && !e.Publishes? && !e.Enqueues?
  {
    if !s.coordinator.Waiting? || AllGone(s) {
      return TeardownSteps;
    }
    if s.worker.Selecting? {
      return WorkerExits;
    }
    if s.worker.Writing? {
      return WriteReturns;
    }
    var i :| 0 <= i < |s.receivers| && !s.receivers[i].ReceiverGone?;
    match s.receivers[i]
    case Checking => return ReceiverChecks(i);
    case Reading => return ReadReturns(i, false);
    case Erring => return ReceiverErrs(i);
    case Publishing => return GivesUp(i);
  }

  // Teardown terminates under every interleaving: from any reachable cancelled state every run has
  // at most Rank(s) steps, and a run that cannot be extended has closed the handle.
  lemma TeardownTerminates(start: State, before: seq<Event>, events: seq<Event>)
    requires Built(start) && Run(start, before).cancelled
    ensures var s := Run(start, before);
            && Steps(s, events) <= Rank(s)
            && (Run(s, events).handleOpen ==> exists e :: Enabled(Run(s, events), e) && !e.Publishes? && !e.Enqueues?)
  {
    HandleOutlivesWorkers(start, before);
    var s := Run(start, before);
    StepsAreBounded(s, events);
    if Run(s, events).handleOpen {
      var e := NeverStuck(Run(s, events));
    }
  }
}
