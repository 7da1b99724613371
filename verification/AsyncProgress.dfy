/**
 What the workers and requests of horse64/asyncsysjob.c can get done: a sleeping worker with a job to do starts it by
 its own steps, and a request that signals the events gets stuck exactly when a socket is full and nobody drains it.
 */
module AsyncProgress {
  import TE = ThreadEvent
  import opened AsyncJobs

  // ------------------------------------------------------------ steps of one worker

  /** The steps of a worker inside its wait, as steps of the whole. */
  function Lift(w: nat, steps: seq<TE.Step>): (r: seq<Step>)
    ensures |r| == |steps| && forall k :: 0 <= k < |r| ==> r[k] == Wait(w, steps[k])
  {
    seq(|steps|, k requires 0 <= k < |steps| => Wait(w, steps[k]))
  }

  /** The steps belong to a wait that returns with the last of them and never times out. */
  ghost predicate ReturnsAtLast(e: TE.Event, steps: seq<TE.Step>)
    requires TE.Possible(e, steps)
    decreases steps
  {
    && |steps| > 0
    && (steps[0] == TE.WaitEnter(true) || steps[0] == TE.PollEnds(true) || steps[0].Receive? || steps[0].ReceiveNothing?
        || steps[0] == TE.Recheck(true))
    && var e' := TE.Apply(e, steps[0]);
    if |steps| == 1 then e'.owner.Outside? else !e'.owner.Outside? && ReturnsAtLast(e', steps[1..])
  }

  /** The state once the wait of worker w has come to event e. */
  function Waited(s: State, w: nat, e: TE.Event): State {
    s.(events := s.events[w := e], workers := if e.owner.Outside? then s.workers[w := Scanning] else s.workers)
  }

  lemma {:induction false} LiftReturns(s: State, w: nat, steps: seq<TE.Step>)
    requires w in s.workers && s.workers[w].Waiting? && w in s.events
    requires TE.Possible(s.events[w], steps) && ReturnsAtLast(s.events[w], steps)
    ensures Possible(s, Lift(w, steps)) && After(s, Lift(w, steps)) == Waited(s, w, TE.After(s.events[w], steps))
    ensures TE.After(s.events[w], steps).owner.Outside?
    decreases steps
  {
    var e' := TE.Apply(s.events[w], steps[0]);
    var s' := Apply(s, Wait(w, steps[0]));
    assert Lift(w, steps)[1..] == Lift(w, steps[1..]);
    assert s' == Waited(s, w, e');
    if |steps| == 1 {
      assert steps[1..] == [] && Lift(w, []) == [];
      assert TE.After(e', []) == e' && After(s', []) == s';
    } else {
      LiftReturns(s', w, steps[1..]);
      assert Waited(s', w, TE.After(e', steps[1..])) == Waited(s, w, TE.After(e', steps[1..]));
    }
  }

  lemma {:induction false} DrainReturnsAtLast(e: TE.Event)
    requires e.owner.Draining? && e.raised && TE.Possible(e, TE.DrainSteps(e.bytes))
    ensures ReturnsAtLast(e, TE.DrainSteps(e.bytes))
    decreases e.bytes
  {
    var steps := TE.DrainSteps(e.bytes);
    if e.bytes == 0 {
      var e' := TE.Apply(e, TE.ReceiveNothing);
      assert steps[1..] == [TE.Recheck(true)];
      assert ReturnsAtLast(e', [TE.Recheck(true)]);
    } else {
      assert steps[1..] == TE.DrainSteps(e.bytes - 1);
      TE.DrainReturns(TE.Apply(e, TE.Receive));
      DrainReturnsAtLast(TE.Apply(e, TE.Receive));
    }
  }

  /** What a worker does inside its wait once its flag is up. */
  function WakeSteps(e: TE.Event): seq<TE.Step> {
    match e.owner
    case Outside => [TE.WaitEnter(true)]
    case Polling(_) => TE.WakeUpSteps(e.bytes)
    case Draining(_) => TE.DrainSteps(e.bytes)
    case _ => [TE.Recheck(true)]
  }

  lemma WakeReturns(e: TE.Event)
    requires e.raised && !e.owner.Flushing? && !e.owner.Unsetting? && (e.owner.Polling? ==> e.bytes > 0)
    ensures TE.Possible(e, WakeSteps(e)) && ReturnsAtLast(e, WakeSteps(e))
  {
    if e.owner.Polling? {
      TE.WakeUpReturns(e);
      assert WakeSteps(e)[1..] == TE.DrainSteps(e.bytes);
      DrainReturnsAtLast(TE.Apply(e, TE.PollEnds(true)));
    } else if e.owner.Draining? {
      TE.DrainReturns(e);
      DrainReturnsAtLast(e);
    } else {
      assert WakeSteps(e)[1..] == [];
    }
  }

  /**
   Progress: a job waits, the mutex is free, and a worker that found nothing in its last scan is somewhere in its
   wait, its event without a failed send. Then the steps of that worker alone, with no poll running out of time, end
   with the oldest waiting job started by it.
   */
  lemma SleeperStartsOldest(s: State, w: nat, j: nat) returns (steps: seq<Step>)
    requires Reachable(s) && s.mutex.Free? && j in s.jobs && s.jobs[j].Pending()
    requires forall k :: k in s.jobs && k < j ==> !s.jobs[k].Pending()
    requires w in s.workers && s.workers[w] == Waiting(true) && w in s.events && s.events[w].failed == 0
    ensures |steps| > 0 && steps[|steps| - 1] == Scan(w)
    ensures forall k :: 0 <= k < |steps| - 1 ==>
              steps[k].Wait? && steps[k].w == w && steps[k].step != TE.PollEnds(false) && steps[k].step != TE.Recheck(false)
    ensures Possible(s, steps) && j in After(s, steps).jobs && After(s, steps).jobs[j] == s.jobs[j].Start(w)
    ensures s.jobs[j].typed ==> Holds(After(s, steps), w, j)
  {
    hide TE.Possible, ReturnsAtLast, QueueOk, HoldersOk, FirstComeOk, SleepersOk;
    ReachableOk(s);
    var e := s.events[w];
    SleeperIsCalled(s, w, j);
    WakeReturns(e);
    var waits := Lift(w, WakeSteps(e));
    LiftReturns(s, w, WakeSteps(e));
    StepsOfWait(e, WakeSteps(e));
    var awake := After(s, waits);
    OldestIsTaken(s.queue, s.jobs, j);
    assert Enabled(awake, Scan(w)) by { QueueKnown(s); }
    OneStepMore(s, waits, Scan(w));
    steps := waits + [Scan(w)];
  }

  lemma QueueKnown(s: State)
    requires QueueOk(s.queue, s.jobs)
    ensures forall j :: j in s.queue ==> j in s.jobs
  {
  }

  /** A worker that sleeps over a waiting job has been called: its flag is up, and if it polls there is a byte. */
  lemma SleeperIsCalled(s: State, w: nat, j: nat)
    requires Reachable(s) && s.mutex.Free? && j in s.jobs && s.jobs[j].Pending()
    requires w in s.workers && s.workers[w] == Waiting(true) && w in s.events && s.events[w].failed == 0
    ensures var e := s.events[w];
            e.raised && !e.owner.Flushing? && !e.owner.Unsetting? && (e.owner.Polling? ==> e.bytes > 0)
  {
    hide JobsOk, SleepersOk;
    ReachableOk(s);
    assert EventOk(s.events[w], w, s.workers, s.mutex);
    if !s.events[w].raised {
      assert s.Asleep(w);
      NoStrandedJob(s, w);
    }
  }

  lemma {:induction false} StepsOfWait(e: TE.Event, steps: seq<TE.Step>)
    requires TE.Possible(e, steps) && ReturnsAtLast(e, steps)
    ensures forall k :: 0 <= k < |steps| ==> steps[k] != TE.PollEnds(false) && steps[k] != TE.Recheck(false)
    decreases steps
  {
    if |steps| > 1 {
      StepsOfWait(TE.Apply(e, steps[0]), steps[1..]);
      assert steps == [steps[0]] + steps[1..];
    }
  }

  // -------------------------------------------------------------- requests that get stuck

  /** Worker w will receive a byte before it next needs the mutex. */
  predicate WillDrain(s: State, w: nat)
    requires w in s.events
  {
    && w in s.workers && s.workers[w].Waiting?
    && var e := s.events[w];
    e.owner.Polling? || e.owner.Draining? || e.owner.Flushing? || e.owner.Unsetting?
    || ((e.owner.Outside? || e.owner.Rechecking?) && !e.raised)
  }

  /** A request sends to worker w, whose socket is full and will not be drained. */
  predicate Stuck(s: State, w: nat) {
    s.mutex == Signalling(w, true) && w in s.events && s.events[w].bytes >= TE.CAPACITY && !WillDrain(s, w)
  }

  /** No send of the request ends in a hard error. */
  predicate SendsGoOn(steps: seq<Step>) {
    forall k :: 0 <= k < |steps| ==> !(steps[k].SignalSend? && steps[k].outcome.SendFails?)
  }

  lemma StuckStep(s: State, w: nat, step: Step)
    requires Stuck(s, w) && Enabled(s, step) && !(step.SignalSend? && step.outcome.SendFails?)
    ensures Stuck(Apply(s, step), w) && Apply(s, step).queue == s.queue && Apply(s, step).jobs == s.jobs
  {
  }

  /** Then nothing moves any more: no job is requested, started, finished or abandoned, whatever anyone does. */
  lemma {:induction false} StuckForEver(s: State, w: nat, steps: seq<Step>)
    requires Stuck(s, w) && Possible(s, steps) && SendsGoOn(steps)
    ensures Stuck(After(s, steps), w) && After(s, steps).queue == s.queue && After(s, steps).jobs == s.jobs
    decreases steps
  {
    if |steps| > 0 {
      StuckStep(s, w, steps[0]);
      assert forall k :: 0 <= k < |steps| - 1 ==> steps[1..][k] == steps[k + 1];
      StuckForEver(Apply(s, steps[0]), w, steps[1..]);
    }
  }

  /** The steps that free a send to worker w: it drains a byte if it must, then the byte is sent. */
  function FreeingSteps(s: State, w: nat): seq<Step>
    requires w in s.events
  {
    var e, send := s.events[w], [SignalSend(TE.Deliver)];
    if e.bytes < TE.CAPACITY then send
    else match e.owner
      case Polling(_) => [Wait(w, TE.PollEnds(true)), Wait(w, TE.Receive)] + send
      case Outside => [Wait(w, TE.WaitEnter(true)), Wait(w, TE.PollEnds(true)), Wait(w, TE.Receive)] + send
      case Rechecking(_) => [Wait(w, TE.Recheck(true)), Wait(w, TE.PollEnds(true)), Wait(w, TE.Receive)] + send
      case _ => [Wait(w, TE.Receive)] + send
  }

  lemma StepThen(s: State, step: Step, steps: seq<Step>)
    requires Enabled(s, step) && Possible(Apply(s, step), steps)
    ensures Possible(s, [step] + steps) && After(s, [step] + steps) == After(Apply(s, step), steps)
  {
    assert ([step] + steps)[1..] == steps;
  }

  lemma NoSteps(s: State)
    ensures Possible(s, []) && After(s, []) == s
  {
  }

  lemma SendWithRoom(s: State, w: nat)
    requires s.mutex == Signalling(w, true) && w in s.events && s.events[w].sending == 1
    requires s.events[w].bytes < TE.CAPACITY
    ensures Possible(s, [SignalSend(TE.Deliver)]) && After(s, [SignalSend(TE.Deliver)]).mutex == Signalling(w + 1, false)
  {
    NoSteps(Apply(s, SignalSend(TE.Deliver)));
    assert [SignalSend(TE.Deliver)] + [] == [SignalSend(TE.Deliver)];
    StepThen(s, SignalSend(TE.Deliver), []);
  }

  lemma SendAfterReceive(s: State, w: nat)
    requires s.mutex == Signalling(w, true) && w in s.events && s.events[w].sending == 1
    requires w in s.workers && s.workers[w].Waiting? && s.events[w].owner.Draining?
    requires 0 < s.events[w].bytes <= TE.CAPACITY
    ensures var steps := [Wait(w, TE.Receive)] + [SignalSend(TE.Deliver)];
            Possible(s, steps) && After(s, steps).mutex == Signalling(w + 1, false)
  {
    SendWithRoom(Apply(s, Wait(w, TE.Receive)), w);
    StepThen(s, Wait(w, TE.Receive), [SignalSend(TE.Deliver)]);
  }

  lemma SendAfterPoll(s: State, w: nat)
    requires s.mutex == Signalling(w, true) && w in s.events && s.events[w].sending == 1
    requires w in s.workers && s.workers[w].Waiting? && s.events[w].owner.Polling?
    requires 0 < s.events[w].bytes <= TE.CAPACITY
    ensures var steps := [Wait(w, TE.PollEnds(true))] + ([Wait(w, TE.Receive)] + [SignalSend(TE.Deliver)]);
            Possible(s, steps) && After(s, steps).mutex == Signalling(w + 1, false)
  {
    SendAfterReceive(Apply(s, Wait(w, TE.PollEnds(true))), w);
    StepThen(s, Wait(w, TE.PollEnds(true)), [Wait(w, TE.Receive)] + [SignalSend(TE.Deliver)]);
  }

  lemma SendAfterLook(s: State, w: nat, look: TE.Step)
    requires s.mutex == Signalling(w, true) && w in s.events && s.events[w].sending == 1
    requires w in s.workers && s.workers[w].Waiting? && !s.events[w].raised
    requires if s.events[w].owner.Outside? then look == TE.WaitEnter(true)
             else s.events[w].owner.Rechecking? && look == TE.Recheck(true)
    requires 0 < s.events[w].bytes <= TE.CAPACITY
    ensures var steps := [Wait(w, look)] + ([Wait(w, TE.PollEnds(true))] + ([Wait(w, TE.Receive)] + [SignalSend(TE.Deliver)]));
            Possible(s, steps) && After(s, steps).mutex == Signalling(w + 1, false)
  {
    SendAfterPoll(Apply(s, Wait(w, look)), w);
    StepThen(s, Wait(w, look), [Wait(w, TE.PollEnds(true))] + ([Wait(w, TE.Receive)] + [SignalSend(TE.Deliver)]));
  }

  lemma FreeingWorks(s: State, w: nat)
    requires Reachable(s) && s.mutex == Signalling(w, true) && !Stuck(s, w)
    ensures w in s.events && Possible(s, FreeingSteps(s, w)) && SendsGoOn(FreeingSteps(s, w))
    ensures After(s, FreeingSteps(s, w)).mutex == Signalling(w + 1, false)
  {
    hide JobsOk, SleepersOk, Possible, After;
    ReachableOk(s);
    var e := s.events[w];
    assert EventOk(e, w, s.workers, s.mutex);
    var steps := FreeingSteps(s, w);
    if e.bytes < TE.CAPACITY {
      SendWithRoom(s, w);
    } else if e.owner.Draining? {
      SendAfterReceive(s, w);
    } else if e.owner.Polling? {
      SendAfterPoll(s, w);
      assert steps == [Wait(w, TE.PollEnds(true))] + ([Wait(w, TE.Receive)] + [SignalSend(TE.Deliver)]);
    } else {
      var look := if e.owner.Outside? then TE.WaitEnter(true) else TE.Recheck(true);
      SendAfterLook(s, w, look);
      assert steps == [Wait(w, look)] + ([Wait(w, TE.PollEnds(true))] + ([Wait(w, TE.Receive)] + [SignalSend(TE.Deliver)]));
    }
  }

  /**
   Exactly when a request gets on: from a reachable state in which it sends to worker w, some run without a hard send
   error takes it past that send if and only if the socket has room or the worker will drain it without the mutex.
   */
  lemma RequestGetsOn(s: State, w: nat)
    requires Reachable(s) && s.mutex == Signalling(w, true)
    ensures (exists steps :: Possible(s, steps) && SendsGoOn(steps) && After(s, steps).mutex != Signalling(w, true))
            <==> !Stuck(s, w)
  {
    hide Possible, After, Enabled, Apply, Stuck;
    if !Stuck(s, w) {
      FreeingWorks(s, w);
      assert Possible(s, FreeingSteps(s, w));
    } else {
      forall steps | Possible(s, steps) && SendsGoOn(steps) ensures After(s, steps).mutex == Signalling(w, true) {
        StuckForEver(s, w, steps);
        StuckHoldsMutex(After(s, steps), w);
      }
    }
  }

  lemma StuckHoldsMutex(s: State, w: nat)
    requires Stuck(s, w)
    ensures s.mutex == Signalling(w, true)
  {
  }

  // ------------------------------------------------------------------- and do get stuck

  /** The only worker with a thread is busy with the first job; every event has k bytes, those before next one more. */
  predicate Filling(s: State, next: nat, k: nat) {
    && next <= WORKER_COUNT && s.workerCount == WORKER_COUNT && s.workers == map[0 := Holding(0)]
    && (forall w: nat :: w < WORKER_COUNT ==>
          && w in s.events && s.events[w].owner.Outside? && s.events[w].sending == 0
          && s.events[w].bytes == if w < next then k + 1 else k)
  }

  lemma {:induction false} SignalRest(s: State, next: nat, k: nat) returns (s': State)
    requires Reachable(s) && s.mutex == Signalling(next, false) && Filling(s, next, k) && k < TE.CAPACITY
    ensures Reachable(s') && s'.mutex.Free? && Filling(s', 0, k + 1)
    decreases WORKER_COUNT - next
  {
    hide Reachable;
    if next == WORKER_COUNT {
      ReachableStep(s, SignalDone);
      s' := Apply(s, SignalDone);
    } else {
      ReachableStep(s, SignalFlag);
      var raised := Apply(s, SignalFlag);
      ReachableStep(raised, SignalSend(TE.Deliver));
      var sent := Apply(raised, SignalSend(TE.Deliver));
      s' := SignalRest(sent, next + 1, k);
    }
  }

  lemma {:induction false} FillTo(k: nat) returns (s: State)
    requires k <= TE.CAPACITY
    ensures Reachable(s) && s.mutex.Free? && Filling(s, 0, k)
  {
    hide Reachable;
    if k == 0 {
      s := OneWorkerStarts();
      assert ScanQueue([0], s.jobs) == ScanResult([0], {}, Took(0));
      ReachableStep(s, Scan(0));
      s := Apply(s, Scan(0));
    } else {
      s := FillTo(k - 1);
      s := LaterRequestOf(s, k - 1);
      s := SignalRest(s, 0, k - 1);
    }
  }

  lemma LaterRequestOf(s: State, k: nat) returns (s': State)
    requires Reachable(s) && s.mutex.Free? && Filling(s, 0, k)
    ensures Reachable(s') && s'.mutex == Signalling(0, false) && Filling(s', 0, k)
  {
    hide Reachable;
    var step := Request(true, Luck(true, true, {}, {}));
    ReachableStep(s, step);
    s' := Apply(s, step);
  }

  /** Getting stuck happens: one more request than fits the socket, all while the only worker is busy. */
  lemma StuckHappens() returns (s: State)
    ensures Reachable(s) && Stuck(s, 0) && Holds(s, 0, 0)
  {
    hide Reachable;
    s := FillTo(TE.CAPACITY);
    s := LaterRequestOf(s, TE.CAPACITY);
    ReachableStep(s, SignalFlag);
    s := Apply(s, SignalFlag);
  }
}
