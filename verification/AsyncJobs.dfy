/**
 The queue of asynchronous system jobs (horse64/asyncsysjob.c) as a state machine.

 Requesters append jobs, workers pick them up, finish them and wait on their wake-up
 event, and a requester that loses interest abandons its job. One mutex guards the queue
 and the job flags; everything done under it in one go is one step. A request keeps the mutex
 while it sets the workers' events one after another, so those are steps of their own, and
 workers keep running between them.
 */
module AsyncJobs {
  import TE = ThreadEvent

  const WORKER_COUNT := 6

  datatype Holder = Nobody | Worker(id: nat)

  /** A requested job. typed is false for the type NONE. starts, frees and holder are history. */
  datatype Job = Job(typed: bool, done: bool, inprogress: bool, abandoned: bool, starts: nat, frees: nat, holder: Holder) {
    predicate Pending() { !inprogress && !done && !abandoned }

    predicate Collectable() { !inprogress && abandoned }

    function Start(w: nat): Job {
      this.(inprogress := true, starts := starts + 1, holder := if typed then Worker(w) else Nobody)
    }

    function Free(): Job { this.(frees := frees + 1) }
  }

  function NewJob(typed: bool): Job { Job(typed, false, false, false, 0, 0, Nobody) }

  /** Waiting covers the call to threadevent_WaitUntilSet; idle says that the scan before it found nothing. */
  datatype WorkerAt = Scanning | Holding(job: nat) | Waiting(idle: bool)

  /** Free, or a request holds the mutex: next is the worker whose event it sets, raised half way through that. */
  datatype Mutex = Free | Signalling(next: nat, raised: bool)

  /** Only workers that have a thread are in workers; a worker counts even if its thread did not start. */
  datatype State = State(queue: seq<nat>, jobs: map<nat, Job>, mutex: Mutex, workerCount: nat,
                         workers: map<nat, WorkerAt>, events: map<nat, TE.Event>)
  {
    /** The request that holds the mutex has yet to raise the flag of worker w. */
    predicate WillSignal(w: nat) {
      mutex.Signalling? && (mutex.next < w || (mutex.next == w && !mutex.raised))
    }

    /** The worker has scanned, found nothing, and nothing so far tells it to look again. */
    predicate Asleep(w: nat) {
      w in workers && workers[w] == Waiting(true) && w in events && !events[w].raised && !WillSignal(w)
    }
  }

  const INITIAL := State([], map[], Free, 0, map[], map[])

  // ------------------------------------------------------------------ picking a job

  /** The queue after a scan, the jobs it freed, and the job it took. */
  datatype ScanResult = ScanResult(queue: seq<nat>, freed: set<nat>, taken: Taken)

  datatype Taken = Nothing | Took(job: nat)

  /** From the front: free the collectable jobs, stop at the first pending one. */
  function ScanQueue(queue: seq<nat>, jobs: map<nat, Job>): (r: ScanResult)
    requires forall j :: j in queue ==> j in jobs
    ensures r.taken.Took? ==> r.taken.job in queue
  {
    if |queue| == 0 then ScanResult([], {}, Nothing)
    else if jobs[queue[0]].Collectable() then
      var r := ScanQueue(queue[1..], jobs);
      ScanResult(r.queue, {queue[0]} + r.freed, r.taken)
    else if jobs[queue[0]].Pending() then ScanResult(queue, {}, Took(queue[0]))
    else
      var r := ScanQueue(queue[1..], jobs);
      ScanResult([queue[0]] + r.queue, r.freed, r.taken)
  }

  function AfterScan(jobs: map<nat, Job>, r: ScanResult, w: nat): map<nat, Job> {
    map j | j in jobs ::
      if j in r.freed then jobs[j].Free() else if r.taken == Took(j) then jobs[j].Start(w) else jobs[j]
  }

  /** Jobs are named by the order of their requests, so an ascending queue has no duplicates and is in request order. */
  ghost predicate Ascending(queue: seq<nat>) {
    forall p, q :: 0 <= p < q < |queue| ==> queue[p] < queue[q]
  }

  lemma AscendingTail(queue: seq<nat>)
    requires |queue| > 0 && Ascending(queue)
    ensures Ascending(queue[1..]) && forall j :: j in queue[1..] ==> queue[0] < j
    ensures forall j :: j in queue <==> j == queue[0] || j in queue[1..]
  {
    assert queue == [queue[0]] + queue[1..];
  }

  lemma AscendingCons(head: nat, tail: seq<nat>)
    requires Ascending(tail) && forall j :: j in tail ==> head < j
    ensures Ascending([head] + tail)
  {
    forall p, q | 0 <= p < q < |tail| + 1 ensures ([head] + tail)[p] < ([head] + tail)[q] {
      assert ([head] + tail)[q] == tail[q - 1] && tail[q - 1] in tail;
    }
  }

  /** A scan frees only collectable jobs and leaves the others in the queue, in order. */
  lemma {:induction false} ScanKeepsRest(queue: seq<nat>, jobs: map<nat, Job>)
    requires Ascending(queue) && forall j :: j in queue ==> j in jobs
    ensures var r := ScanQueue(queue, jobs);
            && Ascending(r.queue)
            && (forall j :: j in r.queue <==> j in queue && j !in r.freed)
            && (forall j :: j in r.freed ==> j in queue && jobs[j].Collectable())
  {
    if |queue| > 0 {
      AscendingTail(queue);
      ScanKeepsRest(queue[1..], jobs);
      AscendingCons(queue[0], ScanQueue(queue[1..], jobs).queue);
    }
  }

  /**
   The job taken is the oldest pending one; a scan that takes none leaves nothing pending. On its way it frees every
   job that is abandoned and not in progress, and nothing behind the job it takes.
   */
  lemma {:induction false} ScanTakesOldest(queue: seq<nat>, jobs: map<nat, Job>)
    requires Ascending(queue) && forall j :: j in queue ==> j in jobs
    ensures var r := ScanQueue(queue, jobs);
            match r.taken
            case Nothing => forall j :: j in queue ==> !jobs[j].Pending()
            case Took(t) => t in queue && t !in r.freed && jobs[t].Pending() && forall j :: j in queue && j < t ==> !jobs[j].Pending()
    ensures var r := ScanQueue(queue, jobs);
            forall j :: j in queue ==>
              (j in r.freed <==> jobs[j].abandoned && !jobs[j].inprogress && (r.taken.Took? ==> j < r.taken.job))
  {
    if |queue| > 0 {
      AscendingTail(queue);
      ScanKeepsRest(queue[1..], jobs);
      ScanTakesOldest(queue[1..], jobs);
    }
  }

  // ------------------------------------------------------------------------- steps

  /** What a request gets: room in the array of jobs, tables for workers and events, these events, these threads. */
  datatype Luck = Luck(arrayGrows: bool, tablesFit: bool, eventsOk: set<nat>, threadsOk: set<nat>)

  datatype Step =
    | Request(typed: bool, luck: Luck)  // asyncjob_RequestAsync up to its first signal
    | SignalFlag                        // set the flag of the next worker's event, or skip a missing event
    | SignalSend(outcome: TE.Step)      // and send its byte
    | SignalDone                        // all events set: release the mutex
    | Scan(w: nat)                      // one pass of a worker over the queue
    | Finish(w: nat)                    // a worker marks its job done
    | Abandon(job: nat)                 // asyncjob_AbandonJob
    | Wait(w: nat, step: TE.Step)       // a worker inside threadevent_WaitUntilSet

  /** Which events exist after the creation loop from i on, and whether it gave up. */
  datatype Creation = Creation(ok: bool, have: set<nat>)

  function CreateEvents(i: nat, count: nat, have: set<nat>, eventsOk: set<nat>): Creation
    requires i <= WORKER_COUNT
    decreases WORKER_COUNT - i
  {
    if i == WORKER_COUNT then Creation(true, have)
    else if i in have || i in eventsOk then CreateEvents(i + 1, count, have + {i}, eventsOk)
    else if count <= 0 then Creation(false, have)
    else CreateEvents(i + 1, count, have, eventsOk)
  }

  /** How many workers count after the spawn loop, which threads it started, and whether it gave up. */
  datatype Spawning = Spawning(ok: bool, count: nat, threads: set<nat>)

  function SpawnWorkers(count: nat, threads: set<nat>, have: set<nat>, threadsOk: set<nat>): Spawning
    requires count <= WORKER_COUNT
    decreases WORKER_COUNT - count
  {
    if count == WORKER_COUNT || count !in have then Spawning(true, count, threads)
    else if count in threadsOk then SpawnWorkers(count + 1, threads + {count}, have, threadsOk)
    else if count <= 0 then Spawning(false, count, threads)
    else SpawnWorkers(count + 1, threads, have, threadsOk)
  }

  function AddEvents(events: map<nat, TE.Event>, have: set<nat>): (r: map<nat, TE.Event>)
    ensures forall w :: w in r <==> w in have || w in events
    ensures forall w :: w in r ==> r[w] == if w in events then events[w] else TE.FRESH_EVENT
  {
    map w | w in have + events.Keys :: if w in events then events[w] else TE.FRESH_EVENT
  }

  function NewThreads(threads: set<nat>): map<nat, WorkerAt> {
    map w | w in threads :: Scanning
  }

  /** The request is refused, with the job left to the caller, unless a first worker can be started. */
  function ApplyRequest(s: State, typed: bool, luck: Luck): State
    requires s.mutex.Free?
  {
    if !luck.arrayGrows then s else
    var accepted := s.(queue := s.queue + [|s.jobs|], jobs := s.jobs[|s.jobs| := NewJob(typed)]);
    if s.workerCount < WORKER_COUNT then
      if !luck.tablesFit then s else
      var c := CreateEvents(0, s.workerCount, s.events.Keys, luck.eventsOk);
      var refused := s.(events := AddEvents(s.events, c.have));
      if !c.ok then refused else
      var sp := SpawnWorkers(s.workerCount, {}, c.have, luck.threadsOk);
      if !sp.ok then refused else
      accepted.(workerCount := sp.count, events := AddEvents(s.events, c.have),
                workers := s.workers + NewThreads(sp.threads))
    else accepted.(mutex := Signalling(0, false))
  }

  /** The steps of threadevent_WaitUntilSet(event, 5000, 1). */
  predicate WaitStep(step: TE.Step) {
    step == TE.WaitEnter(true) || step.PollEnds? || step.Receive? || step.ReceiveNothing? || step.Recheck?
  }

  predicate Enabled(s: State, step: Step) {
    match step
    case Request(_, _) => s.mutex.Free?
    case SignalFlag => s.mutex.Signalling? && !s.mutex.raised && s.mutex.next < WORKER_COUNT
                       && (s.mutex.next in s.events ==> TE.Enabled(s.events[s.mutex.next], TE.RaiseFlag))
    case SignalSend(o) => s.mutex.Signalling? && s.mutex.raised && s.mutex.next in s.events
                          && (o.Deliver? || o.SendFails? || o.SendAgain?) && TE.Enabled(s.events[s.mutex.next], o)
    case SignalDone => s.mutex.Signalling? && !s.mutex.raised && s.mutex.next >= WORKER_COUNT
    case Scan(w) => s.mutex.Free? && w in s.workers && s.workers[w].Scanning?
                    && forall j :: j in s.queue ==> j in s.jobs
    case Finish(w) => s.mutex.Free? && w in s.workers && s.workers[w].Holding? && s.workers[w].job in s.jobs
    case Abandon(j) => s.mutex.Free? && j in s.jobs && s.jobs[j].frees == 0
    case Wait(w, t) => w in s.workers && s.workers[w].Waiting? && w in s.events && WaitStep(t) && TE.Enabled(s.events[w], t)
  }

  function Apply(s: State, step: Step): State
    requires Enabled(s, step)
  {
    match step
    case Request(typed, luck) => ApplyRequest(s, typed, luck)
    case SignalFlag =>
      if s.mutex.next in s.events then
        s.(events := s.events[s.mutex.next := TE.Apply(s.events[s.mutex.next], TE.RaiseFlag)],
           mutex := Signalling(s.mutex.next, true))
      else s.(mutex := Signalling(s.mutex.next + 1, false))
    case SignalSend(o) =>
      s.(events := s.events[s.mutex.next := TE.Apply(s.events[s.mutex.next], o)],
         mutex := if o.SendAgain? then s.mutex else Signalling(s.mutex.next + 1, false))
    case SignalDone => s.(mutex := Free)
    case Scan(w) =>
      var r := ScanQueue(s.queue, s.jobs);
      s.(queue := r.queue, jobs := AfterScan(s.jobs, r, w),
         workers := s.workers[w := AtAfterScan(s.jobs, r)])
    case Finish(w) =>
      var j := s.workers[w].job;
      s.(jobs := s.jobs[j := s.jobs[j].(inprogress := false, done := true, holder := Nobody)],
         workers := s.workers[w := Scanning])
    case Abandon(j) => s.(jobs := s.jobs[j := s.jobs[j].(abandoned := true)])
    case Wait(w, t) =>
      var e := TE.Apply(s.events[w], t);
      s.(events := s.events[w := e],
         workers := if e.owner.Outside? then s.workers[w := Scanning] else s.workers)
  }

  ghost predicate Possible(s: State, steps: seq<Step>)
    decreases steps
  {
    |steps| == 0 || (Enabled(s, steps[0]) && Possible(Apply(s, steps[0]), steps[1..]))
  }

  ghost function After(s: State, steps: seq<Step>): State
    requires Possible(s, steps)
    decreases steps
  {
    if |steps| == 0 then s else After(Apply(s, steps[0]), steps[1..])
  }

  // --------------------------------------------------------------------- invariants

  /** What the flags and the history of one job allow. */
  predicate JobOk(j: Job) {
    && j.frees <= 1 && j.starts <= 1
    && (j.frees == 1 ==> j.abandoned && !j.inprogress)
    && (j.inprogress ==> !j.done)
    && (j.starts == 1 <==> j.inprogress || j.done)
    && (!j.typed ==> !j.done)
    && (j.holder.Worker? <==> j.typed && j.inprogress)
  }

  /** The queue lists, in request order, exactly the jobs not freed yet. */
  ghost predicate QueueOk(queue: seq<nat>, jobs: map<nat, Job>) {
    && Ascending(queue)
    && (forall j: nat :: j in jobs <==> j < |jobs|)
    && (forall j :: j in queue <==> j in jobs && jobs[j].frees == 0)
    && (forall j :: j in jobs ==> JobOk(jobs[j]))
  }

  /** Workers and the jobs they hold point at each other. */
  ghost predicate HoldersOk(jobs: map<nat, Job>, workers: map<nat, WorkerAt>) {
    && (forall w :: w in workers && workers[w].Holding? ==> workers[w].job in jobs && jobs[workers[w].job].holder == Worker(w))
    && (forall j :: j in jobs && jobs[j].holder.Worker? ==>
          jobs[j].holder.id in workers && workers[jobs[j].holder.id] == Holding(j))
  }

  /** Either no worker counts yet or all do; then the first one has a thread and every one has an event. */
  ghost predicate WorkersOk(s: State) {
    && (s.workerCount == 0 || s.workerCount == WORKER_COUNT)
    && (s.workerCount == 0 ==> s.workers == map[] && s.mutex.Free? && s.jobs == map[])
    && (s.workerCount == WORKER_COUNT ==> 0 in s.workers && forall w: nat :: w < WORKER_COUNT ==> w in s.events)
    && (forall w :: w in s.workers ==> w < WORKER_COUNT)
    && (s.mutex.Signalling? ==> s.mutex.next <= WORKER_COUNT && (s.mutex.raised ==> s.mutex.next < WORKER_COUNT))
  }

  /** One event: no byte is owed by anyone but the request that holds the mutex, and only a waiting worker uses it. */
  predicate EventOk(e: TE.Event, w: nat, workers: map<nat, WorkerAt>, mutex: Mutex) {
    && TE.WakeUpKept(e)
    && e.bytes <= TE.CAPACITY
    && e.sending == (if mutex == Signalling(w, true) then 1 else 0)
    && !e.owner.Unsetting? && !e.owner.Flushing?
    && (!e.owner.Outside? ==> w in workers && workers[w].Waiting?)
  }

  ghost predicate EventsOk(events: map<nat, TE.Event>, workers: map<nat, WorkerAt>, mutex: Mutex) {
    forall w :: w in events ==> EventOk(events[w], w, workers, mutex)
  }

  ghost predicate NonePending(queue: seq<nat>, jobs: map<nat, Job>) {
    forall j :: j in queue && j in jobs ==> !jobs[j].Pending()
  }

  /** A sleeping worker means no pending job. */
  ghost predicate SleepersOk(s: State) {
    forall w :: s.Asleep(w) ==> NonePending(s.queue, s.jobs)
  }

  /** Jobs are started in the order they were requested, except that abandoned ones are passed over. */
  ghost predicate FirstComeOk(jobs: map<nat, Job>) {
    forall j, k :: j in jobs && k in jobs && j < k && jobs[k].starts == 1 ==> jobs[j].starts == 1 || jobs[j].abandoned
  }

  ghost predicate JobsOk(queue: seq<nat>, jobs: map<nat, Job>, workers: map<nat, WorkerAt>) {
    QueueOk(queue, jobs) && HoldersOk(jobs, workers) && FirstComeOk(jobs)
  }

  ghost predicate Invariant(s: State) {
    JobsOk(s.queue, s.jobs, s.workers) && WorkersOk(s) && EventsOk(s.events, s.workers, s.mutex) && SleepersOk(s)
  }

  // ------------------------------------------------------- every step keeps them

  lemma {:induction false} CreationFromNothing(i: nat, count: nat, have: set<nat>, eventsOk: set<nat>)
    requires i <= WORKER_COUNT && count == 0
    ensures var c := CreateEvents(i, count, have, eventsOk);
            have <= c.have && (c.ok ==> forall w :: i <= w < WORKER_COUNT ==> w in c.have)
    decreases WORKER_COUNT - i
  {
    if i < WORKER_COUNT && (i in have || i in eventsOk) {
      CreationFromNothing(i + 1, count, have + {i}, eventsOk);
    }
  }

  lemma {:induction false} SpawningAll(count: nat, threads: set<nat>, have: set<nat>, threadsOk: set<nat>)
    requires count <= WORKER_COUNT && forall w: nat :: w < WORKER_COUNT ==> w in have
    requires count > 0 ==> 0 in threads
    requires forall w :: w in threads ==> w < WORKER_COUNT
    ensures var sp := SpawnWorkers(count, threads, have, threadsOk);
            sp.ok ==> sp.count == WORKER_COUNT && 0 in sp.threads && forall w :: w in sp.threads ==> w < WORKER_COUNT
    decreases WORKER_COUNT - count
  {
    if count < WORKER_COUNT {
      if count in threadsOk {
        SpawningAll(count + 1, threads + {count}, have, threadsOk);
      } else if count > 0 {
        SpawningAll(count + 1, threads, have, threadsOk);
      }
    }
  }

  lemma AscendingAppend(queue: seq<nat>, last: nat)
    requires Ascending(queue) && forall j :: j in queue ==> j < last
    ensures Ascending(queue + [last]) && forall j :: j in queue + [last] <==> j in queue || j == last
  {
    forall p, q | 0 <= p < q < |queue| + 1 ensures (queue + [last])[p] < (queue + [last])[q] {
      assert queue[p] in queue;
    }
  }

  lemma NewJobKeepsQueue(queue: seq<nat>, jobs: map<nat, Job>, typed: bool)
    requires QueueOk(queue, jobs)
    ensures QueueOk(queue + [|jobs|], jobs[|jobs| := NewJob(typed)]) && |jobs| !in jobs
  {
    var jobs' := jobs[|jobs| := NewJob(typed)];
    assert |jobs| !in jobs;
    assert |jobs'| == |jobs| + 1;
    AscendingAppend(queue, |jobs|);
  }

  /** A new job at the end of the queue. */
  lemma NewJobKeeps(queue: seq<nat>, jobs: map<nat, Job>, workers: map<nat, WorkerAt>, typed: bool)
    requires JobsOk(queue, jobs, workers)
    ensures JobsOk(queue + [|jobs|], jobs[|jobs| := NewJob(typed)], workers)
  {
    NewJobKeepsQueue(queue, jobs, typed);
    var jobs' := jobs[|jobs| := NewJob(typed)];
    forall j, k | j in jobs' && k in jobs' && j < k && jobs'[k].starts == 1
      ensures jobs'[j].starts == 1 || jobs'[j].abandoned
    {
      assert k in jobs && j in jobs;
    }
  }

  /** Newly started threads hold nothing. */
  lemma NewThreadsKeep(queue: seq<nat>, jobs: map<nat, Job>, workers: map<nat, WorkerAt>, threads: set<nat>)
    requires JobsOk(queue, jobs, workers) && workers == map[]
    ensures JobsOk(queue, jobs, NewThreads(threads))
  {
  }

  lemma AddedEventsOk(events: map<nat, TE.Event>, workers: map<nat, WorkerAt>, workers': map<nat, WorkerAt>, have: set<nat>)
    requires EventsOk(events, workers, Free) && workers == map[]
    ensures EventsOk(AddEvents(events, have), workers', Free)
  {
    var events' := AddEvents(events, have);
    forall w | w in events' ensures EventOk(events'[w], w, workers', Free) {
      if w in events { assert EventOk(events[w], w, workers, Free); }
    }
  }

  lemma RefusedKeeps(s: State, have: set<nat>)
    requires Invariant(s) && s.mutex.Free? && s.workerCount == 0
    ensures Invariant(s.(events := AddEvents(s.events, have)))
  {
    AddedEventsOk(s.events, s.workers, s.workers, have);
  }

  lemma HoldsEvents(events: map<nat, TE.Event>, have: set<nat>)
    ensures forall w :: w in have ==> w in AddEvents(events, have)
  {
  }

  lemma AcceptedKeeps(s: State, typed: bool, have: set<nat>, threads: set<nat>)
    requires Invariant(s) && s.mutex.Free? && s.workerCount == 0
    requires forall w: nat :: w < WORKER_COUNT ==> w in have
    requires 0 in threads && forall w :: w in threads ==> w < WORKER_COUNT
    ensures Invariant(s.(queue := s.queue + [|s.jobs|], jobs := s.jobs[|s.jobs| := NewJob(typed)], workerCount := WORKER_COUNT,
                         events := AddEvents(s.events, have), workers := s.workers + NewThreads(threads)))
  {
    hide JobsOk, EventsOk, AddEvents;
    var workers' := NewThreads(threads);
    var s' := s.(queue := s.queue + [|s.jobs|], jobs := s.jobs[|s.jobs| := NewJob(typed)], workerCount := WORKER_COUNT,
                 events := AddEvents(s.events, have), workers := workers');
    assert s.workers + workers' == workers';
    NewJobKeeps(s.queue, s.jobs, s.workers, typed);
    NewThreadsKeep(s'.queue, s'.jobs, s.workers, threads);
    assert JobsOk(s'.queue, s'.jobs, s'.workers);
    AddedEventsOk(s.events, s.workers, workers', have);
    HoldsEvents(s.events, have);
    assert WorkersOk(s');
    assert forall w :: !s'.Asleep(w);
  }

  /** A request that finds workers missing finds none at all; accepted, it leaves all of them counted. */
  lemma FirstRequest(s: State, typed: bool, luck: Luck)
    requires Invariant(s) && s.mutex.Free? && s.workerCount < WORKER_COUNT
    ensures var s' := ApplyRequest(s, typed, luck);
            Invariant(s') && (s'.jobs == s.jobs || s'.workerCount == WORKER_COUNT)
  {
    var none := s.workerCount;
    CreationFromNothing(0, none, s.events.Keys, luck.eventsOk);
    var c := CreateEvents(0, none, s.events.Keys, luck.eventsOk);
    RefusedKeeps(s, c.have);
    if c.ok {
      SpawningAll(none, {}, c.have, luck.threadsOk);
      var sp := SpawnWorkers(none, {}, c.have, luck.threadsOk);
      if sp.ok { AcceptedKeeps(s, typed, c.have, sp.threads); }
    }
  }

  lemma LaterRequest(s: State, typed: bool, luck: Luck)
    requires Invariant(s) && s.mutex.Free? && s.workerCount == WORKER_COUNT
    ensures Invariant(ApplyRequest(s, typed, luck))
  {
    NewJobKeeps(s.queue, s.jobs, s.workers, typed);
    var s' := ApplyRequest(s, typed, luck);
    forall w | w in s'.events ensures EventOk(s'.events[w], w, s'.workers, s'.mutex) {
      assert EventOk(s.events[w], w, s.workers, s.mutex);
    }
  }

  lemma SignalKeeps(s: State, step: Step)
    requires Invariant(s) && (step.SignalFlag? || step.SignalSend? || step.SignalDone?) && Enabled(s, step)
    ensures Invariant(Apply(s, step))
  {
    var s' := Apply(s, step);
    forall w | w in s'.events ensures EventOk(s'.events[w], w, s'.workers, s'.mutex) {
      assert EventOk(s.events[w], w, s.workers, s.mutex);
    }
    forall w | s'.Asleep(w) ensures NonePending(s'.queue, s'.jobs) {
      assert s.Asleep(w);
    }
  }

  function AtAfterScan(jobs: map<nat, Job>, r: ScanResult): WorkerAt
    requires r.taken.Took? ==> r.taken.job in jobs
  {
    match r.taken
    case Nothing => Waiting(true)
    case Took(j) => if jobs[j].typed then Holding(j) else Waiting(false)
  }

  lemma ScanKeepsQueue(queue: seq<nat>, jobs: map<nat, Job>, w: nat)
    requires QueueOk(queue, jobs)
    ensures var r := ScanQueue(queue, jobs); QueueOk(r.queue, AfterScan(jobs, r, w))
  {
    ScanKeepsRest(queue, jobs);
    ScanTakesOldest(queue, jobs);
    var r := ScanQueue(queue, jobs);
    var jobs' := AfterScan(jobs, r, w);
    assert jobs'.Keys == jobs.Keys && |jobs'| == |jobs'.Keys| == |jobs.Keys| == |jobs|;
    forall j | j in jobs' ensures JobOk(jobs'[j]) { assert JobOk(jobs[j]); }
  }

  lemma ScanKeepsHolders(queue: seq<nat>, jobs: map<nat, Job>, workers: map<nat, WorkerAt>, w: nat)
    requires QueueOk(queue, jobs) && HoldersOk(jobs, workers)
    requires w in workers && workers[w].Scanning?
    ensures var r := ScanQueue(queue, jobs); HoldersOk(AfterScan(jobs, r, w), workers[w := AtAfterScan(jobs, r)])
  {
    ScanKeepsRest(queue, jobs);
    ScanTakesOldest(queue, jobs);
    var r := ScanQueue(queue, jobs);
    var jobs', workers' := AfterScan(jobs, r, w), workers[w := AtAfterScan(jobs, r)];
    forall v | v in workers' && workers'[v].Holding?
      ensures workers'[v].job in jobs' && jobs'[workers'[v].job].holder == Worker(v)
    {
      if v != w { assert JobOk(jobs[workers[v].job]); }
    }
    forall j | j in jobs' && jobs'[j].holder.Worker?
      ensures jobs'[j].holder.id in workers' && workers'[jobs'[j].holder.id] == Holding(j)
    {
      assert JobOk(jobs[j]);
    }
  }

  lemma ScanKeepsFirstCome(queue: seq<nat>, jobs: map<nat, Job>, w: nat)
    requires QueueOk(queue, jobs) && FirstComeOk(jobs)
    ensures FirstComeOk(AfterScan(jobs, ScanQueue(queue, jobs), w))
  {
    ScanKeepsRest(queue, jobs);
    ScanTakesOldest(queue, jobs);
    var r := ScanQueue(queue, jobs);
    var jobs' := AfterScan(jobs, r, w);
    forall j, k | j in jobs' && k in jobs' && j < k && jobs'[k].starts == 1
      ensures jobs'[j].starts == 1 || jobs'[j].abandoned
    {
      assert JobOk(jobs[j]) && JobOk(jobs[k]);
      if r.taken == Took(k) && j in queue { assert !jobs[j].Pending(); }
    }
  }

  /** After a scan nothing new is pending, and a scan that took nothing leaves nothing pending. */
  lemma ScanLeavesPending(queue: seq<nat>, jobs: map<nat, Job>, w: nat)
    requires QueueOk(queue, jobs)
    ensures var r := ScanQueue(queue, jobs);
            r.taken == Nothing || NonePending(queue, jobs) ==> NonePending(r.queue, AfterScan(jobs, r, w))
  {
    ScanKeepsRest(queue, jobs);
    ScanTakesOldest(queue, jobs);
  }

  lemma ScanKeepsEvents(events: map<nat, TE.Event>, workers: map<nat, WorkerAt>, mutex: Mutex, w: nat, at: WorkerAt)
    requires EventsOk(events, workers, mutex) && w in workers && !workers[w].Waiting?
    ensures EventsOk(events, workers[w := at], mutex)
  {
    forall v | v in events ensures EventOk(events[v], v, workers[w := at], mutex) {
      assert EventOk(events[v], v, workers, mutex);
    }
  }

  lemma ScanKeeps(s: State, w: nat)
    requires Invariant(s) && Enabled(s, Scan(w))
    ensures Invariant(Apply(s, Scan(w)))
  {
    var s' := Apply(s, Scan(w));
    ScanKeepsQueue(s.queue, s.jobs, w);
    ScanKeepsHolders(s.queue, s.jobs, s.workers, w);
    ScanKeepsFirstCome(s.queue, s.jobs, w);
    ScanKeepsEvents(s.events, s.workers, s.mutex, w, s'.workers[w]);
    ScanLeavesPending(s.queue, s.jobs, w);
    forall v | s'.Asleep(v) ensures NonePending(s'.queue, s'.jobs) {
      if v != w { assert s.Asleep(v); }
    }
  }

  lemma FinishKeepsJobs(queue: seq<nat>, jobs: map<nat, Job>, workers: map<nat, WorkerAt>, w: nat)
    requires JobsOk(queue, jobs, workers)
    requires w in workers && workers[w].Holding? && workers[w].job in jobs
    ensures var j := workers[w].job;
            JobsOk(queue, jobs[j := jobs[j].(inprogress := false, done := true, holder := Nobody)], workers[w := Scanning])
  {
    var j := workers[w].job;
    var jobs' := jobs[j := jobs[j].(inprogress := false, done := true, holder := Nobody)];
    assert jobs'.Keys == jobs.Keys && |jobs'| == |jobs'.Keys| == |jobs.Keys| == |jobs|;
    assert JobOk(jobs[j]);
  }

  lemma FinishKeeps(s: State, w: nat)
    requires Invariant(s) && Enabled(s, Finish(w))
    ensures Invariant(Apply(s, Finish(w)))
  {
    FinishKeepsJobs(s.queue, s.jobs, s.workers, w);
    var s' := Apply(s, Finish(w));
    ScanKeepsEvents(s.events, s.workers, s.mutex, w, Scanning);
    forall v | s'.Asleep(v) ensures NonePending(s'.queue, s'.jobs) {
      assert s.Asleep(v);
    }
  }

  lemma AbandonKeepsQueue(queue: seq<nat>, jobs: map<nat, Job>, j: nat)
    requires QueueOk(queue, jobs) && j in jobs
    ensures QueueOk(queue, jobs[j := jobs[j].(abandoned := true)])
  {
    var jobs' := jobs[j := jobs[j].(abandoned := true)];
    assert jobs'.Keys == jobs.Keys && |jobs'| == |jobs'.Keys| == |jobs.Keys| == |jobs|;
    forall k | k in jobs' ensures JobOk(jobs'[k]) { assert JobOk(jobs[k]); }
  }

  lemma AbandonKeepsHolders(jobs: map<nat, Job>, workers: map<nat, WorkerAt>, j: nat)
    requires HoldersOk(jobs, workers) && j in jobs
    ensures HoldersOk(jobs[j := jobs[j].(abandoned := true)], workers)
  {
  }

  lemma AbandonKeepsFirstCome(jobs: map<nat, Job>, j: nat)
    requires FirstComeOk(jobs) && j in jobs
    ensures FirstComeOk(jobs[j := jobs[j].(abandoned := true)])
  {
  }

  lemma AbandonKeeps(s: State, j: nat)
    requires Invariant(s) && Enabled(s, Abandon(j))
    ensures Invariant(Apply(s, Abandon(j)))
  {
    var s' := Apply(s, Abandon(j));
    AbandonKeepsQueue(s.queue, s.jobs, j);
    AbandonKeepsHolders(s.jobs, s.workers, j);
    AbandonKeepsFirstCome(s.jobs, j);
    forall v | s'.Asleep(v) ensures NonePending(s'.queue, s'.jobs) {
      assert s.Asleep(v);
    }
  }

  lemma WaitKeepsHolders(jobs: map<nat, Job>, workers: map<nat, WorkerAt>, w: nat)
    requires HoldersOk(jobs, workers) && w in workers && workers[w].Waiting?
    ensures HoldersOk(jobs, workers[w := Scanning])
  {
  }

  lemma WaitKeeps(s: State, w: nat, t: TE.Step)
    requires Invariant(s) && Enabled(s, Wait(w, t))
    ensures Invariant(Apply(s, Wait(w, t)))
  {
    var s' := Apply(s, Wait(w, t));
    assert EventOk(s.events[w], w, s.workers, s.mutex);
    TE.StepKeepsWakeUp(s.events[w], t);
    WaitKeepsHolders(s.jobs, s.workers, w);
    forall v | v in s'.events ensures EventOk(s'.events[v], v, s'.workers, s'.mutex) {
      assert EventOk(s.events[v], v, s.workers, s.mutex);
    }
    forall v | s'.Asleep(v) ensures NonePending(s'.queue, s'.jobs) {
      assert s.Asleep(v);
    }
  }

  lemma StepKeeps(s: State, step: Step)
    requires Invariant(s) && Enabled(s, step)
    ensures Invariant(Apply(s, step))
  {
    match step
    case Request(typed, luck) =>
      if s.workerCount < WORKER_COUNT {
        FirstRequest(s, typed, luck);
      } else {
        LaterRequest(s, typed, luck);
      }
    case SignalFlag => SignalKeeps(s, step);
    case SignalSend(_) => SignalKeeps(s, step);
    case SignalDone => SignalKeeps(s, step);
    case Scan(w) => ScanKeeps(s, w);
    case Finish(w) => FinishKeeps(s, w);
    case Abandon(j) => AbandonKeeps(s, j);
    case Wait(w, t) => WaitKeeps(s, w, t);
  }

  /** The invariant holds in every state that any run can reach. */
  lemma {:induction false} RunKeeps(s: State, steps: seq<Step>)
    requires Invariant(s) && Possible(s, steps)
    ensures Invariant(After(s, steps))
    decreases steps
  {
    if |steps| > 0 {
      StepKeeps(s, steps[0]);
      RunKeeps(Apply(s, steps[0]), steps[1..]);
    }
  }

  lemma InitialOk()
    ensures Invariant(INITIAL)
  {
    assert |INITIAL.jobs| == 0;
  }

  // ------------------------------------------------------------------- main results

  /** Some run from the start leads to the state. */
  ghost predicate Reachable(s: State) {
    exists steps :: Possible(INITIAL, steps) && After(INITIAL, steps) == s
  }

  lemma ReachableOk(s: State)
    requires Reachable(s)
    ensures Invariant(s)
  {
    var steps :| Possible(INITIAL, steps) && After(INITIAL, steps) == s;
    InitialOk();
    RunKeeps(INITIAL, steps);
  }

  lemma {:induction false} OneStepMore(s: State, steps: seq<Step>, step: Step)
    requires Possible(s, steps) && Enabled(After(s, steps), step)
    ensures Possible(s, steps + [step]) && After(s, steps + [step]) == Apply(After(s, steps), step)
    decreases steps
  {
    if |steps| == 0 {
      assert [] + [step] == [step] && [step][1..] == [];
      assert Possible(Apply(s, step), []) && After(Apply(s, step), []) == Apply(s, step);
    } else {
      OneStepMore(Apply(s, steps[0]), steps[1..], step);
      assert (steps + [step])[1..] == steps[1..] + [step];
    }
  }

  /** What can happen in a reachable state leads to a reachable state. */
  lemma ReachableStep(s: State, step: Step)
    requires Reachable(s) && Enabled(s, step)
    ensures Reachable(Apply(s, step))
  {
    var steps :| Possible(INITIAL, steps) && After(INITIAL, steps) == s;
    OneStepMore(INITIAL, steps, step);
  }

  lemma {:induction false} CreationSucceeds(i: nat, have: set<nat>, eventsOk: set<nat>)
    requires i <= WORKER_COUNT && forall w :: i <= w < WORKER_COUNT ==> w in eventsOk
    ensures var c := CreateEvents(i, 0, have, eventsOk);
            c.ok && have <= c.have && forall w :: i <= w < WORKER_COUNT ==> w in c.have
    decreases WORKER_COUNT - i
  {
    if i < WORKER_COUNT { CreationSucceeds(i + 1, have + {i}, eventsOk); }
  }

  lemma {:induction false} SpawningNoMore(count: nat, threads: set<nat>, have: set<nat>, threadsOk: set<nat>)
    requires 0 < count <= WORKER_COUNT && forall w :: count <= w < WORKER_COUNT ==> w in have && w !in threadsOk
    ensures SpawnWorkers(count, threads, have, threadsOk) == Spawning(true, WORKER_COUNT, threads)
    decreases WORKER_COUNT - count
  {
    if count < WORKER_COUNT { SpawningNoMore(count + 1, threads, have, threadsOk); }
  }

  function AllWorkers(): (r: set<nat>)
    ensures forall w: nat :: w in r <==> w < WORKER_COUNT
  {
    {0, 1, 2, 3, 4, 5}
  }

  /** A first request for which every event could be made but only one thread started. */
  lemma {:induction false} OneWorkerStarts() returns (s: State)
    ensures Reachable(s) && s.workerCount == WORKER_COUNT
    ensures s.mutex.Free? && s.queue == [0] && s.jobs == map[0 := NewJob(true)] && s.workers == map[0 := Scanning]
    ensures forall w: nat :: w < WORKER_COUNT ==> w in s.events && s.events[w] == TE.FRESH_EVENT
  {
    hide CreateEvents, SpawnWorkers, AllWorkers;
    var all := AllWorkers();
    assert Possible(INITIAL, []) && After(INITIAL, []) == INITIAL;
    ReachableStep(INITIAL, Request(true, Luck(true, true, all, {0})));
    CreationSucceeds(0, INITIAL.events.Keys, all);
    FirstThread(CreateEvents(0, 0, INITIAL.events.Keys, all).have);
    s := Apply(INITIAL, Request(true, Luck(true, true, all, {0})));
    assert [] + [0] == [0];
  }

  lemma FirstThread(have: set<nat>)
    requires forall w: nat :: w < WORKER_COUNT ==> w in have
    ensures SpawnWorkers(0, {}, have, {0}) == Spawning(true, WORKER_COUNT, {0})
  {
    SpawningNoMore(1, {0}, have, {0});
    assert {} + {0} == {0};
  }

  /** The sleep that the results below speak of happens: one job, done by one worker that then finds nothing. */
  lemma {:induction false} SleepHappens() returns (s: State)
    ensures Reachable(s) && s.Asleep(0) && s.jobs == map[0 := Job(true, true, false, false, 1, 0, Nobody)]
  {
    s := OneWorkerStarts();
    assert ScanQueue([0], s.jobs) == ScanResult([0], {}, Took(0));
    ReachableStep(s, Scan(0));
    s := Apply(s, Scan(0));
    ReachableStep(s, Finish(0));
    s := Apply(s, Finish(0));
    assert ScanQueue([0][1..], s.jobs) == ScanResult([], {}, Nothing);
    ReachableStep(s, Scan(0));
    s := Apply(s, Scan(0));
  }

  ghost predicate Holds(s: State, w: nat, j: nat) { w in s.workers && s.workers[w] == Holding(j) }

  /**
   Ownership. In every reachable state a typed job is in progress exactly while one worker holds
   it, and no two workers hold the same job; no job was started twice or freed twice; a freed job was
   abandoned, has left the queue and is held by nobody; the queue is the unfreed
   jobs in request order, without duplicates.
   */
  lemma JobOwnership(s: State)
    requires Reachable(s)
    ensures forall j :: j in s.jobs && s.jobs[j].typed ==> (s.jobs[j].inprogress <==> exists w :: Holds(s, w, j))
    ensures forall v, w, j :: Holds(s, v, j) && Holds(s, w, j) ==> v == w
    ensures forall j :: j in s.jobs ==> s.jobs[j].starts <= 1 && s.jobs[j].frees <= 1
    ensures forall j :: j in s.jobs && s.jobs[j].frees == 1 ==> s.jobs[j].abandoned && j !in s.queue
    ensures forall j, w :: j in s.jobs && s.jobs[j].frees == 1 ==> !Holds(s, w, j)
    ensures Ascending(s.queue) && (forall j :: j in s.queue <==> j in s.jobs && s.jobs[j].frees == 0)
  {
    ReachableOk(s);
    forall j | j in s.jobs && s.jobs[j].typed
      ensures s.jobs[j].inprogress <==> exists w :: Holds(s, w, j)
    {
      assert JobOk(s.jobs[j]);
      if s.jobs[j].inprogress { assert Holds(s, s.jobs[j].holder.id, j); }
    }
    forall j, w | j in s.jobs && s.jobs[j].frees == 1 ensures !Holds(s, w, j) {
      assert JobOk(s.jobs[j]);
    }
    forall j | j in s.jobs ensures s.jobs[j].starts <= 1 && s.jobs[j].frees <= 1 {
      assert JobOk(s.jobs[j]);
    }
    forall j | j in s.jobs && s.jobs[j].frees == 1 ensures s.jobs[j].abandoned && j !in s.queue {
      assert JobOk(s.jobs[j]);
    }
  }

  /** How the flags and the history of a job may move on: nothing that ends its life is ever taken back. */
  predicate Later(a: Job, b: Job) {
    && a.typed == b.typed && a.starts <= b.starts && a.frees <= b.frees
    && (a.done ==> b.done) && (a.abandoned ==> b.abandoned)
    && (a.inprogress ==> b.inprogress || b.done)
  }

  lemma ScanMovesOn(queue: seq<nat>, jobs: map<nat, Job>, w: nat, j: nat)
    requires QueueOk(queue, jobs) && j in jobs
    ensures var jobs' := AfterScan(jobs, ScanQueue(queue, jobs), w); j in jobs' && Later(jobs[j], jobs'[j])
  {
    ScanTakesOldest(queue, jobs);
    ScanKeepsRest(queue, jobs);
  }

  lemma RequestMovesOn(s: State, typed: bool, luck: Luck, j: nat)
    requires QueueOk(s.queue, s.jobs) && s.mutex.Free? && j in s.jobs
    ensures var s' := ApplyRequest(s, typed, luck); j in s'.jobs && s'.jobs[j] == s.jobs[j]
  {
    assert j != |s.jobs|;
  }

  lemma StepMovesOn(s: State, step: Step, j: nat)
    requires Invariant(s) && Enabled(s, step) && j in s.jobs
    ensures var s' := Apply(s, step); j in s'.jobs && Later(s.jobs[j], s'.jobs[j])
  {
    match step
    case Request(typed, luck) => RequestMovesOn(s, typed, luck, j);
    case Scan(w) => ScanMovesOn(s.queue, s.jobs, w, j);
    case _ =>
  }

  /** From any reachable state on, done, abandoned, started and freed are final. */
  lemma {:induction false} HistoryIsFinal(s: State, steps: seq<Step>, j: nat)
    requires Invariant(s) && Possible(s, steps) && j in s.jobs
    ensures var s' := After(s, steps);
            && j in s'.jobs && Later(s.jobs[j], s'.jobs[j])
            && s'.jobs[j].typed == s.jobs[j].typed && s.jobs[j].starts <= s'.jobs[j].starts && s.jobs[j].frees <= s'.jobs[j].frees
            && (s.jobs[j].done ==> s'.jobs[j].done) && (s.jobs[j].abandoned ==> s'.jobs[j].abandoned)
            && (s.jobs[j].inprogress ==> s'.jobs[j].inprogress || s'.jobs[j].done)
    decreases steps
  {
    if |steps| > 0 {
      StepMovesOn(s, steps[0], j);
      StepKeeps(s, steps[0]);
      HistoryIsFinal(Apply(s, steps[0]), steps[1..], j);
    }
  }

  /** Jobs are started first come, first served, abandoned ones aside. */
  lemma FirstComeFirstServed(s: State, j: nat, k: nat)
    requires Reachable(s) && j < k && k in s.jobs && s.jobs[k].starts == 1
    ensures j in s.jobs && (s.jobs[j].starts == 1 || s.jobs[j].abandoned)
  {
    ReachableOk(s);
    assert k < |s.jobs|;
  }

  /** Every accepted job is being worked on, done or given up. */
  ghost predicate NothingToDo(s: State) {
    forall j :: j in s.jobs ==> s.jobs[j].inprogress || s.jobs[j].done || s.jobs[j].abandoned
  }

  lemma NonePendingMeansNothingToDo(s: State)
    requires QueueOk(s.queue, s.jobs) && NonePending(s.queue, s.jobs)
    ensures NothingToDo(s)
  {
    forall j | j in s.jobs ensures s.jobs[j].inprogress || s.jobs[j].done || s.jobs[j].abandoned {
      assert JobOk(s.jobs[j]);
      if s.jobs[j].frees == 0 { assert j in s.queue; }
    }
  }

  /**
   No stranded job: a worker that scanned, found nothing, has its event unset and will not be
   signalled by the request that holds the mutex means that no job is waiting.
   */
  lemma NoStrandedJob(s: State, w: nat)
    requires Reachable(s) && s.Asleep(w)
    ensures NothingToDo(s)
  {
    ReachableOk(s);
    NonePendingMeansNothingToDo(s);
  }

  /**
   Queue and event together: with no request under way, an idle worker that is blocked in its poll,
   and whose event lost no byte to a socket error, means that no job is waiting.
   */
  lemma BlockedWorkerMeansNothingToDo(s: State, w: nat)
    requires Reachable(s)
    requires s.mutex.Free? && w in s.workers && s.workers[w] == Waiting(true)
    requires w in s.events && TE.Blocked(s.events[w]) && s.events[w].failed == 0
    ensures NothingToDo(s)
  {
    ReachableOk(s);
    assert EventOk(s.events[w], w, s.workers, s.mutex);
    assert s.Asleep(w);
    NoStrandedJob(s, w);
  }

  /** Once one request was accepted, all workers count and all events exist, so every later request signals them all. */
  lemma AllWorkersAtOnce(s: State)
    requires Reachable(s) && |s.jobs| > 0
    ensures s.workerCount == 6 && 0 in s.workers && forall w: nat :: w < 6 ==> w in s.events
  {
    ReachableOk(s);
    assert s.jobs != map[];
  }

  /** A scan with the mutex free starts the oldest waiting job, whichever worker does it. */
  lemma ScanStartsOldest(s: State, w: nat, j: nat)
    requires Reachable(s)
    requires s.mutex.Free? && w in s.workers && s.workers[w].Scanning? && j in s.jobs && s.jobs[j].Pending()
    requires forall k :: k in s.jobs && k < j ==> !s.jobs[k].Pending()
    ensures Enabled(s, Scan(w)) && Apply(s, Scan(w)).jobs[j] == s.jobs[j].Start(w)
    ensures s.jobs[j].typed ==> Holds(Apply(s, Scan(w)), w, j)
  {
    ReachableOk(s);
    OldestIsTaken(s.queue, s.jobs, j);
  }

  lemma OldestIsTaken(queue: seq<nat>, jobs: map<nat, Job>, j: nat)
    requires QueueOk(queue, jobs)
    requires j in jobs && jobs[j].Pending() && forall k :: k in jobs && k < j ==> !jobs[k].Pending()
    ensures var r := ScanQueue(queue, jobs); r.taken == Took(j) && j !in r.freed
  {
    assert JobOk(jobs[j]);
    assert j in queue;
    ScanTakesOldest(queue, jobs);
  }

  lemma StepKeepsAbandoned(s: State, step: Step, j: nat)
    requires Invariant(s) && Enabled(s, step) && j in s.jobs && s.jobs[j].abandoned
    ensures var s' := Apply(s, step); j in s'.jobs && s'.jobs[j].abandoned && s'.jobs[j].starts == s.jobs[j].starts
  {
    match step
    case Request(typed, luck) => RequestMovesOn(s, typed, luck, j);
    case Scan(w) => ScanTakesOldest(s.queue, s.jobs);
    case _ =>
  }

  lemma {:induction false} AbandonedStays(s: State, steps: seq<Step>, j: nat)
    requires Invariant(s) && Possible(s, steps) && j in s.jobs && s.jobs[j].abandoned
    ensures var s' := After(s, steps); j in s'.jobs && s'.jobs[j].abandoned && s'.jobs[j].starts == s.jobs[j].starts
    decreases steps
  {
    if |steps| > 0 {
      StepKeepsAbandoned(s, steps[0], j);
      StepKeeps(s, steps[0]);
      AbandonedStays(Apply(s, steps[0]), steps[1..], j);
    }
  }

  /** A job can be given up whenever the mutex is free and the job not freed; from then on no run starts it. */
  lemma AbandonedNeverStarts(s: State, j: nat, steps: seq<Step>)
    requires Reachable(s) && s.mutex.Free? && j in s.jobs && s.jobs[j].frees == 0
    requires Enabled(s, Abandon(j)) ==> Possible(Apply(s, Abandon(j)), steps)
    ensures Enabled(s, Abandon(j))
    ensures var s' := After(Apply(s, Abandon(j)), steps);
            j in s'.jobs && s'.jobs[j].abandoned && s'.jobs[j].starts == s.jobs[j].starts
  {
    ReachableOk(s);
    AbandonKeeps(s, j);
    AbandonedStays(Apply(s, Abandon(j)), steps, j);
  }

  /**
   And it is freed by the next scan that comes past it: one that finds nothing to do or takes a younger job, provided
   no worker is at the job any more.
   */
  lemma AbandonedIsFreed(s: State, j: nat, steps: seq<Step>, w: nat)
    requires Reachable(s) && s.mutex.Free? && j in s.jobs && s.jobs[j].frees == 0
    requires Possible(s, [Abandon(j)] + steps)
    requires var later := After(s, [Abandon(j)] + steps);
             j in later.jobs && !later.jobs[j].inprogress && Enabled(later, Scan(w))
    ensures var later := After(s, [Abandon(j)] + steps);
            var at := Apply(later, Scan(w)).workers[w];
            at == Waiting(true) || (at.Holding? && j < at.job) ==>
              j in Apply(later, Scan(w)).jobs && Apply(later, Scan(w)).jobs[j].frees == 1
  {
    assert ([Abandon(j)] + steps)[1..] == steps;
    hide Apply, Invariant;
    ReachableOk(s);
    var given := Apply(s, Abandon(j));
    AbandonMarks(s, j);
    AbandonKeeps(s, j);
    AbandonedStays(given, steps, j);
    RunKeeps(given, steps);
    ScanFreesAbandoned(After(given, steps), j, w);
  }

  lemma AbandonMarks(s: State, j: nat)
    requires Enabled(s, Abandon(j))
    ensures j in Apply(s, Abandon(j)).jobs && Apply(s, Abandon(j)).jobs[j].abandoned
  {
  }

  lemma ScanFreesAbandoned(s: State, j: nat, w: nat)
    requires Invariant(s) && j in s.jobs && s.jobs[j].abandoned && !s.jobs[j].inprogress && Enabled(s, Scan(w))
    ensures var at := Apply(s, Scan(w)).workers[w];
            at == Waiting(true) || (at.Holding? && j < at.job) ==>
              j in Apply(s, Scan(w)).jobs && Apply(s, Scan(w)).jobs[j].frees == 1
  {
    hide HoldersOk, FirstComeOk, EventsOk, SleepersOk, WorkersOk;
    assert JobOk(s.jobs[j]);
    ScanKeepsRest(s.queue, s.jobs);
    ScanTakesOldest(s.queue, s.jobs);
  }

  /** A worker that holds a job can finish it whenever the mutex is free: then the job is done and the worker scans. */
  lemma HolderFinishes(s: State, w: nat, j: nat)
    requires Reachable(s) && s.mutex.Free? && Holds(s, w, j)
    ensures Enabled(s, Finish(w))
    ensures var s' := Apply(s, Finish(w));
            && s'.workers == s.workers[w := Scanning] && s'.queue == s.queue && s'.events == s.events && s'.mutex.Free?
            && j in s.jobs && s'.jobs == s.jobs[j := s'.jobs[j]] && s'.jobs[j].done && !s'.jobs[j].inprogress
            && s'.jobs[j].abandoned == s.jobs[j].abandoned && s'.jobs[j].starts == 1
  {
    ReachableOk(s);
    assert JobOk(s.jobs[j]);
  }

  /** How the send to a worker can end: it may fail or have to be repeated at any time, and succeeds if there is room. */
  lemma SendEnds(s: State, w: nat)
    requires Reachable(s) && s.mutex == Signalling(w, true)
    ensures w in s.events
    ensures Enabled(s, SignalSend(TE.SendFails)) && Apply(s, SignalSend(TE.SendFails)).mutex == Signalling(w + 1, false)
    ensures Enabled(s, SignalSend(TE.SendAgain)) && Apply(s, SignalSend(TE.SendAgain)) == s
    ensures Enabled(s, SignalSend(TE.Deliver)) <==> s.events[w].bytes < TE.CAPACITY
    ensures s.events[w].bytes < TE.CAPACITY ==> Apply(s, SignalSend(TE.Deliver)).mutex == Signalling(w + 1, false)
  {
    hide JobsOk, SleepersOk;
    ReachableOk(s);
    assert EventOk(s.events[w], w, s.workers, s.mutex);
  }

  lemma {:induction false} CreationExactly(i: nat, have: set<nat>, eventsOk: set<nat>)
    requires i <= WORKER_COUNT
    ensures CreateEvents(i, 0, have, eventsOk).ok <==> forall w: nat :: i <= w < WORKER_COUNT ==> w in have || w in eventsOk
    decreases WORKER_COUNT - i
  {
    if i < WORKER_COUNT && (i in have || i in eventsOk) {
      CreationExactly(i + 1, have + {i}, eventsOk);
    }
  }

  lemma {:induction false} SpawningExactly(count: nat, threads: set<nat>, have: set<nat>, threadsOk: set<nat>)
    requires count <= WORKER_COUNT && forall w: nat :: w < WORKER_COUNT ==> w in have
    ensures var sp := SpawnWorkers(count, threads, have, threadsOk);
            && (sp.ok <==> count > 0 || 0 in threadsOk)
            && (sp.ok ==> sp.threads == threads + set w: nat | count <= w < WORKER_COUNT && w in threadsOk)
    decreases WORKER_COUNT - count
  {
    if count < WORKER_COUNT {
      if count in threadsOk {
        SpawningExactly(count + 1, threads + {count}, have, threadsOk);
      } else if count > 0 {
        SpawningExactly(count + 1, threads, have, threadsOk);
      }
    }
  }

  /** What the first request ever accepted needs: an event for each of the six workers, and a thread for the first. */
  predicate CanStart(s: State, luck: Luck) {
    luck.tablesFit && 0 in luck.threadsOk && forall w: nat :: w < 6 ==> w in s.events || w in luck.eventsOk
  }

  /**
   Exactly when a request is accepted, and what it leaves: the job behind all others, and either the six workers, as far
   as their threads start, or the signalling of the workers there are. Refused, it leaves queue, jobs and workers alone.
   */
  lemma RequestOutcome(s: State, typed: bool, luck: Luck)
    requires Reachable(s) && s.mutex.Free?
    ensures Enabled(s, Request(typed, luck))
    ensures var s' := Apply(s, Request(typed, luck));
            if luck.arrayGrows && (s.workerCount == 6 || CanStart(s, luck)) then
              && s'.queue == s.queue + [|s.jobs|] && |s.jobs| !in s.jobs
              && s'.jobs == s.jobs[|s.jobs| := Job(typed, false, false, false, 0, 0, Nobody)]
              && s'.workerCount == 6
              && s'.mutex == (if s.workerCount == 6 then Signalling(0, false) else Free)
              && s'.workers == if s.workerCount == 6 then s.workers
                               else map w: nat | w in luck.threadsOk && w < 6 :: Scanning
            else
              s'.queue == s.queue && s'.jobs == s.jobs && s'.workerCount == s.workerCount
              && s'.workers == s.workers && s'.mutex.Free?
    ensures forall w :: w in s.events ==> w in Apply(s, Request(typed, luck)).events
                                          && Apply(s, Request(typed, luck)).events[w] == s.events[w]
  {
    hide Invariant, ApplyRequest, CanStart, AddEvents;
    ReachableOk(s);
    CountsOfInvariant(s, typed);
    if s.workerCount == 6 {
      RequestJoins(s, typed, luck);
    } else {
      RequestStarts(s, typed, luck);
    }
  }

  lemma CountsOfInvariant(s: State, typed: bool)
    requires Invariant(s)
    ensures |s.jobs| !in s.jobs && (s.workerCount == 0 || s.workerCount == 6) && (s.workerCount == 0 ==> s.workers == map[])
  {
    NewJobKeepsQueue(s.queue, s.jobs, typed);
  }

  /** A request with all workers there. */
  lemma RequestJoins(s: State, typed: bool, luck: Luck)
    requires s.mutex.Free? && s.workerCount == 6
    ensures ApplyRequest(s, typed, luck) ==
            if luck.arrayGrows then
              s.(queue := s.queue + [|s.jobs|], jobs := s.jobs[|s.jobs| := Job(typed, false, false, false, 0, 0, Nobody)],
                 mutex := Signalling(0, false))
            else s
  {
  }

  /** A request with no worker there. */
  lemma RequestStarts(s: State, typed: bool, luck: Luck)
    requires s.mutex.Free? && s.workerCount == 0 && s.workers == map[]
    ensures var s' := ApplyRequest(s, typed, luck);
            && (forall w :: w in s.events ==> w in s'.events && s'.events[w] == s.events[w])
            && s'.mutex.Free?
            && if luck.arrayGrows && CanStart(s, luck) then
                 && s'.queue == s.queue + [|s.jobs|] && s'.workerCount == 6
                 && s'.jobs == s.jobs[|s.jobs| := Job(typed, false, false, false, 0, 0, Nobody)]
                 && s'.workers == map w: nat | w in luck.threadsOk && w < 6 :: Scanning
               else s'.queue == s.queue && s'.jobs == s.jobs && s'.workerCount == s.workerCount && s'.workers == s.workers
  {
    hide CreateEvents, SpawnWorkers;
    CreationExactly(0, s.events.Keys, luck.eventsOk);
    CreationFromNothing(0, 0, s.events.Keys, luck.eventsOk);
    var c := CreateEvents(0, 0, s.events.Keys, luck.eventsOk);
    if c.ok {
      SpawningExactly(0, {}, c.have, luck.threadsOk);
      SpawningAll(0, {}, c.have, luck.threadsOk);
      var sp := SpawnWorkers(0, {}, c.have, luck.threadsOk);
      if sp.ok {
        assert s.workers + NewThreads(sp.threads) == map w: nat | w in luck.threadsOk && w < 6 :: Scanning;
      }
    }
  }

  /** A job of type NONE, once picked up, stays in progress for ever: it is never done and never freed. */
  lemma UntypedJobNeverEnds(s: State, steps: seq<Step>, j: nat)
    requires Reachable(s) && Possible(s, steps) && j in s.jobs && !s.jobs[j].typed && s.jobs[j].inprogress
    ensures var s' := After(s, steps); j in s'.jobs && s'.jobs[j].inprogress && !s'.jobs[j].done && s'.jobs[j].frees == 0
  {
    ReachableOk(s);
    HistoryIsFinal(s, steps, j);
    RunKeeps(s, steps);
    assert JobOk(After(s, steps).jobs[j]);
  }

  // ------------------------------------------------------------ the scan as it is written

  /** How far the loop over the array has come: [..i] is passed over, freed is what it freed. */
  ghost predicate ScannedTo(q0: seq<nat>, t0: map<nat, Job>, queue: seq<nat>, i: nat, freed: set<nat>) {
    && i <= |queue| && Ascending(queue)
    && (forall j :: j in q0 ==> j in t0)
    && (forall j :: j in queue ==> j in t0 && j !in freed)
    && var r := ScanQueue(queue[i..], t0);
    ScanQueue(q0, t0) == ScanResult(queue[..i] + r.queue, freed + r.freed, r.taken)
  }

  lemma AscendingWithout(queue: seq<nat>, i: nat)
    requires Ascending(queue) && i < |queue|
    ensures Ascending(queue[..i] + queue[i + 1..]) && queue[i] !in queue[..i] + queue[i + 1..]
    ensures forall j :: j in queue[..i] + queue[i + 1..] ==> j in queue
  {
  }

  lemma ScannedToFreed(q0: seq<nat>, t0: map<nat, Job>, queue: seq<nat>, i: nat, freed: set<nat>)
    requires ScannedTo(q0, t0, queue, i, freed) && i < |queue| && t0[queue[i]].Collectable()
    ensures ScannedTo(q0, t0, queue[..i] + queue[i + 1..], i, freed + {queue[i]})
  {
    AscendingWithout(queue, i);
    var rest, queue' := queue[i..], queue[..i] + queue[i + 1..];
    assert rest[0] == queue[i] && rest[1..] == queue[i + 1..] == queue'[i..] && queue'[..i] == queue[..i];
    assert freed + ({queue[i]} + ScanQueue(rest[1..], t0).freed) == (freed + {queue[i]}) + ScanQueue(rest[1..], t0).freed;
  }

  lemma ScannedToNext(q0: seq<nat>, t0: map<nat, Job>, queue: seq<nat>, i: nat, freed: set<nat>)
    requires ScannedTo(q0, t0, queue, i, freed) && i < |queue|
    requires !t0[queue[i]].Collectable() && !t0[queue[i]].Pending()
    ensures ScannedTo(q0, t0, queue, i + 1, freed)
  {
    var rest := queue[i..];
    assert rest[0] == queue[i] && rest[1..] == queue[i + 1..] && queue[..i + 1] == queue[..i] + [queue[i]];
    assert queue[..i] + ([queue[i]] + ScanQueue(rest[1..], t0).queue) == queue[..i + 1] + ScanQueue(rest[1..], t0).queue;
  }

  /** The loop stops at a pending job: queue and flags are those of the scan. */
  lemma StopsAtPending(q0: seq<nat>, t0: map<nat, Job>, queue: seq<nat>, i: nat, freed: set<nat>, w: nat)
    requires ScannedTo(q0, t0, queue, i, freed) && i < |queue| && t0[queue[i]].Pending()
    ensures var r := ScanQueue(q0, t0);
            r.queue == queue && r.taken == Took(queue[i])
            && AfterScan(t0, r, w) == FreeAll(t0, freed)[queue[i] := t0[queue[i]].Start(w)]
  {
    assert queue[..i] + queue[i..] == queue;
    assert queue[i..][0] == queue[i];
    var r := ScanQueue(q0, t0);
    assert r == ScanResult(queue, freed, Took(queue[i]));
    assert queue[i] in queue;
  }

  lemma StopsAtEnd(q0: seq<nat>, t0: map<nat, Job>, queue: seq<nat>, freed: set<nat>, w: nat)
    requires ScannedTo(q0, t0, queue, |queue|, freed)
    ensures var r := ScanQueue(q0, t0); r.queue == queue && r.taken == Nothing && AfterScan(t0, r, w) == FreeAll(t0, freed)
  {
    assert queue[..|queue|] + [] == queue && queue[|queue|..] == [];
  }

  lemma StartsScan(queue: seq<nat>, jobs: map<nat, Job>)
    requires Ascending(queue) && forall j :: j in queue ==> j in jobs
    ensures ScannedTo(queue, jobs, queue, 0, {}) && jobs == FreeAll(jobs, {})
  {
    assert queue[0..] == queue && queue[..0] + ScanQueue(queue, jobs).queue == ScanQueue(queue, jobs).queue;
  }

  lemma FreeOneMore(t0: map<nat, Job>, freed: set<nat>, j: nat)
    requires j in t0 && j !in freed
    ensures j in FreeAll(t0, freed) && FreeAll(t0, freed)[j] == t0[j]
    ensures FreeAll(t0, freed)[j := t0[j].Free()] == FreeAll(t0, freed + {j})
  {
  }

  function FreeAll(jobs: map<nat, Job>, freed: set<nat>): map<nat, Job> {
    map j | j in jobs :: if j in freed then jobs[j].Free() else jobs[j]
  }

  /** What the loop knows about the job it looks at. */
  lemma ScannedToLooks(q0: seq<nat>, t0: map<nat, Job>, queue: seq<nat>, i: nat, freed: set<nat>)
    requires ScannedTo(q0, t0, queue, i, freed) && i < |queue|
    ensures queue[i] in t0 && queue[i] !in freed
  {
    assert queue[i] in queue;
  }

  /** One more event: the array of events of the code holds null where the map holds nothing. */
  lemma AddOneEvent(events: map<nat, TE.Event>, have: set<nat>, i: nat)
    ensures AddEvents(events, have + {i}) ==
            if i in AddEvents(events, have) then AddEvents(events, have)
            else AddEvents(events, have)[i := TE.FRESH_EVENT]
  {
  }

  /** The events there are after the loop are those it says it has. */
  lemma HaveIsKeys(events: map<nat, TE.Event>, count: nat, eventsOk: set<nat>)
    ensures var c := CreateEvents(0, count, events.Keys, eventsOk); AddEvents(events, c.have).Keys == c.have
  {
    HaveGrows(0, count, events.Keys, eventsOk);
  }

  lemma {:induction false} HaveGrows(i: nat, count: nat, have: set<nat>, eventsOk: set<nat>)
    requires i <= WORKER_COUNT
    ensures have <= CreateEvents(i, count, have, eventsOk).have
    decreases WORKER_COUNT - i
  {
    if i < WORKER_COUNT {
      if i in have || i in eventsOk {
        HaveGrows(i + 1, count, have + {i}, eventsOk);
      } else if count > 0 {
        HaveGrows(i + 1, count, have, eventsOk);
      }
    }
  }

  lemma AddNoEvents(events: map<nat, TE.Event>)
    ensures AddEvents(events, events.Keys) == events
  {
  }

  lemma OneMoreThread(workers: map<nat, WorkerAt>, threads: set<nat>, w: nat)
    ensures workers + NewThreads({}) == workers
    ensures workers + NewThreads(threads + {w}) == (workers + NewThreads(threads))[w := Scanning]
  {
  }

  /** The shared variables, and what is done to them under the mutex. */
  class JobQueue {
    var queue: seq<nat>
    var jobs: map<nat, Job>
    var workerCount: nat
    var workers: map<nat, WorkerAt>
    var events: map<nat, TE.Event>

    ghost function Shared(mutex: Mutex): State
      reads this
    {
      State(queue, jobs, mutex, workerCount, workers, events)
    }

    constructor ()
      ensures Shared(Free) == INITIAL
    {
      queue, jobs, workerCount, workers, events := [], map[], 0, map[], map[];
    }

    /**
     The append of asyncjob_RequestAsync: the job joins behind every older one, under a name no job ever had, and the
     queue stays the list of all jobs not freed.
     */
    method Append(typed: bool) returns (job: nat)
      requires QueueOk(queue, jobs)
      modifies this`queue, this`jobs
      ensures QueueOk(queue, jobs) && job !in old(jobs) && forall j :: j in old(queue) ==> j < job
      ensures queue == old(queue) + [job] && jobs == old(jobs)[job := NewJob(typed)] && job == |old(jobs)|
    {
      NewJobKeepsQueue(queue, jobs, typed);
      job := |jobs|;
      queue, jobs := queue + [job], jobs[job := NewJob(typed)];
    }

    /** The label abortduetospawn: the job is disowned again. */
    method Disown(ghost q0: seq<nat>, ghost t0: map<nat, Job>, ghost typed: bool)
      requires QueueOk(q0, t0) && queue == q0 + [|t0|] && jobs == t0[|t0| := NewJob(typed)]
      modifies this`queue, this`jobs
      ensures queue == q0 && jobs == t0
    {
      NewJobKeepsQueue(q0, t0, typed);
      var last := queue[|queue| - 1];
      queue, jobs := queue[..|queue| - 1], jobs - {last};
    }

    /** The loop over the events. */
    method MakeEvents(eventsOk: set<nat>) returns (ok: bool)
      modifies this`events
      ensures var c := CreateEvents(0, workerCount, old(events).Keys, eventsOk);
              ok == c.ok && events == AddEvents(old(events), c.have)
    {
      ghost var have: set<nat> := events.Keys;
      ghost var e0 := events;
      AddNoEvents(events);
      for i: nat := 0 to WORKER_COUNT
        invariant CreateEvents(0, workerCount, e0.Keys, eventsOk) == CreateEvents(i, workerCount, have, eventsOk)
        invariant events == AddEvents(e0, have) && e0.Keys <= have
      {
        assert i in have <==> i in events;
        if i !in events {
          if i in eventsOk {
            AddOneEvent(e0, have, i);
            events := events[i := TE.FRESH_EVENT];
            have := have + {i};
          } else if workerCount <= 0 {
            return false;
          }
        } else {
          assert have + {i} == have;
        }
      }
      return true;
    }

    /** The loop that starts threads. */
    method SpawnThreads(threadsOk: set<nat>) returns (ok: bool)
      requires workerCount <= WORKER_COUNT
      modifies this`workers, this`workerCount
      ensures var sp := SpawnWorkers(old(workerCount), {}, events.Keys, threadsOk);
              && ok == sp.ok && (ok ==> workerCount == sp.count && workers == old(workers) + NewThreads(sp.threads))
              && (!ok ==> workerCount == old(workerCount) && workers == old(workers))
    {
      ghost var threads: set<nat>, w0, n0 := {}, workers, workerCount;
      OneMoreThread(w0, {}, 0);
      while workerCount < WORKER_COUNT
        invariant n0 <= workerCount <= WORKER_COUNT && workers == w0 + NewThreads(threads)
        invariant workerCount == n0 ==> threads == {}
        invariant SpawnWorkers(n0, {}, events.Keys, threadsOk) == SpawnWorkers(workerCount, threads, events.Keys, threadsOk)
      {
        if workerCount !in events {
          break;
        }
        if workerCount in threadsOk {
          OneMoreThread(w0, threads, workerCount);
          workers := workers[workerCount := Scanning];
          threads := threads + {workerCount};
        } else if workerCount <= 0 {
          return false;
        }
        workerCount := workerCount + 1;
      }
      return true;
    }

    /** asyncjob_RequestAsync with the mutex held; signal says whether it goes on to set the events one by one. */
    method RequestAsync(typed: bool, luck: Luck) returns (ok: bool, signal: bool)
      requires QueueOk(queue, jobs) && workerCount <= WORKER_COUNT
      modifies this
      ensures Shared(if signal then Signalling(0, false) else Free) == ApplyRequest(old(Shared(Free)), typed, luck)
      ensures if ok then queue == old(queue) + [|old(jobs)|] else queue == old(queue) && jobs == old(jobs) && !signal
      ensures QueueOk(queue, jobs)
    {
      hide QueueOk, CreateEvents, SpawnWorkers, AddEvents;
      if !luck.arrayGrows {
        return false, false;
      }
      ghost var q0, t0 := queue, jobs;
      var _ := Append(typed);
      if workerCount < WORKER_COUNT {
        if !luck.tablesFit {
          Disown(q0, t0, typed);
          return false, false;
        }
        ghost var e0 := events;
        var made := MakeEvents(luck.eventsOk);
        ghost var have := CreateEvents(0, workerCount, e0.Keys, luck.eventsOk).have;
        if !made {
          Disown(q0, t0, typed);
          return false, false;
        }
        HaveIsKeys(e0, workerCount, luck.eventsOk);
        var spawned := SpawnThreads(luck.threadsOk);
        if !spawned {
          Disown(q0, t0, typed);
          return false, false;
        }
        return true, false;
      }
      return true, true;
    }

    /** asyncjob_AbandonJob, under the mutex. */
    method AbandonJob(job: nat)
      requires job in jobs && jobs[job].frees == 0
      modifies this`jobs
      ensures Shared(Free) == Apply(old(Shared(Free)), Abandon(job))
    {
      jobs := jobs[job := jobs[job].(abandoned := true)];
    }

    /** What a worker does with its job under the mutex once the work is done. */
    method FinishJob(w: nat)
      requires w in workers && workers[w].Holding? && workers[w].job in jobs
      modifies this`jobs, this`workers
      ensures Shared(Free) == Apply(old(Shared(Free)), Finish(w))
    {
      var job := workers[w].job;
      jobs := jobs[job := jobs[job].(inprogress := false, done := true, holder := Nobody)];
      workers := workers[w := Scanning];
    }

    /** One look at the job at index i: free it and stay, take it, or move on. */
    method Visit(i: nat, w: nat, ghost q0: seq<nat>, ghost t0: map<nat, Job>, ghost freed: set<nat>)
      returns (next: nat, ourjob: Taken, ghost freed': set<nat>)
      requires ScannedTo(q0, t0, queue, i, freed) && jobs == FreeAll(t0, freed) && i < |queue|
      modifies this`queue, this`jobs
      ensures ourjob == Nothing ==> ScannedTo(q0, t0, queue, next, freed') && jobs == FreeAll(t0, freed')
      ensures ourjob == Nothing ==> |queue| - next < old(|queue|) - i
      ensures ourjob.Took? ==> var r := ScanQueue(q0, t0);
                               queue == r.queue && ourjob == r.taken && jobs == AfterScan(t0, r, w)
    {
      hide ScannedTo, ScanQueue, AfterScan, FreeAll;
      var j := queue[i];
      ScannedToLooks(q0, t0, queue, i, freed);
      FreeOneMore(t0, freed, j);
      next, ourjob, freed' := i, Nothing, freed;
      if !jobs[j].inprogress && (!jobs[j].done || jobs[j].abandoned) {
        if jobs[j].abandoned {
          ScannedToFreed(q0, t0, queue, i, freed);
          jobs := jobs[j := jobs[j].Free()];
          freed' := freed + {j};
          queue := queue[..i] + queue[i + 1..];
        } else {
          StopsAtPending(q0, t0, queue, i, freed, w);
          jobs := jobs[j := jobs[j].Start(w)];
          ourjob := Took(j);
        }
      } else {
        ScannedToNext(q0, t0, queue, i, freed);
        next := i + 1;
      }
    }

    /** The locked part of asyncsysjobworker_Do: free what is collectable, take the first pending job. */
    method PickUp(w: nat) returns (ourjob: Taken)
      requires Ascending(queue) && forall j :: j in queue ==> j in jobs
      modifies this`queue, this`jobs
      ensures var r := ScanQueue(old(queue), old(jobs));
              queue == r.queue && ourjob == r.taken && jobs == AfterScan(old(jobs), r, w)
    {
      ourjob := Nothing;
      ghost var q0, t0 := queue, jobs;
      ghost var freed: set<nat> := {};
      var i: nat := 0;
      StartsScan(q0, t0);
      while i < |queue|
        invariant ourjob == Nothing && ScannedTo(q0, t0, queue, i, freed) && jobs == FreeAll(t0, freed)
        decreases |queue| - i
      {
        i, ourjob, freed := Visit(i, w, q0, t0, freed);
        if ourjob.Took? {
          return;
        }
      }
      StopsAtEnd(q0, t0, queue, freed, w);
    }
  }
}
