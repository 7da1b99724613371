/**
 The wake-up event of a thread (horse64/threading.c): a flag guarded by a mutex, and a
 socket pair whose bytes wake a blocked owner. Any number of threads set the event; one
 owner waits for it, polls it, flushes the socket and unsets it. Each step below is what one thread does
 between two points where another thread can interfere.
 */
module ThreadEvent {

  /** Where the owner stands; unset says whether a successful wait clears the flag. */
  datatype Owner =
    | Outside
    | Polling(unset: bool)    // in sockset_Wait, the flag was down when last looked at
    | Draining(unset: bool)   // receiving the bytes that ended the poll
    | Rechecking(unset: bool) // about to look at the flag again
    | Flushing                // threadevent_FlushWakeUpEvents, no lock held
    | Unsetting               // threadevent_Unset, flag cleared and lock held, now flushing

  /**
   raised is the flag, bytes the content of the socket pair, sending the setters that have
   raised the flag and not finished their send. failed counts the sends that ended
   in a hard socket error since the owner last looked at the flag.
   */
  datatype Event = Event(raised: bool, bytes: nat, sending: nat, owner: Owner, failed: nat)

  type Room = n: nat | n > 0 witness 1

  /** How many bytes the socket pair holds; any positive number. */
  const CAPACITY: Room

  const FRESH_EVENT := Event(false, 0, 0, Outside, 0)

  datatype Step =
    | RaiseFlag                                // threadevent_Set, the locked part
    | Deliver                                  // its send succeeds
    | SendFails                                // its send ends in an error it does not retry
    | SendAgain                                // its send would block: it waits and tries again
    | WaitEnter(unset: bool)                   // threadevent_WaitUntilSet, first look at the flag
    | PollEnds(readable: bool)                 // sockset_Wait returns
    | Receive                                  // one recv that yields a byte
    | ReceiveNothing                           // a recv that yields none ends the drain
    | Recheck(timeLeft: bool)                  // look at the flag; poll again only with time left
    | Poll(unset: bool)                        // threadevent_PollIsSet
    | FlushEnter | UnsetEnter

  /** Whether the step can happen now. The flag cannot be raised while Unsetting holds the lock. */
  predicate Enabled(e: Event, step: Step) {
    match step
    case RaiseFlag => !e.owner.Unsetting?
    case Deliver => e.sending > 0 && e.bytes < CAPACITY
    case SendFails | SendAgain => e.sending > 0
    case WaitEnter(_) | Poll(_) | FlushEnter | UnsetEnter => e.owner.Outside?
    case PollEnds(_) => e.owner.Polling?
    case Receive => (e.owner.Draining? || e.owner.Flushing? || e.owner.Unsetting?) && e.bytes > 0
    case ReceiveNothing => e.owner.Draining? || e.owner.Flushing? || e.owner.Unsetting?
    case Recheck(_) => e.owner.Rechecking?
  }

  function Apply(e: Event, step: Step): Event
    requires Enabled(e, step)
  {
    match step
    case RaiseFlag => e.(raised := true, sending := e.sending + 1)
    case Deliver => e.(bytes := e.bytes + 1, sending := e.sending - 1)
    case SendFails => e.(sending := e.sending - 1, failed := e.failed + 1)
    case SendAgain => e
    case WaitEnter(unset) =>
      if e.raised then e.(raised := !unset, failed := 0) else e.(owner := Polling(unset), failed := 0)
    case PollEnds(readable) => e.(owner := if readable then Draining(e.owner.unset) else Rechecking(e.owner.unset))
    case Receive => e.(bytes := e.bytes - 1)
    case ReceiveNothing => e.(owner := if e.owner.Draining? then Rechecking(e.owner.unset) else Outside)
    case Recheck(timeLeft) =>
      if e.raised then e.(raised := !e.owner.unset, owner := Outside, failed := 0)
      else e.(owner := if timeLeft then Polling(e.owner.unset) else Outside, failed := 0)
    case Poll(unset) => if e.raised then e.(raised := !unset, failed := 0) else e.(failed := 0)
    case FlushEnter => e.(owner := Flushing)
    case UnsetEnter => e.(raised := false, owner := Unsetting, failed := 0)
  }

  ghost predicate Possible(e: Event, steps: seq<Step>)
    decreases steps
  {
    |steps| == 0 || (Enabled(e, steps[0]) && Possible(Apply(e, steps[0]), steps[1..]))
  }

  ghost function After(e: Event, steps: seq<Step>): Event
    requires Possible(e, steps)
    decreases steps
  {
    if |steps| == 0 then e else After(Apply(e, steps[0]), steps[1..])
  }

  /** Blocked for good unless someone acts: in the poll with nothing to read. */
  predicate Blocked(e: Event) { e.owner.Polling? && e.bytes == 0 }

  /** While the owner polls, a raised flag still has its byte: to be sent, sent, or lost to a socket error. */
  predicate WakeUpKept(e: Event) {
    e.owner.Polling? && e.raised ==> e.sending > 0 || e.bytes > 0 || e.failed > 0
  }

  lemma StepKeepsWakeUp(e: Event, step: Step)
    requires WakeUpKept(e) && Enabled(e, step)
    ensures WakeUpKept(Apply(e, step))
  {
  }

  lemma {:induction false} RunKeepsWakeUp(e: Event, steps: seq<Step>)
    requires WakeUpKept(e) && Possible(e, steps)
    ensures WakeUpKept(After(e, steps))
    decreases steps
  {
    if |steps| > 0 {
      StepKeepsWakeUp(e, steps[0]);
      RunKeepsWakeUp(Apply(e, steps[0]), steps[1..]);
    }
  }

  /** No send of the run ended in a hard error. */
  predicate NoSendFails(steps: seq<Step>) { SendFails !in steps }

  lemma {:induction false} NoFailureCounted(e: Event, steps: seq<Step>)
    requires Possible(e, steps) && NoSendFails(steps) && e.failed == 0
    ensures After(e, steps).failed == 0
    decreases steps
  {
    if |steps| > 0 {
      assert steps[0] in steps;
      NoFailureCounted(Apply(e, steps[0]), steps[1..]);
    }
  }

  /**
   No lost wake-up: on every run without a hard send error, when the owner is in
   the poll, the flag is up and no setter is between flag and send, there is a byte to read.
   */
  lemma NoLostWakeUp(steps: seq<Step>)
    requires Possible(FRESH_EVENT, steps) && NoSendFails(steps)
    ensures var e := After(FRESH_EVENT, steps); e.owner.Polling? && e.raised && e.sending == 0 ==> !Blocked(e)
  {
    RunKeepsWakeUp(FRESH_EVENT, steps);
    NoFailureCounted(FRESH_EVENT, steps);
  }

  /** The condition is needed: one send lost to a hard error leaves the owner blocked while the flag is up. */
  lemma HardErrorLosesWakeUp() returns (steps: seq<Step>)
    ensures Possible(FRESH_EVENT, steps) && !NoSendFails(steps)
    ensures var e := After(FRESH_EVENT, steps); Blocked(e) && e.raised && e.sending == 0
  {
    steps := [WaitEnter(true), RaiseFlag, SendFails];
    var e1 := Apply(FRESH_EVENT, WaitEnter(true));
    var e2 := Apply(e1, RaiseFlag);
    var e3 := Apply(e2, SendFails);
    assert steps[1..] == [RaiseFlag, SendFails] && steps[1..][1..] == [SendFails] && steps[1..][1..][1..] == [];
    assert After(e3, []) == e3 && After(e2, [SendFails]) == e3 && After(e1, [RaiseFlag, SendFails]) == e3;
    assert steps[2] == SendFails;
  }

  predicate IsSetterStep(step: Step) { step.RaiseFlag? || step.Deliver? || step.SendFails? || step.SendAgain? }

  /**
   Exactly when: while the owner polls an empty socket, whatever any number of setters do, it stays blocked if and
   only if none of their sends succeeded.
   */
  lemma {:induction false} BlockedUntilDelivery(e: Event, steps: seq<Step>)
    requires e.owner.Polling? && Possible(e, steps) && forall k :: 0 <= k < |steps| ==> IsSetterStep(steps[k])
    ensures After(e, steps).owner == e.owner
    ensures Blocked(After(e, steps)) <==> Blocked(e) && Deliver !in steps
    decreases steps
  {
    if |steps| > 0 {
      assert IsSetterStep(steps[0]);
      BlockedUntilDelivery(Apply(e, steps[0]), steps[1..]);
      assert steps == [steps[0]] + steps[1..];
    }
  }

  /** What the owner does by itself once a poll reports a byte: receive everything, then look at the flag. */
  function WakeUpSteps(bytes: nat): seq<Step> { [PollEnds(true)] + DrainSteps(bytes) }

  function DrainSteps(bytes: nat): seq<Step> {
    if bytes == 0 then [ReceiveNothing, Recheck(true)] else [Receive] + DrainSteps(bytes - 1)
  }

  lemma {:induction false} DrainReturns(e: Event)
    requires e.owner.Draining? && e.raised
    ensures Possible(e, DrainSteps(e.bytes))
    ensures var e' := After(e, DrainSteps(e.bytes));
            e' == Event(!e.owner.unset, 0, e.sending, Outside, 0)
    decreases e.bytes
  {
    var steps := DrainSteps(e.bytes);
    if e.bytes == 0 {
      var mid := Apply(e, ReceiveNothing);
      assert steps[1..] == [Recheck(true)] && steps[1..][1..] == [];
      assert After(Apply(mid, Recheck(true)), []) == Apply(mid, Recheck(true));
      assert After(mid, [Recheck(true)]) == Apply(mid, Recheck(true));
    } else {
      assert steps[1..] == DrainSteps(e.bytes - 1);
      DrainReturns(Apply(e, Receive));
    }
  }

  /** A polling owner whose flag is up and who has a byte returns with success, leaving no byte and, if asked, no flag. */
  lemma WakeUpReturns(e: Event)
    requires e.owner.Polling? && e.raised && e.bytes > 0
    ensures Possible(e, WakeUpSteps(e.bytes))
    ensures After(e, WakeUpSteps(e.bytes)) == Event(!e.owner.unset, 0, e.sending, Outside, 0)
  {
    assert WakeUpSteps(e.bytes)[1..] == DrainSteps(e.bytes);
    DrainReturns(Apply(e, PollEnds(true)));
  }

  // -------------------------------------------------------------- what every run accounts for

  /**
   Over any run, bytes are only moved: what is in the socket and what was received is what was there and what was sent;
   and every raised flag has its send: under way, done or failed.
   */
  lemma {:induction false} NothingIsLost(e: Event, steps: seq<Step>)
    requires Possible(e, steps)
    ensures var e', m := After(e, steps), multiset(steps);
            && e'.bytes + m[Receive] == e.bytes + m[Deliver]
            && e'.sending + m[Deliver] + m[SendFails] == e.sending + m[RaiseFlag]
    decreases steps
  {
    if |steps| > 0 {
      NothingIsLost(Apply(e, steps[0]), steps[1..]);
      assert steps == [steps[0]] + steps[1..];
    }
  }

  /** The steps that leave the flag down: an unset, and a look at the flag by an owner that asked to clear it. */
  predicate TakesFlag(e: Event, step: Step) {
    || step == UnsetEnter || step == WaitEnter(true) || step == Poll(true)
    || (step.Recheck? && e.owner.Rechecking? && e.owner.unset)
  }

  ghost predicate NoneTakesFlag(e: Event, steps: seq<Step>)
    requires Possible(e, steps)
    decreases steps
  {
    |steps| == 0 || (!TakesFlag(e, steps[0]) && NoneTakesFlag(Apply(e, steps[0]), steps[1..]))
  }

  /** Such a step leaves the flag down, and until the next one it is up if it was up or a setter raised it. */
  lemma {:induction false} FlagIsUpUntilTaken(e: Event, steps: seq<Step>)
    requires Possible(e, steps)
    ensures NoneTakesFlag(e, steps) ==> (After(e, steps).raised <==> e.raised || RaiseFlag in steps)
    ensures |steps| > 0 && TakesFlag(e, steps[0]) && NoneTakesFlag(Apply(e, steps[0]), steps[1..]) ==>
              (After(e, steps).raised <==> RaiseFlag in steps)
    decreases steps
  {
    if |steps| > 0 {
      FlagIsUpUntilTaken(Apply(e, steps[0]), steps[1..]);
      assert steps == [steps[0]] + steps[1..];
    }
  }

  lemma {:induction false} DownWhileUnsetting(e: Event, steps: seq<Step>)
    requires Possible(e, steps) && (e.owner.Unsetting? ==> !e.raised)
    ensures After(e, steps).owner.Unsetting? ==> !After(e, steps).raised
    decreases steps
  {
    if |steps| > 0 { DownWhileUnsetting(Apply(e, steps[0]), steps[1..]); }
  }

  /** No setter gets between the clearing of the flag and the emptying of the socket: while that goes on the flag is down. */
  lemma UnsetIsUndisturbed(steps: seq<Step>)
    requires Possible(FRESH_EVENT, steps)
    ensures After(FRESH_EVENT, steps).owner.Unsetting? ==> !After(FRESH_EVENT, steps).raised
  {
    DownWhileUnsetting(FRESH_EVENT, steps);
  }

  function Receives(n: nat): seq<Step> {
    if n == 0 then [ReceiveNothing] else [Receive] + Receives(n - 1)
  }

  lemma {:induction false} Empties(e: Event)
    requires e.owner.Flushing? || e.owner.Unsetting?
    ensures Possible(e, Receives(e.bytes)) && After(e, Receives(e.bytes)) == e.(bytes := 0, owner := Outside)
    decreases e.bytes
  {
    if e.bytes == 0 {
      assert Receives(0)[1..] == [];
      assert After(Apply(e, ReceiveNothing), []) == Apply(e, ReceiveNothing);
    } else {
      assert Receives(e.bytes)[1..] == Receives(e.bytes - 1);
      Empties(Apply(e, Receive));
    }
  }

  /** threadevent_Unset and threadevent_FlushWakeUpEvents by themselves: both empty the socket, one clears the flag. */
  lemma UnsetAndFlush(e: Event)
    requires e.owner.Outside?
    ensures var steps := [UnsetEnter] + Receives(e.bytes);
            Possible(e, steps) && After(e, steps) == Event(false, 0, e.sending, Outside, 0)
    ensures var steps := [FlushEnter] + Receives(e.bytes);
            Possible(e, steps) && After(e, steps) == Event(e.raised, 0, e.sending, Outside, e.failed)
  {
    assert ([UnsetEnter] + Receives(e.bytes))[1..] == Receives(e.bytes);
    assert ([FlushEnter] + Receives(e.bytes))[1..] == Receives(e.bytes);
    Empties(Apply(e, UnsetEnter));
    Empties(Apply(e, FlushEnter));
  }

  lemma OneStep(e: Event, step: Step)
    requires Enabled(e, step)
    ensures Possible(e, [step]) && After(e, [step]) == Apply(e, step)
  {
    assert [step][1..] == [] && After(Apply(e, step), []) == Apply(e, step);
  }

  /** A wait or a look that finds the flag up returns at once and leaves the socket alone. */
  lemma FindsFlagUp(e: Event, unset: bool, step: Step)
    requires e.owner.Outside? && e.raised && (step == WaitEnter(unset) || step == Poll(unset))
    ensures Possible(e, [step]) && After(e, [step]) == Event(!unset, e.bytes, e.sending, Outside, 0)
  {
    OneStep(e, step);
  }

  /** A wait for a flag that stays down polls until its time is up, then returns with nothing changed. */
  lemma TimesOut(e: Event, unset: bool)
    requires e.owner.Outside? && !e.raised
    ensures var steps := [WaitEnter(unset), PollEnds(false), Recheck(true), PollEnds(false), Recheck(false)];
            && Possible(e, steps) && After(e, steps) == e.(failed := 0)
            && After(e, [WaitEnter(unset)]) == e.(owner := Polling(unset), failed := 0)
  {
    OneStep(e, WaitEnter(unset));
    var e1 := Apply(e, WaitEnter(unset));
    var e2 := Apply(e1, PollEnds(false));
    assert Apply(e2, Recheck(true)) == e1;
    OneStep(e2, Recheck(false));
    var s1 := [PollEnds(false), Recheck(false)];
    assert s1[1..] == [Recheck(false)];
    var s2 := [Recheck(true), PollEnds(false), Recheck(false)];
    assert s2[1..] == s1;
    var s3 := [PollEnds(false), Recheck(true), PollEnds(false), Recheck(false)];
    assert s3[1..] == s2;
    assert [WaitEnter(unset), PollEnds(false), Recheck(true), PollEnds(false), Recheck(false)][1..] == s3;
    assert After(e2, s2) == After(e1, s1) == e.(failed := 0);
  }
}
