/**
 The send buffer of a socket (sockets_Send and _internal_sockets_ProcessSend in horse64/sockets.c). What the operating
 system or the TLS library answers to a write, and whether a socket can be registered for sending, are inputs.
 */
module SendBuffer {
  import opened Words

  type Text = seq<Byte>

  /** What a write of some bytes comes to. */
  datatype Answer = Took(count: nat) | WantsWrite | WantsRead | Failed

  datatype Result = Success | NeedToWrite | NeedToRead | OperationFailed

  /** Bytes not yet written, and the length that was offered last if that write has to be repeated. */
  datatype Line = Line(queue: Text, retry: nat, open: bool) {
    predicate Valid() { retry <= |queue| }

    /** The bytes the next write offers. */
    function Offer(): Text
      requires Valid()
    {
      if retry > 0 then queue[..retry] else queue
    }
  }

  /** A write takes at least one byte and no more than it was offered; only TLS can ask to read first. */
  predicate Possible(line: Line, tls: bool, answer: Answer)
    requires line.Valid()
  {
    match answer
    case Took(count) => 1 <= count <= |line.Offer()|
    case WantsRead => tls
    case _ => true
  }

  function AfterSend(line: Line, bytes: Text, registered: bool): (r: Line)
    ensures line.Valid() ==> r.Valid()
  {
    if |bytes| > 0 && registered then line.(queue := line.queue + bytes) else line
  }

  function AfterWrite(line: Line, answer: Answer): (r: Line)
    requires line.Valid() && Possible(line, true, answer)
    ensures r.Valid()
  {
    if !line.open || |line.queue| == 0 then line
    else match answer
      case Took(count) => Line(line.queue[count..], 0, true)
      case WantsWrite => line.(retry := |line.Offer()|)
      case WantsRead => line.(retry := |line.Offer()|)
      case Failed => line.(open := false)
  }

  /** The bytes that leave the buffer by a write. */
  function Written(line: Line, answer: Answer): Text
    requires line.Valid() && Possible(line, true, answer)
  {
    if line.open && |line.queue| > 0 && answer.Took? then line.Offer()[..answer.count] else []
  }

  // ------------------------------------------------------------------ the buffer in memory

  /** memcpy to a place in the buffer. */
  method Copy(buf: array<Byte>, at: nat, bytes: Text)
    requires at + |bytes| <= buf.Length
    modifies buf
    ensures buf[..at + |bytes|] == old(buf[..at]) + bytes
  {
    for k := 0 to |bytes|
      invariant buf[..at] == old(buf[..at]) && buf[at..at + k] == bytes[..k]
    {
      buf[at + k] := bytes[k];
    }
    assert buf[..at + |bytes|] == buf[..at] + buf[at..at + |bytes|];
  }

  /** memmove of the bytes between from and end to the start of the buffer. */
  method MoveToFront(buf: array<Byte>, from: nat, end: nat)
    requires from <= end <= buf.Length
    modifies buf
    ensures buf[..end - from] == old(buf[from..end])
  {
    ghost var before := buf[..];
    for k := 0 to end - from
      invariant forall j :: 0 <= j < k ==> buf[j] == before[j + from]
      invariant forall j :: k + from <= j < end ==> buf[j] == before[j]
    {
      buf[k] := buf[k + from];
    }
  }

  class Socket {
    var sendbuf: array<Byte>
    var fill: nat
    var retry: nat
    var open: bool
    const tls: bool

    ghost predicate Valid()
      reads this
    {
      retry <= fill <= sendbuf.Length
    }

    ghost function State(): (l: Line)
      requires Valid()
      reads this, sendbuf
      ensures l.Valid()
    {
      Line(sendbuf[..fill], retry, open)
    }

    constructor (tls: bool)
      ensures Valid() && fresh(sendbuf) && State() == Line([], 0, true)
    {
      sendbuf, fill, retry, open := new Byte[0], 0, 0, true;
      this.tls := tls;
    }

    /** sockets_Send. The buffer is made larger before it is known whether the bytes will be kept. */
    method Send(bytes: Text, registered: bool) returns (ok: bool)
      requires Valid()
      modifies this, sendbuf
      ensures Valid() && (sendbuf == old(sendbuf) || fresh(sendbuf))
      ensures State() == AfterSend(old(State()), bytes, registered) && (ok <==> |bytes| > 0 && registered)
    {
      if |bytes| <= 0 { return false; }
      if sendbuf.Length < fill + |bytes| {
        var larger := new Byte[fill + |bytes|];
        Copy(larger, 0, sendbuf[..fill]);
        sendbuf := larger;
      }
      if !registered { return false; }
      Copy(sendbuf, fill, bytes);
      fill := fill + |bytes|;
      return true;
    }

    /** How many bytes the next write has to offer, from the start of the buffer. */
    function OfferLength(): (n: nat)
      requires Valid()
      reads this, sendbuf
      ensures n <= fill && sendbuf[..n] == State().Offer()
    {
      if retry > 0 then retry else fill
    }

    /** _sockets_CloseNoLock */
    method Close()
      requires Valid()
      modifies this`open
      ensures Valid() && State() == old(State()).(open := false)
    {
      open := false;
    }

    /** _internal_sockets_ProcessSend: answer is what comes back for the bytes it offers. */
    method ProcessSend(answer: Answer) returns (result: Result, offered: Text)
      requires Valid() && Possible(State(), tls, answer)
      modifies this, sendbuf
      ensures Valid() && sendbuf == old(sendbuf)
      ensures State() == AfterWrite(old(State()), answer)
      ensures offered == if old(open) && old(fill) > 0 then old(State()).Offer() else []
      ensures result == if !old(open) then OperationFailed else if old(fill) == 0 then Success
                        else match answer case Took(_) => Success case WantsWrite => NeedToWrite
                                          case WantsRead => NeedToRead case Failed => OperationFailed
    {
      if !open { return OperationFailed, []; }
      if fill <= 0 { return Success, []; }
      var length := OfferLength();
      offered := sendbuf[..length];
      match answer
      case Took(count) =>
        retry := 0;
        MoveToFront(sendbuf, count, fill);
        fill := fill - count;
        return Success, offered;
      case WantsWrite =>
        retry := length;
        return NeedToWrite, offered;
      case WantsRead =>
        retry := length;
        return NeedToRead, offered;
      case Failed =>
        open := false;
        return OperationFailed, offered;
    }
  }

  // ------------------------------------------------------------------ runs

  datatype Event = Send(bytes: Text, registered: bool) | Write(answer: Answer) | Close

  /** A line and what went in at one end and came out at the other since the socket was made. */
  datatype History = History(line: Line, accepted: Text, delivered: Text)

  predicate Allowed(h: History, e: Event) {
    h.line.Valid() && (e.Write? ==> Possible(h.line, true, e.answer))
  }

  function Next(h: History, e: Event): (r: History)
    requires Allowed(h, e)
    ensures r.line.Valid()
  {
    match e
    case Send(bytes, registered) =>
      History(AfterSend(h.line, bytes, registered), h.accepted + if registered then bytes else [], h.delivered)
    case Write(answer) => History(AfterWrite(h.line, answer), h.accepted, h.delivered + Written(h.line, answer))
    case Close => h.(line := h.line.(open := false))
  }

  /** A run: each history follows from the one before by some event. */
  predicate Run(hs: seq<History>, es: seq<Event>) {
    && |hs| == |es| + 1
    && (forall k :: 0 <= k < |es| ==> Allowed(hs[k], es[k]) && hs[k + 1] == Next(hs[k], es[k]))
  }

  const NEW_SOCKET: History := History(Line([], 0, true), [], [])

  predicate FirstInFirstOut(h: History) { h.line.Valid() && h.delivered + h.line.queue == h.accepted }

  lemma NextIsFifo(h: History, e: Event)
    requires FirstInFirstOut(h) && Allowed(h, e)
    ensures FirstInFirstOut(Next(h, e)) && h.delivered <= Next(h, e).delivered && h.accepted <= Next(h, e).accepted
  {
    match e
    case Send(bytes, registered) =>
      assert (h.delivered + h.line.queue) + bytes == h.delivered + (h.line.queue + bytes);
    case Write(answer) =>
      var w := Written(h.line, answer);
      assert h.line.queue == w + AfterWrite(h.line, answer).queue;
      assert h.delivered + (w + AfterWrite(h.line, answer).queue) == (h.delivered + w) + AfterWrite(h.line, answer).queue;
    case Close =>
  }

  /** At every point of every run what was delivered, followed by the buffer, is everything accepted, in order. */
  lemma {:induction false} DeliveredInOrder(hs: seq<History>, es: seq<Event>, k: nat)
    requires Run(hs, es) && hs[0] == NEW_SOCKET && k < |hs|
    ensures hs[k].line.Valid() && hs[k].delivered + hs[k].line.queue == hs[k].accepted
  {
    if k > 0 {
      DeliveredInOrder(hs, es, k - 1);
      NextIsFifo(hs[k - 1], es[k - 1]);
    }
  }

  /**
   What a write of an open socket with something to send does: a success delivers exactly the bytes it took, which are
   the next ones accepted; a block changes nothing but what is to be repeated; a failure closes the socket.
   */
  lemma WriteDelivers(h: History, answer: Answer)
    requires FirstInFirstOut(h) && h.line.open && |h.line.queue| > 0
    requires answer.Took? ==> 1 <= answer.count <= if h.line.retry > 0 then h.line.retry else |h.line.queue|
    ensures Allowed(h, Write(answer))
    ensures var r, n := Next(h, Write(answer)), |h.delivered|;
            && r.accepted == h.accepted && (r.line.open <==> answer != Failed)
            && match answer
               case Took(count) => n + count <= |h.accepted| && r.delivered == h.delivered + h.accepted[n..n + count]
               case _ => r.delivered == h.delivered && r.line.queue == h.line.queue
  {
    if answer.Took? {
      var n, w := |h.delivered|, Written(h.line, answer);
      assert h.accepted[n..] == h.line.queue;
      assert w == h.line.queue[..answer.count] == h.accepted[n..n + answer.count];
    }
  }

  /** A send adds its bytes behind all others if the socket could be registered, and is forgotten if not. */
  lemma SendAccepts(h: History, bytes: Text, registered: bool)
    requires FirstInFirstOut(h)
    ensures var r := Next(h, Send(bytes, registered));
            && r.delivered == h.delivered && r.line.open == h.line.open && r.line.retry == h.line.retry
            && r.accepted == h.accepted + (if registered then bytes else [])
            && r.line.queue == h.line.queue + (if registered then bytes else [])
  {
  }

  /** Closing leaves the bytes not yet written where they are; from then on none of them is delivered. */
  lemma {:induction false} CloseDropsTheRest(hs: seq<History>, es: seq<Event>, i: nat, k: nat)
    requires Run(hs, es) && i < k < |hs| && es[i] == Close
    ensures !hs[k].line.open && hs[k].delivered == hs[i].delivered && hs[i + 1].line.queue == hs[i].line.queue
  {
    ClosedIsSilent(hs, es, i + 1, k);
  }

  /** Nothing comes out of a closed socket, and it never opens again. */
  lemma {:induction false} ClosedIsSilent(hs: seq<History>, es: seq<Event>, i: nat, k: nat)
    requires Run(hs, es) && i <= k < |hs| && !hs[i].line.open
    ensures !hs[k].line.open && hs[k].delivered == hs[i].delivered
  {
    if i < k { ClosedIsSilent(hs, es, i, k - 1); }
  }

  /**
   A blocked write is repeated with the same bytes: whatever is queued, blocked or refused in between, the offer stays
   what it was until a write succeeds.
   */
  lemma {:induction false} RetryOffersTheSame(hs: seq<History>, es: seq<Event>, i: nat, k: nat)
    requires Run(hs, es) && i < k < |hs|
    requires es[i].Write? && es[i].answer in [WantsWrite, WantsRead] && hs[i].line.open && |hs[i].line.queue| > 0
    requires forall j :: i < j < k && es[j].Write? ==> !es[j].answer.Took?
    ensures hs[k].line.Valid() && hs[k].line.retry > 0 && hs[k].line.Offer() == hs[i].line.Offer()
  {
    if i + 1 < k {
      RetryOffersTheSame(hs, es, i, k - 1);
      var before, e := hs[k - 1].line, es[k - 1];
      if e.Send? && |e.bytes| > 0 && e.registered {
        assert (before.queue + e.bytes)[..before.retry] == before.queue[..before.retry];
      }
    }
  }

  /** So what a repeated write delivers is a piece from the front of what was offered first. */
  lemma RetryDeliversOffered(hs: seq<History>, es: seq<Event>, i: nat, k: nat)
    requires Run(hs, es) && i < k < |es|
    requires es[i].Write? && es[i].answer in [WantsWrite, WantsRead] && hs[i].line.open && |hs[i].line.queue| > 0
    requires forall j :: i < j < k && es[j].Write? ==> !es[j].answer.Took?
    requires es[k].Write? && es[k].answer.Took? && hs[k].line.open
    ensures var offer, count := hs[i].line.Offer(), es[k].answer.count;
            count <= |offer| && hs[k + 1].delivered == hs[i].delivered + offer[..count]
  {
    RetryOffersTheSame(hs, es, i, k);
    SilentUntilTaken(hs, es, i, k);
  }

  lemma {:induction false} SilentUntilTaken(hs: seq<History>, es: seq<Event>, i: nat, k: nat)
    requires Run(hs, es) && i < k < |hs|
    requires es[i].Write? && es[i].answer in [WantsWrite, WantsRead]
    requires forall j :: i < j < k && es[j].Write? ==> !es[j].answer.Took?
    ensures hs[k].delivered == hs[i].delivered
  {
    if i + 1 < k { SilentUntilTaken(hs, es, i, k - 1); }
  }
}
