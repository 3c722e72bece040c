/**
 The sender's protocol told without its state: which events may follow a log is a matter
 of the last events in it, of the resources opened last and of the bytes not yet sent.
 */
module SenderHistory {
  import opened Wrappers
  import opened Octets
  import opened Ipv4
  import opened SenderProtocol

  // What a log tells

  /** The message popped last, and what has not been sent of it. */
  function LastMessage(log: seq<Event>): Packet {
    if log == [] then []
    else
      match log[|log| - 1]
      case Popped(_, msg) => msg
      case _ => LastMessage(log[..|log| - 1])
  }

  function Unsent(log: seq<Event>): seq<Byte> {
    if log == [] then []
    else
      var before := Unsent(log[..|log| - 1]);
      match log[|log| - 1]
      case Popped(_, msg) => msg
      case Sent(_, chunk) => if |chunk| <= |before| then before[|chunk|..] else []
      case _ => before
  }

  /** All messages popped, and all messages given a verdict. */
  function PoppedIn(log: seq<Event>): seq<Packet> {
    if log == [] then []
    else
      var before := PoppedIn(log[..|log| - 1]);
      match log[|log| - 1]
      case Popped(_, msg) => before + [msg]
      case _ => before
  }

  function JudgedIn(log: seq<Event>): seq<Packet> {
    if log == [] then []
    else
      var before := JudgedIn(log[..|log| - 1]);
      match log[|log| - 1]
      case Judged(_, msg, _, _) => before + [msg]
      case _ => before
  }

  /** What the connection opened last has taken. */
  function Written(log: seq<Event>): seq<Byte> {
    if log == [] then []
    else
      match log[|log| - 1]
      case VsockOpened(_) => []
      case Sent(_, chunk) => Written(log[..|log| - 1]) + chunk
      case _ => Written(log[..|log| - 1])
  }

  predicate Opens(e: Event) {
    e.QueueOpened? || e.VsockOpened?
  }

  /** The last event reports that the queue has failed, or that the connection has. */
  predicate QueueFailed(log: seq<Event>) {
    && log != []
    && var e := log[|log| - 1];
    e.PopFailed? || (e.Judged? && !e.ok)
  }

  predicate VsockFailed(log: seq<Event>) {
    && log != []
    && var e := log[|log| - 1];
    e.SendFailed? || (e.Sent? && e.chunk == [])
  }

  /** The queue has been opened, and nothing else. */
  predicate Starting(log: seq<Event>) {
    |log| == 1 && log[0].QueueOpened?
  }

  /** A poll found the token unset, and it was the inner loop's. */
  predicate ReadyToReceive(log: seq<Event>) {
    && |log| >= 2
    && log[|log| - 1] == Polled(true)
    && !Opens(log[|log| - 2])
  }

  /** The loops look at the token now. */
  predicate PollDue(log: seq<Event>) {
    && log != []
    && match log[|log| - 1]
       case QueueOpened(_) => |log| > 1
       case VsockOpened(_) => true
       case Overflowed(_) => true
       case Judged(_, _, _, ok) => ok
       case Polled(unset) => unset && |log| > 1 && Opens(log[|log| - 2])
       case _ => false
  }

  /** A message is in hand. */
  predicate Busy(log: seq<Event>) {
    && log != []
    && (log[|log| - 1].Popped? || (log[|log| - 1].Sent? && log[|log| - 1].chunk != []))
  }

  /** The protocol in terms of the log. */
  predicate Follows(log: seq<Event>, e: Event) {
    match e
    case QueueOpened(_) => log == [] || QueueFailed(log)
    case VsockOpened(_) => Starting(log) || VsockFailed(log)
    case OpenFailed => log == [] || QueueFailed(log) || Starting(log) || VsockFailed(log)
    case Polled(_) => PollDue(log)
    case Popped(q, _) => ReadyToReceive(log) && LastQueue(log) == Some(q)
    case Overflowed(q) => ReadyToReceive(log) && LastQueue(log) == Some(q)
    case PopFailed(q) => ReadyToReceive(log) && LastQueue(log) == Some(q)
    case Sent(c, chunk) => Busy(log) && Unsent(log) != [] && LastConn(log) == Some(c) && chunk <= Unsent(log)
    case SendFailed(c) => Busy(log) && Unsent(log) != [] && LastConn(log) == Some(c)
    case Judged(q, msg, verdict, _) =>
      Busy(log) && Unsent(log) == [] && LastQueue(log) == Some(q) && msg == LastMessage(log) && verdict == Drop
  }

  // The state agrees with it

  /** The phase after a log, in terms of the log. */
  predicate Told(log: seq<Event>, phase: Phase) {
    match phase
    case NeedQueue => log == [] || QueueFailed(log)
    case NeedVsock => Starting(log) || VsockFailed(log)
    case Outer => |log| > 1 && Opens(log[|log| - 1])
    case Inner => PollDue(log) && !Opens(log[|log| - 1])
    case Receiving => ReadyToReceive(log)
    case Sending(msg, sent) =>
      Busy(log) && msg == LastMessage(log) && sent < |msg| && Unsent(log) == msg[sent..]
    case Judging(msg) => Busy(log) && msg == LastMessage(log) && Unsent(log) == []
    case Done(clean) => log != [] && log[|log| - 1] == if clean then Polled(false) else OpenFailed
  }

  predicate Matches(log: seq<Event>, s: State) {
    && Told(log, s.phase)
    && (s.phase.Done? || (s.conns == [] <==> |log| < 2))
    && (|log| == 1 ==> Starting(log) || s.phase.Done?)
  }

  /** The log is the one before with an event at the end. */
  lemma Snoc(log: seq<Event>, e: Event)
    ensures var more := log + [e]; more[|more| - 1] == e && more[..|more| - 1] == log
    ensures log != [] ==> (log + [e])[|log| - 1] == log[|log| - 1]
  {
  }

  lemma SentMatches(log: seq<Event>, s: State, e: Event)
    requires Matches(log, s) && e.Sent? && Next(s, e).Some?
    ensures Matches(log + [e], Next(s, e).value)
  {
    Snoc(log, e);
    var msg, sent := s.phase.msg, s.phase.sent;
    assert msg[sent..][|e.chunk|..] == msg[sent + |e.chunk|..];
  }

  lemma NextMatches(log: seq<Event>, s: State, e: Event)
    requires Matches(log, s) && Next(s, e).Some?
    ensures Matches(log + [e], Next(s, e).value)
  {
    if e.Sent? {
      SentMatches(log, s, e);
    } else {
      Snoc(log, e);
    }
  }

  lemma {:induction false} MatchesAlways(log: seq<Event>)
    requires After(log).Some?
    ensures Matches(log, After(log).value)
  {
    if log != [] {
      var before := log[..|log| - 1];
      MatchesAlways(before);
      NextMatches(before, After(before).value, log[|log| - 1]);
      assert before + [log[|log| - 1]] == log;
    }
  }

  lemma ControlFollows(log: seq<Event>, s: State, e: Event)
    requires Matches(log, s) && (e.QueueOpened? || e.VsockOpened? || e.OpenFailed? || e.Polled?)
    ensures Next(s, e).Some? <==> Follows(log, e)
  {
  }

  lemma ReceiptFollows(log: seq<Event>, s: State, e: Event)
    requires Matches(log, s) && (e.Popped? || e.Overflowed? || e.PopFailed?)
    requires s.phase.Receiving? ==> LastQueue(log) == Some(s.queue)
    ensures Next(s, e).Some? <==> Follows(log, e)
  {
  }

  lemma PrefixBySlice(msg: Packet, sent: nat, chunk: seq<Byte>)
    requires sent <= |msg|
    ensures chunk <= msg[sent..] <==> sent + |chunk| <= |msg| && chunk == msg[sent..sent + |chunk|]
  {
    if sent + |chunk| <= |msg| {
      assert msg[sent..][..|chunk|] == msg[sent..sent + |chunk|];
    }
  }

  lemma SentFollows(log: seq<Event>, s: State, e: Event)
    requires Matches(log, s) && e.Sent?
    requires s.phase.Sending? ==> s.conns != [] && LastConn(log) == Some(s.conns[|s.conns| - 1].id)
    ensures Next(s, e).Some? <==> Follows(log, e)
  {
    if s.phase.Sending? {
      PrefixBySlice(s.phase.msg, s.phase.sent, e.chunk);
    }
  }

  lemma SendFailureFollows(log: seq<Event>, s: State, e: Event)
    requires Matches(log, s) && e.SendFailed?
    requires s.phase.Sending? ==> s.conns != [] && LastConn(log) == Some(s.conns[|s.conns| - 1].id)
    ensures Next(s, e).Some? <==> Follows(log, e)
  {
  }

  lemma VerdictFollows(log: seq<Event>, s: State, e: Event)
    requires Matches(log, s) && e.Judged?
    requires s.phase.Judging? ==> LastQueue(log) == Some(s.queue)
    ensures Next(s, e).Some? <==> Follows(log, e)
  {
  }

  lemma HandlesInUse(log: seq<Event>)
    requires After(log).Some?
    ensures
      var s := After(log).value;
      && (s.phase.Receiving? || s.phase.Judging? ==> LastQueue(log) == Some(s.queue))
      && (s.phase.Sending? ==> s.conns != [] && LastConn(log) == Some(s.conns[|s.conns| - 1].id))
  {
    HandlesAlways(log);
    OrderedAlways(log);
  }

  /** An event can come after a log exactly if the last events of the log call for it. */
  lemma FollowsExactly(log: seq<Event>, e: Event)
    requires After(log).Some?
    ensures After(log + [e]).Some? <==> Follows(log, e)
  {
    AfterSnoc(log, e);
    MatchesAlways(log);
    HandlesInUse(log);
    match e {
      case Popped(_, _) => ReceiptFollows(log, After(log).value, e);
      case Overflowed(_) => ReceiptFollows(log, After(log).value, e);
      case PopFailed(_) => ReceiptFollows(log, After(log).value, e);
      case Sent(_, _) => SentFollows(log, After(log).value, e);
      case SendFailed(_) => SendFailureFollows(log, After(log).value, e);
      case Judged(_, _, _, _) => VerdictFollows(log, After(log).value, e);
      case _ => ControlFollows(log, After(log).value, e);
    }
  }

  /** After an overflow the sender only polls, with the same queue and connection. */
  lemma OverflowGoesOn(log: seq<Event>, queue: nat, e: Event)
    requires After(log + [Overflowed(queue)] + [e]).Some?
    ensures e.Polled?
    ensures
      var over := log + [Overflowed(queue)];
      && LastQueue(over) == Some(queue) == LastQueue(log)
      && LastConn(over) == LastConn(log)
  {
    var over := log + [Overflowed(queue)];
    AfterSnoc(over, e);
    AfterSnoc(log, Overflowed(queue));
    FollowsExactly(over, e);
    FollowsExactly(log, Overflowed(queue));
    Snoc(log, Overflowed(queue));
  }

  /** Queues are opened at the start and after a queue failure only. */
  lemma QueueReopenedAfterFailure(log: seq<Event>, queue: nat)
    requires After(log + [QueueOpened(queue)]).Some?
    ensures log == [] || QueueFailed(log)
  {
    AfterSnoc(log, QueueOpened(queue));
    FollowsExactly(log, QueueOpened(queue));
  }

  // What the state has collected

  predicate Collected(log: seq<Event>, s: State) {
    && s.popped == PoppedIn(log)
    && s.judged == JudgedIn(log)
    && (s.conns != [] ==> s.conns[|s.conns| - 1].bytes == Written(log))
  }

  lemma NextCollects(log: seq<Event>, s: State, e: Event)
    requires Collected(log, s) && Next(s, e).Some?
    ensures Collected(log + [e], Next(s, e).value)
  {
    Snoc(log, e);
  }

  /** The messages popped and judged, and the bytes on the newest connection, are those of the log. */
  lemma {:induction false} CollectedAlways(log: seq<Event>)
    requires After(log).Some?
    ensures Collected(log, After(log).value)
  {
    if log != [] {
      var before := log[..|log| - 1];
      CollectedAlways(before);
      NextCollects(before, After(before).value, log[|log| - 1]);
      assert before + [log[|log| - 1]] == log;
    }
  }
}
