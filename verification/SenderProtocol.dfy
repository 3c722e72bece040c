/**
 What the sender may do: packets popped from a netfilter queue are written to a vsock
 stream. `Next` is one event, `After` a whole log of events; the lemmas are about every
 log. The loops that produce such logs are in `NfqToVsock`.
 */
module SenderProtocol {
  import opened Wrappers
  import opened Octets
  import opened Ipv4

  datatype Verdict = Accept | Drop

  /** What passes between the sender and its environment. */
  datatype Event =
    | QueueOpened(queue: nat)
    | VsockOpened(conn: nat)
    | OpenFailed
    | Popped(queue: nat, msg: Packet)
    | Overflowed(queue: nat)
    | PopFailed(queue: nat)
    | Sent(conn: nat, chunk: seq<Byte>) // the bytes that `send` accepted, maybe none
    | SendFailed(conn: nat)
    | Judged(queue: nat, msg: Packet, verdict: Verdict, ok: bool)
    | Polled(unset: bool)               // one look at the shutdown token

  datatype Phase =
    | NeedQueue
    | NeedVsock
    | Outer     // about to poll in `run`
    | Inner     // about to poll in `pump`
    | Receiving
    | Sending(msg: Packet, sent: nat)
    | Judging(msg: Packet)
    | Done(clean: bool)

  /** A connection: how many messages were popped before it, and the bytes it took. */
  datatype Conn = Conn(id: nat, first: nat, bytes: seq<Byte>)

  datatype State = State(
    phase: Phase,
    queue: nat,
    conns: seq<Conn>,
    popped: seq<Packet>,
    judged: seq<Packet>,
    failed: seq<Packet>)

  const INITIAL := State(NeedQueue, 0, [], [], [], [])

  predicate Current(s: State, conn: nat) {
    s.conns != [] && s.conns[|s.conns| - 1].id == conn
  }

  function Write(s: State, chunk: seq<Byte>): State
    requires s.conns != []
  {
    var last := |s.conns| - 1;
    s.(conns := s.conns[last := s.conns[last].(bytes := s.conns[last].bytes + chunk)])
  }

  function Next(s: State, e: Event): Option<State> {
    match e
    case QueueOpened(q) =>
      if s.phase.NeedQueue?
      then Some(s.(queue := q, phase := if s.conns == [] then NeedVsock else Outer))
      else None
    case VsockOpened(c) =>
      if s.phase.NeedVsock?
      then Some(s.(conns := s.conns + [Conn(c, |s.popped|, [])], phase := Outer))
      else None
    case OpenFailed =>
      if s.phase.NeedQueue? || s.phase.NeedVsock? then Some(s.(phase := Done(false))) else None
    case Popped(q, msg) =>
      if s.phase.Receiving? && q == s.queue
      then Some(s.(popped := s.popped + [msg],
                   phase := if msg == [] then Judging(msg) else Sending(msg, 0)))
      else None
    case Overflowed(q) =>
      if s.phase.Receiving? && q == s.queue then Some(s.(phase := Inner)) else None
    case PopFailed(q) =>
      if s.phase.Receiving? && q == s.queue then Some(s.(phase := NeedQueue)) else None
    case Sent(c, chunk) =>
      if s.phase.Sending? && Current(s, c)
         && s.phase.sent + |chunk| <= |s.phase.msg|
         && chunk == s.phase.msg[s.phase.sent..s.phase.sent + |chunk|]
      then
        var sent := s.phase.sent + |chunk|;
        if chunk == [] then Some(s.(phase := NeedVsock, failed := s.failed + [s.phase.msg]))
        else Some(Write(s, chunk).(phase :=
                    if sent == |s.phase.msg| then Judging(s.phase.msg) else Sending(s.phase.msg, sent)))
      else None
    case SendFailed(c) =>
      if s.phase.Sending? && Current(s, c)
      then Some(s.(phase := NeedVsock, failed := s.failed + [s.phase.msg]))
      else None
    case Judged(q, msg, verdict, ok) =>
      if s.phase == Judging(msg) && q == s.queue && verdict == Drop
      then Some(s.(judged := s.judged + [msg], phase := if ok then Inner else NeedQueue))
      else None
    case Polled(unset) =>
      if s.phase.Outer? then Some(s.(phase := if unset then Inner else Done(true)))
      else if s.phase.Inner? then Some(s.(phase := if unset then Receiving else Done(true)))
      else None
  }

  /** The state after a log of events, if the sender can produce that log. */
  function After(log: seq<Event>): Option<State> {
    if log == [] then Some(INITIAL)
    else
      match After(log[..|log| - 1])
      case None => None
      case Some(s) => Next(s, log[|log| - 1])
  }

  lemma AfterSnoc(log: seq<Event>, e: Event)
    ensures After(log + [e]) == if After(log).Some? then Next(After(log).value, e) else None
  {
    assert (log + [e])[..|log|] == log;
  }

  lemma AfterOne(e: Event)
    ensures After([e]) == Next(INITIAL, e)
  {
    assert [e][..0] == [];
  }

  lemma AfterTwo(e: Event, f: Event)
    ensures After([e, f]) == if Next(INITIAL, e).Some? then Next(Next(INITIAL, e).value, f) else None
  {
    assert [e, f][..1] == [e];
    AfterOne(e);
  }

  // What every log keeps

  /** The messages popped while connection `i` was the current one. */
  function Carried(s: State, i: nat): seq<Packet>
    requires i < |s.conns|
    requires forall j :: 0 <= j < |s.conns| ==> s.conns[j].first <= |s.popped|
    requires forall j :: 0 <= j < |s.conns| - 1 ==> s.conns[j].first <= s.conns[j + 1].first
  {
    s.popped[s.conns[i].first..if i + 1 < |s.conns| then s.conns[i + 1].first else |s.popped|]
  }

  /** Whole packets only. */
  predicate Aligned(bytes: seq<Byte>, ps: seq<Packet>) {
    bytes == Flatten(ps)
  }

  /** All packets but the last are whole; of the last there is a proper prefix. */
  predicate Torn(bytes: seq<Byte>, ps: seq<Packet>) {
    && ps != []
    && Flatten(ps[..|ps| - 1]) <= bytes
    && bytes < Flatten(ps)
  }

  predicate Ordered(s: State) {
    && (forall i :: 0 <= i < |s.conns| ==> s.conns[i].first <= |s.popped|)
    && (forall i :: 0 <= i < |s.conns| - 1 ==> s.conns[i].first < s.conns[i + 1].first)
    && (!s.phase.NeedQueue? && !s.phase.NeedVsock? && !s.phase.Done? ==> s.conns != [])
    && (s.phase.Sending? || s.phase.Judging? ==>
          s.popped != [] && s.phase.msg == s.popped[|s.popped| - 1]
          && s.conns[|s.conns| - 1].first < |s.popped|)
    && (s.phase.Sending? ==> s.phase.sent < |s.phase.msg|)
    && (s.phase.NeedVsock? && s.conns != [] ==> s.conns[|s.conns| - 1].first < |s.popped|)
  }

  /** How far the bytes of the newest connection have got. */
  predicate NewestStream(phase: Phase, bytes: seq<Byte>, ps: seq<Packet>) {
    match phase
    case Sending(msg, sent) =>
      Torn(bytes, ps) && sent <= |msg| && bytes == Flatten(ps[..|ps| - 1]) + msg[..sent]
    case NeedVsock => Torn(bytes, ps)
    case Done(clean) => Aligned(bytes, ps) || (!clean && Torn(bytes, ps))
    case _ => Aligned(bytes, ps)
  }

  predicate NewestInv(s: State)
    requires Ordered(s)
  {
    s.conns != [] ==>
      NewestStream(s.phase, s.conns[|s.conns| - 1].bytes, Carried(s, |s.conns| - 1))
  }

  predicate StreamsInv(s: State) {
    && Ordered(s)
    && (forall i :: 0 <= i < |s.conns| - 1 ==> Torn(s.conns[i].bytes, Carried(s, i)))
    && NewestInv(s)
  }

  lemma SentKeepsOrdered(s: State, e: Event)
    requires Ordered(s) && e.Sent? && Next(s, e).Some?
    ensures Ordered(Next(s, e).value)
  {
  }

  lemma OpenKeepsOrdered(s: State, e: Event)
    requires Ordered(s) && e.VsockOpened? && Next(s, e).Some?
    ensures Ordered(Next(s, e).value)
  {
  }

  lemma NextKeepsOrdered(s: State, e: Event)
    requires Ordered(s) && Next(s, e).Some?
    ensures Ordered(Next(s, e).value)
  {
    if e.Sent? {
      SentKeepsOrdered(s, e);
    } else if e.VsockOpened? {
      OpenKeepsOrdered(s, e);
    } else {
      assert Next(s, e).value.conns == s.conns;
    }
  }

  lemma PoppedFitsNowhereElse(s: State, e: Event, i: nat)
    requires Ordered(s) && Next(s, e).Some?
    requires i < |s.conns| - 1
    ensures Ordered(Next(s, e).value)
    ensures Next(s, e).value.conns[i] == s.conns[i]
    ensures Carried(Next(s, e).value, i) == Carried(s, i)
  {
    NextKeepsOrdered(s, e);
  }

  lemma FlattenLast(ps: seq<Packet>)
    requires ps != []
    ensures Flatten(ps) == Flatten(ps[..|ps| - 1]) + ps[|ps| - 1]
  {
    FlattenSnoc(ps[..|ps| - 1], ps[|ps| - 1]);
    assert ps[..|ps| - 1] + [ps[|ps| - 1]] == ps;
  }

  /** A popped message adds nothing to the stream yet. */
  lemma PoppedStream(bytes: seq<Byte>, ps: seq<Packet>, msg: Packet)
    requires Aligned(bytes, ps)
    ensures NewestStream(if msg == [] then Judging(msg) else Sending(msg, 0), bytes, ps + [msg])
  {
    FlattenSnoc(ps, msg);
    assert (ps + [msg])[..|ps|] == ps;
  }

  /** Accepted bytes bring the stream nearer to the end of the message. */
  lemma SentStream(bytes: seq<Byte>, ps: seq<Packet>, sent: nat, n: nat)
    requires ps != [] && sent + n <= |ps[|ps| - 1]|
    requires NewestStream(Sending(ps[|ps| - 1], sent), bytes, ps)
    ensures
      var msg := ps[|ps| - 1];
      NewestStream(if sent + n == |msg| then Judging(msg) else Sending(msg, sent + n),
                   bytes + msg[sent..sent + n], ps)
  {
    var msg := ps[|ps| - 1];
    FlattenLast(ps);
    assert msg[..sent] + msg[sent..sent + n] == msg[..sent + n];
    Associative(Flatten(ps[..|ps| - 1]), msg[..sent], msg[sent..sent + n]);
    if sent + n == |msg| {
      assert msg[..sent + n] == msg;
    }
  }

  /** When a connection is opened, the one before it is complete in the log. */
  lemma OpenRetires(s: State, e: Event)
    requires StreamsInv(s) && e.VsockOpened? && Next(s, e).Some? && s.conns != []
    ensures
      var s', i := Next(s, e).value, |s.conns| - 1;
      Ordered(s') && s'.conns[i] == s.conns[i] && Carried(s', i) == Carried(s, i)
      && Torn(s'.conns[i].bytes, Carried(s', i))
  {
    OpenKeepsOrdered(s, e);
  }

  lemma NextKeepsOlder(s: State, e: Event)
    requires StreamsInv(s) && Next(s, e).Some?
    ensures
      var s' := Next(s, e).value;
      Ordered(s') && forall i :: 0 <= i < |s'.conns| - 1 ==> Torn(s'.conns[i].bytes, Carried(s', i))
  {
    var s' := Next(s, e).value;
    NextKeepsOrdered(s, e);
    forall i: nat | i < |s'.conns| - 1 ensures Torn(s'.conns[i].bytes, Carried(s', i)) {
      if i < |s.conns| - 1 {
        PoppedFitsNowhereElse(s, e, i);
      } else {
        assert e.VsockOpened? && i == |s.conns| - 1;
        OpenRetires(s, e);
      }
    }
  }

  lemma PopKeepsNewest(s: State, e: Event)
    requires StreamsInv(s) && e.Popped? && Next(s, e).Some?
    ensures Ordered(Next(s, e).value) && NewestInv(Next(s, e).value)
  {
    var last := |s.conns| - 1;
    NextKeepsOrdered(s, e);
    assert Carried(Next(s, e).value, last) == Carried(s, last) + [e.msg];
    PoppedStream(s.conns[last].bytes, Carried(s, last), e.msg);
  }

  lemma SentWrites(s: State, e: Event)
    requires Ordered(s) && e.Sent? && Next(s, e).Some?
    ensures
      var s', last := Next(s, e).value, |s.conns| - 1;
      && Ordered(s') && last >= 0 && |s'.conns| == last + 1
      && s'.conns[last].bytes == s.conns[last].bytes + e.chunk
      && Carried(s', last) == Carried(s, last)
      && Carried(s, last) != [] && Carried(s, last)[|Carried(s, last)| - 1] == s.phase.msg
      && s'.phase == if e.chunk == [] then NeedVsock
                     else if s.phase.sent + |e.chunk| == |s.phase.msg| then Judging(s.phase.msg)
                     else Sending(s.phase.msg, s.phase.sent + |e.chunk|)
  {
    SentKeepsOrdered(s, e);
  }

  lemma SentKeepsNewest(s: State, e: Event)
    requires StreamsInv(s) && e.Sent? && Next(s, e).Some?
    ensures Ordered(Next(s, e).value) && NewestInv(Next(s, e).value)
  {
    var last := |s.conns| - 1;
    SentWrites(s, e);
    assert e.chunk == s.phase.msg[s.phase.sent..s.phase.sent + |e.chunk|];
    if e.chunk == [] {
      assert s.conns[last].bytes + e.chunk == s.conns[last].bytes;
    } else {
      SentStream(s.conns[last].bytes, Carried(s, last), s.phase.sent, |e.chunk|);
    }
  }

  lemma OpenKeepsNewest(s: State, e: Event)
    requires StreamsInv(s) && e.VsockOpened? && Next(s, e).Some?
    ensures Ordered(Next(s, e).value) && NewestInv(Next(s, e).value)
  {
    OpenKeepsOrdered(s, e);
    var s' := Next(s, e).value;
    assert Carried(s', |s.conns|) == [];
  }

  predicate AtRest(p: Phase) {
    !p.Sending? && !p.NeedVsock? && !p.Done?
  }

  /** Phases that follow each other while nothing is popped, written or opened. */
  predicate Follows(p: Phase, p': Phase) {
    || (AtRest(p) && (AtRest(p') || p'.Done?))
    || (p.Sending? && p'.NeedVsock?)
    || (p.NeedVsock? && p' == Done(false))
  }

  lemma FollowsKeepsNewest(p: Phase, p': Phase, bytes: seq<Byte>, ps: seq<Packet>)
    requires NewestStream(p, bytes, ps) && Follows(p, p')
    ensures NewestStream(p', bytes, ps)
  {
  }

  lemma OtherChanges(s: State, e: Event)
    requires !e.Popped? && !e.Sent? && !e.VsockOpened? && Next(s, e).Some?
    ensures
      var s' := Next(s, e).value;
      s'.conns == s.conns && s'.popped == s.popped && (s.conns != [] ==> Follows(s.phase, s'.phase))
  {
  }

  lemma CarriedAgrees(s: State, s': State, i: nat)
    requires Ordered(s) && Ordered(s') && s'.conns == s.conns && s'.popped == s.popped && i < |s.conns|
    ensures Carried(s', i) == Carried(s, i)
  {
  }

  lemma OtherKeepsNewest(s: State, e: Event)
    requires StreamsInv(s) && !e.Popped? && !e.Sent? && !e.VsockOpened? && Next(s, e).Some?
    ensures Ordered(Next(s, e).value) && NewestInv(Next(s, e).value)
  {
    var s' := Next(s, e).value;
    NextKeepsOrdered(s, e);
    OtherChanges(s, e);
    if s.conns != [] {
      var last := |s.conns| - 1;
      CarriedAgrees(s, s', last);
      FollowsKeepsNewest(s.phase, s'.phase, s.conns[last].bytes, Carried(s, last));
    }
  }

  lemma NextKeepsStreams(s: State, e: Event)
    requires StreamsInv(s) && Next(s, e).Some?
    ensures StreamsInv(Next(s, e).value)
  {
    NextKeepsOlder(s, e);
    if e.Popped? {
      PopKeepsNewest(s, e);
    } else if e.Sent? {
      SentKeepsNewest(s, e);
    } else if e.VsockOpened? {
      OpenKeepsNewest(s, e);
    } else {
      OtherKeepsNewest(s, e);
    }
  }

  /** In every log, a connection has taken whole packets and at most one proper prefix. */
  lemma {:induction false} StreamsAlways(log: seq<Event>)
    requires After(log).Some?
    ensures StreamsInv(After(log).value)
  {
    if log != [] {
      StreamsAlways(log[..|log| - 1]);
      NextKeepsStreams(After(log[..|log| - 1]).value, log[|log| - 1]);
    }
  }

  /** A connection carries a prefix of what was popped for it. */
  lemma StreamIsPrefix(s: State, i: nat)
    requires StreamsInv(s) && i < |s.conns|
    ensures s.conns[i].bytes <= Flatten(Carried(s, i))
  {
  }

  lemma {:induction false} FirstsIncrease(s: State, i: nat, j: nat)
    requires Ordered(s) && i < j < |s.conns|
    ensures s.conns[i + 1].first <= s.conns[j].first
  {
    if i + 1 < j {
      FirstsIncrease(s, i, j - 1);
    }
  }

  lemma LaterStartsBeyond(s: State, i: nat, j: nat)
    requires Ordered(s) && i < j < |s.conns|
    ensures s.conns[i].first + |Carried(s, i)| <= s.conns[j].first <= |s.popped|
  {
    FirstsIncrease(s, i, j);
  }

  lemma NextGrows(s: State, e: Event)
    requires Next(s, e).Some?
    ensures
      var s' := Next(s, e).value;
      && s.popped <= s'.popped
      && |s.conns| <= |s'.conns|
      && forall i :: 0 <= i < |s.conns| ==>
           s.conns[i].first == s'.conns[i].first && s.conns[i].bytes <= s'.conns[i].bytes
  {
  }

  lemma NextPops(s: State, e: Event)
    requires Next(s, e).Some?
    ensures Next(s, e).value.popped == s.popped + (if e.Popped? then [e.msg] else [])
  {
  }

  /** The message that is popped but neither judged nor lost yet. */
  function InHand(s: State): Option<Packet> {
    if s.phase.Sending? || s.phase.Judging? then Some(s.phase.msg) else None
  }

  predicate Balance(popped: seq<Packet>, judged: seq<Packet>, failed: seq<Packet>, hand: Option<Packet>) {
    && multiset(popped) == multiset(judged) + multiset(failed)
                           + (if hand.Some? then multiset{hand.value} else multiset{})
    && |popped| == |judged| + |failed| + (if hand.Some? then 1 else 0)
  }

  lemma BalancePop(popped: seq<Packet>, judged: seq<Packet>, failed: seq<Packet>, msg: Packet)
    requires Balance(popped, judged, failed, None)
    ensures Balance(popped + [msg], judged, failed, Some(msg))
  {
  }

  lemma BalanceSettle(popped: seq<Packet>, judged: seq<Packet>, failed: seq<Packet>, msg: Packet)
    requires Balance(popped, judged, failed, Some(msg))
    ensures Balance(popped, judged + [msg], failed, None)
    ensures Balance(popped, judged, failed + [msg], None)
  {
  }

  /** Every popped message was judged once, or lost in one send failure, or is in hand. */
  predicate Balanced(s: State) {
    Balance(s.popped, s.judged, s.failed, InHand(s))
  }

  /** The four ways in which a step may move messages. */
  predicate Moved(s: State, s': State) {
    || (s'.popped == s.popped && s'.judged == s.judged && s'.failed == s.failed && InHand(s') == InHand(s))
    || (InHand(s).None? && InHand(s').Some? && s'.popped == s.popped + [InHand(s').value]
        && s'.judged == s.judged && s'.failed == s.failed)
    || (InHand(s).Some? && InHand(s').None? && s'.popped == s.popped
        && s'.judged == s.judged + [InHand(s).value] && s'.failed == s.failed)
    || (InHand(s).Some? && InHand(s').None? && s'.popped == s.popped
        && s'.judged == s.judged && s'.failed == s.failed + [InHand(s).value])
  }

  lemma NextMoves(s: State, e: Event)
    requires Next(s, e).Some?
    ensures Moved(s, Next(s, e).value)
  {
  }

  lemma MovesKeepBalance(s: State, s': State)
    requires Balanced(s) && Moved(s, s')
    ensures Balanced(s')
  {
    if s'.popped != s.popped {
      BalancePop(s.popped, s.judged, s.failed, InHand(s').value);
    } else if InHand(s).Some? {
      BalanceSettle(s.popped, s.judged, s.failed, InHand(s).value);
    }
  }

  /** The newest connection may still be written. */
  predicate Open(s: State) {
    s.conns != [] && !s.phase.NeedVsock? && !(s.phase.Done? && |s.failed| == |s.conns|)
  }

  /** How many messages were popped before connection `i` was given up. */
  function End(conns: seq<Conn>, popped: seq<Packet>, i: nat): nat {
    if i + 1 < |conns| then conns[i + 1].first else |popped|
  }

  predicate IsLoss(msg: Packet, popped: seq<Packet>, end: nat) {
    0 < end <= |popped| && msg == popped[end - 1]
  }

  /** The lost messages are those that the given up connections hold a proper prefix of. */
  predicate Losses(conns: seq<Conn>, popped: seq<Packet>, failed: seq<Packet>, open: bool) {
    && |failed| + (if open then 1 else 0) == |conns|
    && forall i :: 0 <= i < |failed| ==> IsLoss(failed[i], popped, End(conns, popped, i))
  }

  predicate LossesInv(s: State) {
    && Ordered(s)
    && Losses(s.conns, s.popped, s.failed, Open(s))
  }

  lemma LossesOpen(s: State, id: nat)
    requires Losses(s.conns, s.popped, s.failed, false)
    ensures Losses(s.conns + [Conn(id, |s.popped|, [])], s.popped, s.failed, true)
  {
    var conns := s.conns + [Conn(id, |s.popped|, [])];
    forall i | 0 <= i < |s.failed| ensures End(conns, s.popped, i) == End(s.conns, s.popped, i) {
      assert i + 1 < |s.conns| ==> conns[i + 1] == s.conns[i + 1];
    }
  }

  lemma LossesWrite(s: State, chunk: seq<Byte>)
    requires s.conns != [] && Losses(s.conns, s.popped, s.failed, true)
    ensures Losses(Write(s, chunk).conns, s.popped, s.failed, true)
  {
  }

  lemma NextKeepsLosses(s: State, e: Event)
    requires LossesInv(s) && Next(s, e).Some?
    ensures LossesInv(Next(s, e).value)
  {
    var s' := Next(s, e).value;
    NextKeepsOrdered(s, e);
    if e.VsockOpened? {
      LossesOpen(s, e.conn);
    } else if e.Sent? && e.chunk != [] {
      LossesWrite(s, e.chunk);
      assert Open(s) && Open(s');
    } else {
      assert s'.conns == s.conns;
      assert s'.failed == s.failed ==> Open(s') == Open(s);
    }
  }

  lemma {:induction false} AccountsAlways(log: seq<Event>)
    requires After(log).Some?
    ensures Balanced(After(log).value) && LossesInv(After(log).value)
  {
    if log != [] {
      AccountsAlways(log[..|log| - 1]);
      NextMoves(After(log[..|log| - 1]).value, log[|log| - 1]);
      MovesKeepBalance(After(log[..|log| - 1]).value, After(log).value);
      NextKeepsLosses(After(log[..|log| - 1]).value, log[|log| - 1]);
    }
  }

  /** The connections that can take no more bytes in state `s`. */
  function Closed(s: State): seq<Conn> {
    if s.conns == [] || s.phase.NeedVsock? || s.phase.Done? then s.conns
    else s.conns[..|s.conns| - 1]
  }

  lemma NextKeepsClosed(s: State, e: Event)
    requires Next(s, e).Some?
    ensures Closed(s) <= Closed(Next(s, e).value)
    ensures s.popped <= Next(s, e).value.popped
  {
  }

  /** A connection that a failure left torn is never written again. */
  lemma {:induction false} ClosedStaysClosed(log: seq<Event>, more: seq<Event>)
    requires After(log).Some? && After(log + more).Some?
    ensures Closed(After(log).value) <= Closed(After(log + more).value)
    ensures After(log).value.popped <= After(log + more).value.popped
    decreases |more|
  {
    if more == [] {
      assert log + more == log;
    } else {
      var before := log + more[..|more| - 1];
      assert (log + more)[..|log + more| - 1] == before;
      ClosedStaysClosed(log, more[..|more| - 1]);
      NextKeepsClosed(After(before).value, (log + more)[|log + more| - 1]);
    }
  }

  // Which resource is used, and when

  lemma OrderedAlways(log: seq<Event>)
    requires After(log).Some?
    ensures Ordered(After(log).value)
  {
    StreamsAlways(log);
  }

  /** The queue that was opened last. */
  function LastQueue(log: seq<Event>): Option<nat> {
    if log == [] then None
    else if log[|log| - 1].QueueOpened? then Some(log[|log| - 1].queue)
    else LastQueue(log[..|log| - 1])
  }

  /** The connection that was opened last. */
  function LastConn(log: seq<Event>): Option<nat> {
    if log == [] then None
    else if log[|log| - 1].VsockOpened? then Some(log[|log| - 1].conn)
    else LastConn(log[..|log| - 1])
  }

  predicate Handles(s: State, queue: Option<nat>, conn: Option<nat>) {
    && (if s.conns == [] then conn == None else conn == Some(s.conns[|s.conns| - 1].id))
    && (if s == INITIAL then queue == None
        else queue == Some(s.queue) || (queue == None && s.phase == Done(false) && s.conns == []))
    && (s.phase.NeedQueue? && s.conns == [] ==> s == INITIAL)
  }

  lemma NextHandles(s: State, e: Event, queue: Option<nat>, conn: Option<nat>)
    requires Ordered(s) && Handles(s, queue, conn) && Next(s, e).Some?
    ensures Handles(Next(s, e).value,
                    if e.QueueOpened? then Some(e.queue) else queue,
                    if e.VsockOpened? then Some(e.conn) else conn)
  {
  }

  lemma {:induction false} HandlesAlways(log: seq<Event>)
    requires After(log).Some?
    ensures Handles(After(log).value, LastQueue(log), LastConn(log))
  {
    if log != [] {
      var before := log[..|log| - 1];
      HandlesAlways(before);
      OrderedAlways(before);
      NextHandles(After(before).value, log[|log| - 1], LastQueue(before), LastConn(before));
    }
  }

  /** Every call is made on the resource that was opened last. */
  lemma CallsUseNewest(log: seq<Event>, e: Event)
    requires After(log + [e]).Some?
    ensures e.Popped? || e.Overflowed? || e.PopFailed? || e.Judged? ==> LastQueue(log) == Some(e.queue)
    ensures e.Sent? || e.SendFailed? ==> LastConn(log) == Some(e.conn)
  {
    AfterSnoc(log, e);
    HandlesAlways(log);
    OrderedAlways(log);
  }

  /** The newest connection holds whole packets, the last of which is this message. */
  predicate FullySent(s: State, msg: Packet) {
    && StreamsInv(s)
    && s.conns != []
    && var sent := Carried(s, |s.conns| - 1);
    && Aligned(s.conns[|s.conns| - 1].bytes, sent)
    && sent != []
    && sent[|sent| - 1] == msg
  }

  lemma JudgingIsFullySent(s: State)
    requires StreamsInv(s) && s.phase.Judging?
    ensures FullySent(s, s.phase.msg)
  {
  }

  /** A verdict is to drop a message, once all of it has been sent. */
  lemma VerdictAfterSending(log: seq<Event>, e: Event)
    requires After(log + [e]).Some? && e.Judged?
    ensures e.verdict == Drop
    ensures After(log).Some? && FullySent(After(log).value, e.msg)
  {
    AfterSnoc(log, e);
    StreamsAlways(log);
    JudgingIsFullySent(After(log).value);
  }
}
