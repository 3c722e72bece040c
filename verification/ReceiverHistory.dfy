/**
 The receiver's protocol told without its state: which events may follow a log is a
 matter of the last events in it, of the resources opened last, and of the packets that
 the bytes read of the connection are cut into.
 */
module ReceiverHistory {
  import opened Wrappers
  import opened Octets
  import opened Ipv4
  import opened ReceiverProtocol

  // What a log tells

  /** What has been read of the connection opened last. */
  function ReadOf(log: seq<Event>): seq<Byte> {
    if log == [] then []
    else
      match log[|log| - 1]
      case Accepted(_) => []
      case Got(_, chunk) => ReadOf(log[..|log| - 1]) + chunk
      case _ => ReadOf(log[..|log| - 1])
  }

  /** What has been pushed since the last read. */
  function PushedOf(log: seq<Event>): seq<Byte> {
    if log == [] then []
    else
      match log[|log| - 1]
      case Got(_, _) => []
      case Pushed(_, chunk) => PushedOf(log[..|log| - 1]) + chunk
      case _ => PushedOf(log[..|log| - 1])
  }

  /**
   What matters of a log: its length, its last event, whether the one before opened a
   resource, the packets of the connection and what has been pushed of the last of them.
   */
  datatype View = View(size: nat, last: Option<Event>, afterOpening: bool, cut: Cut, pushed: seq<Byte>)

  function ViewOf(log: seq<Event>): View {
    View(|log|,
         if log == [] then None else Some(log[|log| - 1]),
         |log| > 1 && Opens(log[|log| - 2]),
         Deframe(ReadOf(log)),
         PushedOf(log))
  }

  predicate Opens(e: Event) {
    e.Accepted? || e.TcpOpened? || e.UdpOpened?
  }

  predicate LastOpens(v: View) {
    v.last.Some? && Opens(v.last.value)
  }

  /** The last event is a failure of the connection, or the end of its stream. */
  predicate VsockFailed(v: View) {
    v.last.Some? && (v.last.value.GetFailed? || (v.last.value.Got? && v.last.value.chunk == []))
  }

  /** The bytes read end with a whole packet of this protocol. */
  predicate EndsWith(cut: Cut, protocol: Byte) {
    && cut.rest == []
    && cut.packets != []
    && |cut.packets[|cut.packets| - 1]| >= HEADER_LEN
    && cut.packets[|cut.packets| - 1][9] == protocol
  }

  predicate SinkFailed(v: View, protocol: Byte) {
    && v.last.Some?
    && (v.last.value.PushFailed? || (v.last.value.Pushed? && v.last.value.chunk == []))
    && EndsWith(v.cut, protocol)
  }

  /** The connection has been accepted, and nothing else; or the TCP sink been opened, too. */
  predicate HasVsock(v: View) {
    v.size == 1 && v.last.Some? && v.last.value.Accepted?
  }

  predicate HasTcp(v: View) {
    v.size == 2 && v.last.Some? && v.last.value.TcpOpened?
  }

  /** The last event is a read, or a push, that did not fail. */
  predicate JustRead(v: View) {
    v.last.Some? && v.last.value.Got? && v.last.value.chunk != []
  }

  predicate JustPushed(v: View) {
    v.last.Some? && v.last.value.Pushed? && v.last.value.chunk != []
  }

  predicate ReadDue(v: View) {
    || (v.size > 1 && v.last == Some(Polled(true)) && !v.afterOpening)
    || (JustRead(v) && v.cut.rest != [] && Inspect(v.cut.rest).Short?)
  }

  /** There is a packet in hand that has a sink: its protocol is 6 or 17. */
  predicate PushDue(v: View) {
    && (JustRead(v) || JustPushed(v))
    && (EndsWith(v.cut, 6) || EndsWith(v.cut, 17))
    && v.pushed < v.cut.packets[|v.cut.packets| - 1]
  }

  /** The loops look at the token now. */
  predicate PollDue(v: View) {
    || (v.size > 2 && LastOpens(v))
    || (v.size > 2 && v.last == Some(Polled(true)) && v.afterOpening)
    || (JustRead(v) && v.cut.rest == [] && !EndsWith(v.cut, 6) && !EndsWith(v.cut, 17))
    || (JustPushed(v) && v.cut.packets != [] && v.pushed == v.cut.packets[|v.cut.packets| - 1])
  }

  /** How many bytes of the packet that starts with `rest` may be asked for. */
  function Need(rest: seq<Byte>): nat {
    match Inspect(rest)
    case Short(need) => need
    case _ => 0
  }

  /** The protocol in terms of the log; `conn`, `tcp` and `udp` are the resources opened last. */
  predicate Due(v: View, conn: Option<nat>, tcp: Option<nat>, udp: Option<nat>, e: Event) {
    match e
    case Accepted(_) => v.size == 0 || VsockFailed(v)
    case TcpOpened(_) => HasVsock(v) || SinkFailed(v, 6)
    case UdpOpened(_) => HasTcp(v) || SinkFailed(v, 17)
    case OpenFailed =>
      v.size == 0 || VsockFailed(v) || HasVsock(v) || SinkFailed(v, 6) || HasTcp(v) || SinkFailed(v, 17)
    case Polled(_) => PollDue(v)
    case Got(c, chunk) => ReadDue(v) && conn == Some(c) && |chunk| <= Need(v.cut.rest)
    case GetFailed(c) => ReadDue(v) && conn == Some(c)
    case Pushed(k, chunk) =>
      PushDue(v) && Some(k) == (if EndsWith(v.cut, 6) then tcp else udp)
      && v.pushed + chunk <= v.cut.packets[|v.cut.packets| - 1]
    case PushFailed(k) => PushDue(v) && Some(k) == (if EndsWith(v.cut, 6) then tcp else udp)
  }

  predicate Follows(log: seq<Event>, e: Event) {
    Due(ViewOf(log), LastConn(log), LastTcp(log), LastUdp(log), e)
  }

  // The state agrees with it

  /** What a state says of the last events. */
  predicate Told(v: View, s: State) {
    match s.phase
    case NeedVsock => v.size == 0 || VsockFailed(v)
    case NeedTcp => HasVsock(v) || SinkFailed(v, 6)
    case NeedUdp => HasTcp(v) || SinkFailed(v, 17)
    case Outer => v.size > 2 && LastOpens(v)
    case Inner => PollDue(v) && !LastOpens(v)
    case Reading => ReadDue(v)
    case Pushing(pkt, pushed) =>
      PushDue(v) && pkt == v.cut.packets[|v.cut.packets| - 1] && pushed == v.pushed
    case Rejected => JustRead(v) && v.cut.rest != [] && Inspect(v.cut.rest).Invalid?
    case Done(clean) => v.last == Some(if clean then Polled(false) else OpenFailed)
  }

  predicate Begun(v: View, s: State) {
    && (v.size == 0 <==> v.last.None?)
    && (s.phase.Done? || (
          && (s.up <==> v.size > 2)
          && (v.size == 1 ==> HasVsock(v))
          && (v.size == 2 ==> HasTcp(v))))
  }

  predicate Matches(v: View, s: State) {
    v.cut == Cut(s.framed, s.buf) && Begun(v, s) && Told(v, s)
  }

  /** The view after one more event, when the bytes read are cut like this. */
  function Longer(v: View, e: Event, cut: Cut): View {
    View(v.size + 1, Some(e), LastOpens(v), cut,
         if e.Got? then [] else if e.Pushed? then v.pushed + e.chunk else v.pushed)
  }

  lemma HistorySnoc(log: seq<Event>, e: Event)
    ensures PushedOf(log + [e]) == if e.Got? then [] else if e.Pushed? then PushedOf(log) + e.chunk else PushedOf(log)
    ensures |log| > 0 ==> (log + [e])[|log + [e]| - 2] == log[|log| - 1]
  {
    assert (log + [e])[..|log|] == log;
  }

  lemma CutOfState(s: State)
    requires BoundaryInv(s)
    ensures Deframe(s.consumed) == Cut(s.framed, s.buf)
  {
    DeframeFlatten(s.framed, s.buf);
    assert s.framed + [] == s.framed;
  }

  lemma ViewSnoc(log: seq<Event>, e: Event, s: State)
    requires BoundaryInv(s) && s.consumed == ReadOf(log + [e])
    ensures ViewOf(log + [e]) == Longer(ViewOf(log), e, Cut(s.framed, s.buf))
  {
    HistorySnoc(log, e);
    CutOfState(s);
  }

  lemma GotMatches(v: View, s: State, e: Event)
    requires Matches(v, s) && PhaseFits(s) && e.Got? && Next(s, e).Some?
    ensures
      var s' := Next(s, e).value;
      Matches(Longer(v, e, Cut(s'.framed, s'.buf)), s')
  {
  }

  lemma PushFailureMatches(v: View, s: State, e: Event)
    requires Matches(v, s) && PhaseFits(s) && Next(s, e).Some?
    requires e.PushFailed? || (e.Pushed? && e.chunk == [])
    ensures
      var s' := Next(s, e).value;
      Matches(Longer(v, e, Cut(s'.framed, s'.buf)), s')
  {
  }

  lemma PushMatches(v: View, s: State, e: Event)
    requires Matches(v, s) && PhaseFits(s) && Next(s, e).Some?
    requires e.Pushed? && e.chunk != []
    ensures
      var s' := Next(s, e).value;
      Matches(Longer(v, e, Cut(s'.framed, s'.buf)), s')
  {
    var n := |s.phase.pushed| + |e.chunk|;
    assert s.phase.pushed + e.chunk == s.phase.pkt[..n];
  }

  lemma OtherMatches(v: View, s: State, e: Event)
    requires Matches(v, s) && Next(s, e).Some?
    requires !e.Got? && !e.Pushed? && !e.PushFailed?
    ensures
      var s' := Next(s, e).value;
      Matches(Longer(v, e, Cut(s'.framed, s'.buf)), s')
  {
  }

  lemma NextMatches(v: View, s: State, e: Event)
    requires Matches(v, s) && PhaseFits(s) && Next(s, e).Some?
    ensures
      var s' := Next(s, e).value;
      Matches(Longer(v, e, Cut(s'.framed, s'.buf)), s')
  {
    if e.Got? {
      GotMatches(v, s, e);
    } else if e.PushFailed? || (e.Pushed? && e.chunk == []) {
      PushFailureMatches(v, s, e);
    } else if e.Pushed? {
      PushMatches(v, s, e);
    } else {
      OtherMatches(v, s, e);
    }
  }

  lemma {:induction false} ConsumedAlways(log: seq<Event>)
    requires After(log).Some?
    ensures After(log).value.consumed == ReadOf(log)
  {
    if log != [] {
      ConsumedAlways(log[..|log| - 1]);
      NextReads(After(log[..|log| - 1]).value, log[|log| - 1]);
    }
  }

  /** How the view of a log comes from the one before the last event. */
  lemma LastView(log: seq<Event>)
    requires log != [] && After(log).Some?
    ensures
      var before, e, s := log[..|log| - 1], log[|log| - 1], After(log).value;
      ViewOf(log) == Longer(ViewOf(before), e, Cut(s.framed, s.buf))
  {
    BoundaryAlways(log);
    ConsumedAlways(log);
    assert log[..|log| - 1] + [log[|log| - 1]] == log;
    ViewSnoc(log[..|log| - 1], log[|log| - 1], After(log).value);
  }

  lemma FitsAlways(log: seq<Event>)
    requires After(log).Some?
    ensures PhaseFits(After(log).value)
  {
    BoundaryAlways(log);
  }

  lemma {:induction false} MatchesAlways(log: seq<Event>)
    requires After(log).Some?
    ensures Matches(ViewOf(log), After(log).value)
  {
    if log != [] {
      var before := log[..|log| - 1];
      MatchesAlways(before);
      FitsAlways(before);
      NextMatches(ViewOf(before), After(before).value, log[|log| - 1]);
      LastView(log);
    }
  }

  lemma ControlFollows(v: View, s: State, c: Option<nat>, t: Option<nat>, u: Option<nat>, e: Event)
    requires Told(v, s) && Begun(v, s)
    requires e.Accepted? || e.TcpOpened? || e.UdpOpened? || e.OpenFailed? || e.Polled?
    ensures Next(s, e).Some? <==> Due(v, c, t, u, e)
  {
  }

  lemma ReadFollows(v: View, s: State, c: Option<nat>, t: Option<nat>, u: Option<nat>, e: Event)
    requires Matches(v, s) && PhaseFits(s) && (e.Got? || e.GetFailed?)
    requires s.phase.Reading? ==> c == Some(s.vsock)
    ensures Next(s, e).Some? <==> Due(v, c, t, u, e)
  {
  }

  lemma PushFollows(v: View, s: State, c: Option<nat>, t: Option<nat>, u: Option<nat>, e: Event)
    requires Matches(v, s) && (e.Pushed? || e.PushFailed?)
    requires s.phase.Pushing? ==> Some(s.tcp) == t && Some(s.udp) == u
    ensures Next(s, e).Some? <==> Due(v, c, t, u, e)
  {
    if s.phase.Pushing? && e.Pushed? {
      PrefixBySlice(s.phase.pkt, s.phase.pushed, e.chunk);
    }
  }

  lemma PrefixBySlice(pkt: seq<Byte>, pushed: seq<Byte>, chunk: seq<Byte>)
    requires pushed <= pkt
    ensures pushed + chunk <= pkt <==>
            |pushed| + |chunk| <= |pkt| && chunk == pkt[|pushed|..|pushed| + |chunk|]
  {
    if |pushed| + |chunk| <= |pkt| {
      assert pkt[..|pushed| + |chunk|] == pushed + pkt[|pushed|..|pushed| + |chunk|];
      assert (pushed + chunk)[|pushed|..] == chunk;
    }
  }

  /** An event can come after a log exactly if the last events of the log call for it. */
  lemma FollowsExactly(log: seq<Event>, e: Event)
    requires After(log).Some?
    ensures After(log + [e]).Some? <==> Follows(log, e)
  {
    AfterSnoc(log, e);
    MatchesAlways(log);
    FitsAlways(log);
    HandlesAlways(log);
    var v, s, c, t, u := ViewOf(log), After(log).value, LastConn(log), LastTcp(log), LastUdp(log);
    if e.Got? || e.GetFailed? {
      ReadFollows(v, s, c, t, u, e);
    } else if e.Pushed? || e.PushFailed? {
      PushFollows(v, s, c, t, u, e);
    } else {
      ControlFollows(v, s, c, t, u, e);
    }
  }

  // What has been delivered

  /** The push that is the last event has completed a packet. */
  predicate Completes(v: View) {
    JustPushed(v) && v.cut.packets != [] && v.pushed == v.cut.packets[|v.cut.packets| - 1]
  }

  /** The packets of which a sink has taken all bytes. */
  function DeliveredIn(log: seq<Event>): seq<Packet> {
    if log == [] then []
    else DeliveredIn(log[..|log| - 1]) + (if Completes(ViewOf(log)) then [PushedOf(log)] else [])
  }

  lemma NextDelivers(v: View, s: State, e: Event)
    requires Matches(v, s) && PhaseFits(s) && Next(s, e).Some?
    ensures
      var s' := Next(s, e).value;
      var v' := Longer(v, e, Cut(s'.framed, s'.buf));
      s'.delivered == s.delivered + (if Completes(v') then [v'.pushed] else [])
  {
    if e.Pushed? && e.chunk != [] {
      PrefixBySlice(s.phase.pkt, s.phase.pushed, e.chunk);
    }
  }

  /** Delivered are the packets that sinks have taken whole, in the order in which they did. */
  lemma {:induction false} DeliveredAlways(log: seq<Event>)
    requires After(log).Some?
    ensures After(log).value.delivered == DeliveredIn(log)
  {
    if log != [] {
      var before := log[..|log| - 1];
      DeliveredAlways(before);
      MatchesAlways(before);
      FitsAlways(before);
      NextDelivers(ViewOf(before), After(before).value, log[|log| - 1]);
      LastView(log);
    }
  }
}
