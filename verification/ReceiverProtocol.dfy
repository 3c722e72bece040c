/**
 What the receiver may do: it cuts the bytes of a vsock connection into packets by
 their IPv4 headers and pushes them to a TCP or a UDP sink. `Next` is one event,
 `After` a whole log of events; the loops that produce such logs are in `VsockToIpv4`.
 */
module ReceiverProtocol {
  import opened Wrappers
  import opened Octets
  import opened Ipv4

  /** What passes between the receiver and its environment. */
  datatype Event =
    | Accepted(conn: nat)
    | TcpOpened(sink: nat)
    | UdpOpened(sink: nat)
    | OpenFailed
    | Polled(unset: bool)
    | Got(conn: nat, chunk: seq<Byte>)    // what `read` returned; nothing is end of stream
    | GetFailed(conn: nat)
    | Pushed(sink: nat, chunk: seq<Byte>) // the bytes that `send_to` accepted, maybe none
    | PushFailed(sink: nat)

  datatype Phase =
    | NeedVsock
    | NeedTcp
    | NeedUdp
    | Outer     // about to poll in `run`
    | Inner     // about to poll in `pump`
    | Reading
    | Pushing(pkt: Packet, pushed: seq<Byte>)
    | Rejected  // "invalid ipv4 packet": `run` returns this error
    | Done(clean: bool)

  /**
   `consumed` are the bytes read from the current connection, `framed` the packets cut
   from them and `buf` the start of the next packet. `delivered` are the packets whose
   sink loop completed, as the sink got them; `lost` those whose sink failed.
   */
  datatype State = State(
    phase: Phase,
    vsock: nat,
    tcp: nat,
    udp: nat,
    up: bool, // all three resources have been opened once
    accepted: nat,
    consumed: seq<Byte>,
    framed: seq<Packet>,
    buf: seq<Byte>,
    delivered: seq<Packet>,
    lost: seq<Packet>)

  const INITIAL := State(NeedVsock, 0, 0, 0, false, 0, [], [], [], [], [])

  /** What follows once `buf` is the start of the current packet. */
  function Advance(s: State, buf: seq<Byte>): State {
    match Inspect(buf)
    case Short(_) => s.(buf := buf, phase := Reading)
    case Invalid => s.(buf := buf, phase := Rejected)
    case Whole(protocol) =>
      s.(buf := [],
         framed := s.framed + [buf],
         phase := if protocol == PROTOCOL_TCP || protocol == PROTOCOL_UDP then Pushing(buf, []) else Inner)
  }

  predicate IsTcp(pkt: Packet) {
    |pkt| >= HEADER_LEN && ProtocolOf(pkt) == PROTOCOL_TCP
  }

  function SinkFor(s: State, pkt: Packet): nat {
    if IsTcp(pkt) then s.tcp else s.udp
  }

  function LoseSink(s: State): State
    requires s.phase.Pushing?
  {
    s.(lost := s.lost + [s.phase.pkt], phase := if IsTcp(s.phase.pkt) then NeedTcp else NeedUdp)
  }

  function Next(s: State, e: Event): Option<State> {
    match e
    case Accepted(c) =>
      if s.phase.NeedVsock?
      then Some(s.(vsock := c, accepted := s.accepted + 1, consumed := [], framed := [], buf := [],
                   phase := if s.up then Outer else NeedTcp))
      else None
    case TcpOpened(k) =>
      if s.phase.NeedTcp? then Some(s.(tcp := k, phase := if s.up then Outer else NeedUdp)) else None
    case UdpOpened(k) =>
      if s.phase.NeedUdp? then Some(s.(udp := k, up := true, phase := Outer)) else None
    case OpenFailed =>
      if s.phase.NeedVsock? || s.phase.NeedTcp? || s.phase.NeedUdp?
      then Some(s.(phase := Done(false)))
      else None
    case Polled(unset) =>
      if s.phase.Outer? then Some(s.(phase := if unset then Inner else Done(true)))
      else if s.phase.Inner? then Some(s.(phase := if unset then Reading else Done(true)))
      else None
    case Got(c, chunk) =>
      if s.phase.Reading? && c == s.vsock && Inspect(s.buf).Short? && |chunk| <= Inspect(s.buf).need
      then
        if chunk == [] then Some(s.(phase := NeedVsock))
        else Some(Advance(s.(consumed := s.consumed + chunk), s.buf + chunk))
      else None
    case GetFailed(c) =>
      if s.phase.Reading? && c == s.vsock then Some(s.(phase := NeedVsock)) else None
    case Pushed(k, chunk) =>
      if s.phase.Pushing? && k == SinkFor(s, s.phase.pkt)
         && |s.phase.pushed| + |chunk| <= |s.phase.pkt|
         && chunk == s.phase.pkt[|s.phase.pushed|..|s.phase.pushed| + |chunk|]
      then
        var pushed := s.phase.pushed + chunk;
        if chunk == [] then Some(LoseSink(s))
        else if |pushed| == |s.phase.pkt| then
          Some(s.(delivered := s.delivered + [pushed], phase := Inner))
        else Some(s.(phase := Pushing(s.phase.pkt, pushed)))
      else None
    case PushFailed(k) =>
      if s.phase.Pushing? && k == SinkFor(s, s.phase.pkt) then Some(LoseSink(s)) else None
  }

  /** The state after a log of events, if the receiver can produce that log. */
  function After(log: seq<Event>): Option<State> {
    if log == [] then Some(INITIAL)
    else
      match After(log[..|log| - 1])
      case None => None
      case Some(s) => Next(s, log[|log| - 1])
  }

  lemma AfterSnoc(log: seq<Event>, e: Event)
    ensures After(log + [e]) == if After(log).Some? then Next(After(log).value, e) else None
  {
    assert (log + [e])[..|log|] == log;
  }

  /** The logs of a receiver that is starting. */
  lemma FirstEvents(v: nat)
    ensures After([OpenFailed]) == Some(INITIAL.(phase := Done(false)))
    ensures After([Accepted(v)]) == Some(INITIAL.(vsock := v, accepted := 1, phase := NeedTcp))
  {
    assert [OpenFailed][..0] == [];
    assert [Accepted(v)][..0] == [];
  }

  // What every log keeps

  /** The bytes read are whole packets and the start of one that is not whole. */
  predicate Framed(consumed: seq<Byte>, framed: seq<Packet>, buf: seq<Byte>) {
    && consumed == Flatten(framed) + buf
    && AllWellFormed(framed)
    && !Inspect(buf).Whole?
  }

  /** Whether the receiver is in the middle of a packet in this phase. */
  predicate PhaseFits(s: State) {
    match s.phase
    case Reading => Inspect(s.buf).Short?
    case NeedVsock => Inspect(s.buf).Short?
    case Rejected => Inspect(s.buf).Invalid?
    case Done(_) => Inspect(s.buf).Short?
    case Pushing(pkt, pushed) =>
      && s.buf == [] && s.framed != [] && s.framed[|s.framed| - 1] == pkt
      && WellFormed(pkt) && Forwardable(pkt)
      && pushed < pkt
    case _ => s.buf == []
  }

  predicate BoundaryInv(s: State) {
    Framed(s.consumed, s.framed, s.buf) && PhaseFits(s)
  }

  /** Bytes that were asked for extend the current packet and no more. */
  lemma FramedGrows(consumed: seq<Byte>, framed: seq<Packet>, buf: seq<Byte>, chunk: seq<Byte>)
    requires Framed(consumed, framed, buf) && Inspect(buf).Short? && 0 < |chunk| <= Inspect(buf).need
    ensures consumed + chunk == Flatten(framed) + (buf + chunk)
    ensures Inspect(buf + chunk).Whole? ==>
              WellFormed(buf + chunk)
              && Inspect(buf + chunk).protocol == ProtocolOf(buf + chunk)
              && Framed(consumed + chunk, framed + [buf + chunk], [])
  {
    Associative(Flatten(framed), buf, chunk);
    var whole := buf + chunk;
    if Inspect(whole).Whole? {
      if |buf| >= HEADER_LEN {
        assert whole[..HEADER_LEN] == buf[..HEADER_LEN];
      }
      assert whole[..PacketSize(whole)] == whole;
      FlattenSnoc(framed, whole);
    }
  }

  /** A read that falls short of the need leaves the rest of the need. */
  lemma ShortShrinks(buf: seq<Byte>, chunk: seq<Byte>)
    requires Inspect(buf).Short? && |chunk| <= Inspect(buf).need
    ensures |chunk| < Inspect(buf).need ==> Inspect(buf + chunk) == Short(Inspect(buf).need - |chunk|)
  {
    if |buf| >= HEADER_LEN {
      assert (buf + chunk)[..HEADER_LEN] == buf[..HEADER_LEN];
    }
  }

  lemma GotKeepsBoundary(s: State, e: Event)
    requires BoundaryInv(s) && e.Got? && Next(s, e).Some?
    ensures BoundaryInv(Next(s, e).value)
  {
    if e.chunk != [] {
      FramedGrows(s.consumed, s.framed, s.buf, e.chunk);
    }
  }

  lemma AcceptKeepsBoundary(s: State, e: Event)
    requires BoundaryInv(s) && e.Accepted? && Next(s, e).Some?
    ensures BoundaryInv(Next(s, e).value)
  {
    assert Flatten<Byte>([]) == [];
  }

  lemma PushKeepsBoundary(s: State, e: Event)
    requires BoundaryInv(s) && e.Pushed? && Next(s, e).Some?
    ensures BoundaryInv(Next(s, e).value)
  {
  }

  lemma NextKeepsBoundary(s: State, e: Event)
    requires BoundaryInv(s) && Next(s, e).Some?
    ensures BoundaryInv(Next(s, e).value)
  {
    if e.Got? {
      GotKeepsBoundary(s, e);
    } else if e.Accepted? {
      AcceptKeepsBoundary(s, e);
    } else if e.Pushed? {
      PushKeepsBoundary(s, e);
    } else {
      var s' := Next(s, e).value;
      assert s'.consumed == s.consumed && s'.framed == s.framed && s'.buf == s.buf;
    }
  }

  lemma {:induction false} BoundaryAlways(log: seq<Event>)
    requires After(log).Some?
    ensures BoundaryInv(After(log).value)
  {
    if log != [] {
      BoundaryAlways(log[..|log| - 1]);
      NextKeepsBoundary(After(log[..|log| - 1]).value, log[|log| - 1]);
    }
  }

  /**
   The packets cut from a connection depend on its bytes alone, however they were split
   into reads.
   */
  lemma SplittingIsImmaterial(log: seq<Event>)
    requires After(log).Some?
    ensures
      var s := After(log).value;
      Deframe(s.consumed) == Cut(s.framed, s.buf)
  {
    var s := After(log).value;
    BoundaryAlways(log);
    DeframeFlatten(s.framed, s.buf);
    assert s.framed + [] == s.framed;
  }

  /** A retained connection is always re-entered at a packet boundary. */
  lemma RetainedAtBoundary(log: seq<Event>)
    requires After(log).Some?
    requires
      var phase := After(log).value.phase;
      phase.NeedTcp? || phase.NeedUdp? || phase.Outer? || phase.Inner? || phase.Pushing?
    ensures After(log).value.consumed == Flatten(After(log).value.framed)
  {
    BoundaryAlways(log);
    assert After(log).value.consumed == Flatten(After(log).value.framed) + [];
  }

  /** How a step changes the bytes read, the packets cut and the packets delivered. */
  lemma NextReads(s: State, e: Event)
    requires Next(s, e).Some?
    ensures
      var s' := Next(s, e).value;
      s'.consumed == if e.Got? then s.consumed + e.chunk else if e.Accepted? then [] else s.consumed
  {
  }

  lemma NextCuts(s: State, e: Event)
    requires Next(s, e).Some? && !e.Accepted?
    ensures
      var s' := Next(s, e).value;
      || s'.framed == s.framed
      || (s.phase.Reading? && |s'.framed| == |s.framed| + 1)
  {
  }

  lemma NextDelivers(s: State, e: Event)
    requires BoundaryInv(s) && Next(s, e).Some?
    ensures
      var s' := Next(s, e).value;
      || (s'.delivered == s.delivered && (s.phase.Pushing? ==> s'.framed == s.framed)
          && (e.Pushed? && e.chunk != [] ==> s'.phase.Pushing?))
      || (s.phase.Pushing? && !s'.phase.Pushing? && s'.framed == s.framed
          && s'.delivered == s.delivered + [s.phase.pkt])
  {
    if e.Pushed? {
      var n := |s.phase.pushed| + |e.chunk|;
      assert s.phase.pushed + e.chunk == s.phase.pkt[..n];
      assert n == |s.phase.pkt| ==> s.phase.pkt[..n] == s.phase.pkt;
    }
  }

  /** The event is an error or the end of the stream. */
  predicate IsFault(e: Event) {
    e.GetFailed? || e.PushFailed? || ((e.Got? || e.Pushed?) && e.chunk == [])
  }

  /** The packets cut from the current connection that are no longer being pushed. */
  function Finished(s: State): seq<Packet> {
    if s.phase.Pushing? && s.framed != [] then s.framed[..|s.framed| - 1] else s.framed
  }

  predicate NothingLost(s: State) {
    && BoundaryInv(s)
    && AllWellFormed(Finished(s))
    && s.delivered == Supported(Finished(s))
    && (s.phase.NeedVsock? ==> s.framed == [])
  }

  lemma SupportedSnoc(ps: seq<Packet>, p: Packet)
    requires AllWellFormed(ps) && WellFormed(p)
    ensures AllWellFormed(ps + [p])
    ensures Supported(ps + [p]) == Supported(ps) + (if Forwardable(p) then [p] else [])
  {
    assert (ps + [p])[..|ps|] == ps;
  }

  lemma ReadLosesNothing(s: State, e: Event)
    requires NothingLost(s) && e.Got? && e.chunk != [] && Next(s, e).Some?
    ensures NothingLost(Next(s, e).value)
  {
    var s' := Next(s, e).value;
    var p := s.buf + e.chunk;
    GotKeepsBoundary(s, e);
    FramedGrows(s.consumed, s.framed, s.buf, e.chunk);
    if Inspect(p).Whole? {
      SupportedSnoc(s.framed, p);
      if s'.phase.Pushing? {
        assert Finished(s') == s.framed;
      } else {
        assert Finished(s') == s.framed + [p];
      }
    } else {
      assert Finished(s') == Finished(s);
    }
  }

  lemma PushLosesNothing(s: State, e: Event)
    requires NothingLost(s) && e.Pushed? && e.chunk != [] && Next(s, e).Some?
    ensures NothingLost(Next(s, e).value)
  {
    var s' := Next(s, e).value;
    PushKeepsBoundary(s, e);
    NextDelivers(s, e);
    if s'.phase.Pushing? {
      assert s'.delivered == s.delivered && Finished(s') == Finished(s);
    } else {
      assert s'.delivered == s.delivered + [s.phase.pkt];
      assert Finished(s') == Finished(s) + [s.phase.pkt];
      SupportedSnoc(Finished(s), s.phase.pkt);
    }
  }

  /** Without faults a packet is delivered if and only if its protocol has a sink. */
  lemma NextLosesNothing(s: State, e: Event)
    requires NothingLost(s) && !IsFault(e) && Next(s, e).Some?
    ensures NothingLost(Next(s, e).value)
  {
    NextKeepsBoundary(s, e);
    if e.Got? {
      ReadLosesNothing(s, e);
    } else if e.Pushed? {
      PushLosesNothing(s, e);
    }
  }

  // Which resource is used

  /** The connection, the TCP sink and the UDP sink that were opened last. */
  function LastConn(log: seq<Event>): Option<nat> {
    if log == [] then None
    else if log[|log| - 1].Accepted? then Some(log[|log| - 1].conn)
    else LastConn(log[..|log| - 1])
  }

  function LastTcp(log: seq<Event>): Option<nat> {
    if log == [] then None
    else if log[|log| - 1].TcpOpened? then Some(log[|log| - 1].sink)
    else LastTcp(log[..|log| - 1])
  }

  function LastUdp(log: seq<Event>): Option<nat> {
    if log == [] then None
    else if log[|log| - 1].UdpOpened? then Some(log[|log| - 1].sink)
    else LastUdp(log[..|log| - 1])
  }

  /** Once all three resources are open, the state has the newest of each. */
  predicate Handles(s: State, conn: Option<nat>, tcp: Option<nat>, udp: Option<nat>) {
    && (conn.Some? ==> conn.value == s.vsock)
    && (tcp.Some? ==> tcp.value == s.tcp)
    && (udp.Some? ==> udp.value == s.udp)
    && (s.up ==> conn.Some? && tcp.Some? && udp.Some?)
    && (!s.up ==> s.phase.NeedVsock? || (s.phase.NeedTcp? && conn.Some?)
                  || (s.phase.NeedUdp? && conn.Some? && tcp.Some?) || s.phase.Done?)
  }

  lemma NextHandles(s: State, e: Event, conn: Option<nat>, tcp: Option<nat>, udp: Option<nat>)
    requires Handles(s, conn, tcp, udp) && Next(s, e).Some?
    ensures Handles(Next(s, e).value,
                    if e.Accepted? then Some(e.conn) else conn,
                    if e.TcpOpened? then Some(e.sink) else tcp,
                    if e.UdpOpened? then Some(e.sink) else udp)
  {
  }

  lemma {:induction false} HandlesAlways(log: seq<Event>)
    requires After(log).Some?
    ensures Handles(After(log).value, LastConn(log), LastTcp(log), LastUdp(log))
  {
    if log != [] {
      var before := log[..|log| - 1];
      HandlesAlways(before);
      NextHandles(After(before).value, log[|log| - 1], LastConn(before), LastTcp(before), LastUdp(before));
    }
  }

  /** The sink is the one opened last for the protocol in the packet's header. */
  predicate RightSink(log: seq<Event>, pkt: Packet, sink: nat) {
    && WellFormed(pkt)
    && (ProtocolOf(pkt) == PROTOCOL_TCP || ProtocolOf(pkt) == PROTOCOL_UDP)
    && Some(sink) == (if ProtocolOf(pkt) == PROTOCOL_TCP then LastTcp(log) else LastUdp(log))
  }

  /** Every read is on the connection that was opened last. */
  lemma ReadsUseNewest(log: seq<Event>, e: Event)
    requires After(log + [e]).Some? && (e.Got? || e.GetFailed?)
    ensures LastConn(log) == Some(e.conn)
  {
    AfterSnoc(log, e);
    HandlesAlways(log);
  }

  /** Every push is of the packet cut last, to the newest sink of its protocol. */
  lemma PushesUseNewest(log: seq<Event>, e: Event)
    requires After(log + [e]).Some? && (e.Pushed? || e.PushFailed?)
    ensures After(log).Some? && After(log).value.framed != []
    ensures
      var framed := After(log).value.framed;
      RightSink(log, framed[|framed| - 1], e.sink)
  {
    AfterSnoc(log, e);
    HandlesAlways(log);
    BoundaryAlways(log);
  }
}
