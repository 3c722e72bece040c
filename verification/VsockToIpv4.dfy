/**
 The receiver's two loops, over an environment whose every answer is arbitrary.
 Each method leaves a log that `ReceiverProtocol.After` accepts.
 */
module VsockToIpv4 {
  import opened Wrappers
  import opened Octets
  import opened Ipv4
  import opened Runtime
  import opened ReceiverProtocol
  import H = ReceiverHistory

  /** The operating system and the shutdown token; `polls` is as for the sender. */
  class Environment {
    ghost var log: seq<Event>
    var polls: nat

    constructor (polls: nat)
      ensures log == [] && this.polls == polls
    {
      log := [];
      this.polls := polls;
    }

    method IsCancelled() returns (c: bool)
      modifies this
      ensures c == (old(polls) == 0)
      ensures polls == if c then 0 else old(polls) - 1
      ensures log == old(log) + [Polled(!c)]
    {
      c := polls == 0;
      if !c { polls := polls - 1; }
      log := log + [Polled(!c)];
    }

    method Accept() returns (r: Result<nat, Error>)
      modifies this`log
      ensures r.Success? ==> log == old(log) + [Accepted(r.value)]
      ensures r.Failure? ==> r.error == Reopening && log == old(log) + [OpenFailed]
    {
      if * { r := Failure(Reopening); log := log + [OpenFailed]; return; }
      var c: nat := *;
      r := Success(c);
      log := log + [Accepted(c)];
    }

    method NewSinkSocket(protocol: Byte) returns (r: Result<nat, Error>)
      requires protocol == PROTOCOL_TCP || protocol == PROTOCOL_UDP
      modifies this`log
      ensures r.Success? ==>
                log == old(log) + [if protocol == PROTOCOL_TCP then TcpOpened(r.value) else UdpOpened(r.value)]
      ensures r.Failure? ==> r.error == Reopening && log == old(log) + [OpenFailed]
    {
      if * { r := Failure(Reopening); log := log + [OpenFailed]; return; }
      var k: nat := *;
      r := Success(k);
      log := log + [if protocol == PROTOCOL_TCP then TcpOpened(k) else UdpOpened(k)];
    }

    /** One `read` into `buf[lo..hi]`, which may be short. */
    method Read(conn: nat, buf: array<Byte>, lo: nat, hi: nat) returns (r: Result<nat, int>)
      requires lo <= hi <= buf.Length
      modifies this`log, buf
      ensures buf[..lo] == old(buf[..lo])
      ensures r.Success? ==> r.value <= hi - lo && log == old(log) + [Got(conn, buf[lo..lo + r.value])]
      ensures r.Failure? ==> log == old(log) + [GetFailed(conn)]
    {
      if * {
        r := Failure(-1);
        log := log + [GetFailed(conn)];
      } else {
        var n: nat :| n <= hi - lo;
        var bytes: nat -> Byte := *;
        forall i | lo <= i < lo + n { buf[i] := bytes(i); }
        r := Success(n);
        log := log + [Got(conn, buf[lo..lo + n])];
      }
    }

    method SendTo(sink: nat, bytes: seq<Byte>) returns (r: Result<nat, int>)
      modifies this`log
      ensures r.Success? ==> r.value <= |bytes| && log == old(log) + [Pushed(sink, bytes[..r.value])]
      ensures r.Failure? ==> log == old(log) + [PushFailed(sink)]
    {
      if * {
        r := Failure(-1);
        log := log + [PushFailed(sink)];
      } else {
        var n: nat :| n <= |bytes|;
        r := Success(n);
        log := log + [Pushed(sink, bytes[..n])];
      }
    }
  }

  datatype Sockets = Sockets(vsock: nat, tcp: nat, udp: nat)

  /** The log is one the protocol allows, and it has got to `phase` with these sockets. */
  ghost predicate At(log: seq<Event>, phase: Phase, socks: Sockets) {
    && After(log).Some?
    && After(log).value.up
    && After(log).value.phase == phase
    && Sockets(After(log).value.vsock, After(log).value.tcp, After(log).value.udp) == socks
  }

  /** As `At`, for a receiver that has read `buf` of the current packet. */
  ghost predicate AtRead(log: seq<Event>, buf: seq<Byte>, socks: Sockets) {
    match Inspect(buf)
    case Short(_) => At(log, Reading, socks) && After(log).value.buf == buf
    case Invalid => At(log, Rejected, socks)
    case Whole(p) =>
      At(log, if p == PROTOCOL_TCP || p == PROTOCOL_UDP then Pushing(buf, []) else Inner, socks)
  }

  lemma InnerHasEmptyBuffer(log: seq<Event>)
    requires After(log).Some? && After(log).value.phase.Inner?
    ensures After(log + [Polled(true)]).Some? && After(log + [Polled(true)]).value.buf == []
  {
    BoundaryAlways(log);
    AfterSnoc(log, Polled(true));
  }

  lemma ReadAdvances(log: seq<Event>, had: seq<Byte>, chunk: seq<Byte>, socks: Sockets)
    requires AtRead(log, had, socks) && Inspect(had).Short? && 0 < |chunk| <= Inspect(had).need
    ensures AtRead(log + [Got(socks.vsock, chunk)], had + chunk, socks)
  {
    AfterSnoc(log, Got(socks.vsock, chunk));
  }

  lemma ReadFails(log: seq<Event>, had: seq<Byte>, socks: Sockets)
    requires AtRead(log, had, socks) && Inspect(had).Short?
    ensures At(log + [Got(socks.vsock, [])], NeedVsock, socks)
    ensures At(log + [GetFailed(socks.vsock)], NeedVsock, socks)
  {
    AfterSnoc(log, Got(socks.vsock, []));
    AfterSnoc(log, GetFailed(socks.vsock));
  }

  /** The phase of a receiver that has pushed so much of a packet. */
  function PushingPhase(pkt: Packet, sent: nat): Phase
    requires sent <= |pkt|
  {
    if sent == |pkt| then Inner else Pushing(pkt, pkt[..sent])
  }

  lemma PushAdvances(log: seq<Event>, socks: Sockets, pkt: Packet, sent: nat, n: nat)
    requires sent < |pkt| && 0 < n <= |pkt| - sent
    requires At(log, Pushing(pkt, pkt[..sent]), socks)
    ensures At(log + [Pushed(if IsTcp(pkt) then socks.tcp else socks.udp, pkt[sent..sent + n])],
               PushingPhase(pkt, sent + n), socks)
  {
    AfterSnoc(log, Pushed(if IsTcp(pkt) then socks.tcp else socks.udp, pkt[sent..sent + n]));
    assert pkt[..sent] + pkt[sent..sent + n] == pkt[..sent + n];
  }

  lemma PushFails(log: seq<Event>, socks: Sockets, pkt: Packet, sent: nat)
    requires sent < |pkt| && At(log, Pushing(pkt, pkt[..sent]), socks)
    ensures
      var sink := if IsTcp(pkt) then socks.tcp else socks.udp;
      var phase := if IsTcp(pkt) then NeedTcp else NeedUdp;
      && At(log + [Pushed(sink, [])], phase, socks)
      && At(log + [PushFailed(sink)], phase, socks)
  {
    var sink := if IsTcp(pkt) then socks.tcp else socks.udp;
    AfterSnoc(log, Pushed(sink, []));
    AfterSnoc(log, PushFailed(sink));
  }

  /** The phase in which `pump` leaves the receiver. */
  function Outcome(r: Result<(), Error>): Phase {
    match r
    case Success(_) => Done(true)
    case Failure(e) =>
      if e == IoIpv4Tcp then NeedTcp else if e == IoIpv4Udp then NeedUdp
      else if e == IoVsock then NeedVsock else Rejected
  }

  /** The last event of the log is the cause of the outcome. */
  predicate Caused(log: seq<Event>, r: Result<(), Error>) {
    var v := H.ViewOf(log);
    match r
    case Success(_) => v.last == Some(Polled(false))
    case Failure(e) =>
      if e == IoIpv4Tcp then H.SinkFailed(v, 6)
      else if e == IoIpv4Udp then H.SinkFailed(v, 17)
      else if e == IoVsock then H.VsockFailed(v)
      else H.JustRead(v) && Inspect(v.cut.rest).Invalid?
  }

  lemma OutcomeIsCaused(log: seq<Event>, r: Result<(), Error>, socks: Sockets)
    requires At(log, Outcome(r), socks)
    ensures Caused(log, r)
  {
    H.MatchesAlways(log);
  }

  class VsockToIpv4 {
    const env: Environment

    constructor (env: Environment)
      ensures this.env == env
    {
      this.env := env;
    }

    ghost predicate GaveUp()
      reads env
    {
      After(env.log).Some? && After(env.log).value.phase == Done(false)
    }

    method ReplaceVsock(ghost socks: Sockets) returns (r: Result<nat, Error>)
      requires At(env.log, NeedVsock, socks)
      modifies env`log
      ensures r.Success? ==> At(env.log, Outer, socks.(vsock := r.value))
      ensures r.Failure? ==> r.error == Reopening && GaveUp()
    {
      ghost var before := env.log;
      r := env.Accept();
      AfterSnoc(before, env.log[|before|]);
    }

    method ReplaceTcp(ghost socks: Sockets) returns (r: Result<nat, Error>)
      requires At(env.log, NeedTcp, socks)
      modifies env`log
      ensures r.Success? ==> At(env.log, Outer, socks.(tcp := r.value))
      ensures r.Failure? ==> r.error == Reopening && GaveUp()
    {
      ghost var before := env.log;
      r := env.NewSinkSocket(PROTOCOL_TCP);
      AfterSnoc(before, env.log[|before|]);
    }

    method ReplaceUdp(ghost socks: Sockets) returns (r: Result<nat, Error>)
      requires At(env.log, NeedUdp, socks)
      modifies env`log
      ensures r.Success? ==> At(env.log, Outer, socks.(udp := r.value))
      ensures r.Failure? ==> r.error == Reopening && GaveUp()
    {
      ghost var before := env.log;
      r := env.NewSinkSocket(PROTOCOL_UDP);
      AfterSnoc(before, env.log[|before|]);
    }

    /** Opens the three resources, in this order. */
    method Start() returns (r: Result<Sockets, Error>)
      requires env.log == []
      modifies env`log
      ensures r.Success? ==> At(env.log, Outer, r.value)
      ensures r.Failure? ==> r.error == Reopening && GaveUp()
    {
      var vsock := env.Accept();
      FirstEvents(if vsock.Success? then vsock.value else 0);
      if vsock.Failure? {
        assert env.log == [OpenFailed];
        return Failure(vsock.error);
      }
      assert env.log == [Accepted(vsock.value)];
      var tcp := StartTcp(vsock.value);
      if tcp.Failure? { return Failure(tcp.error); }
      var udp := StartUdp(vsock.value, tcp.value);
      if udp.Failure? { return Failure(udp.error); }
      return Success(Sockets(vsock.value, tcp.value, udp.value));
    }

    method StartTcp(ghost vsock: nat) returns (r: Result<nat, Error>)
      requires After(env.log) == Some(INITIAL.(vsock := vsock, accepted := 1, phase := NeedTcp))
      modifies env`log
      ensures r.Success? ==>
                After(env.log) == Some(INITIAL.(vsock := vsock, accepted := 1, tcp := r.value, phase := NeedUdp))
      ensures r.Failure? ==> r.error == Reopening && GaveUp()
    {
      ghost var before := env.log;
      r := env.NewSinkSocket(PROTOCOL_TCP);
      AfterSnoc(before, env.log[|before|]);
    }

    method StartUdp(ghost vsock: nat, ghost tcp: nat) returns (r: Result<nat, Error>)
      requires After(env.log) == Some(INITIAL.(vsock := vsock, accepted := 1, tcp := tcp, phase := NeedUdp))
      modifies env`log
      ensures r.Success? ==> At(env.log, Outer, Sockets(vsock, tcp, r.value))
      ensures r.Failure? ==> r.error == Reopening && GaveUp()
    {
      ghost var before := env.log;
      r := env.NewSinkSocket(PROTOCOL_UDP);
      AfterSnoc(before, env.log[|before|]);
    }

    /** One poll of the token, by the outer or by the inner loop. */
    method Poll(inner: bool, ghost socks: Sockets) returns (cancelled: bool)
      requires At(env.log, if inner then Inner else Outer, socks)
      modifies env
      ensures cancelled ==> At(env.log, Done(true), socks)
      ensures !cancelled && inner ==> AtRead(env.log, [], socks)
      ensures !cancelled && !inner ==> At(env.log, Inner, socks)
      ensures cancelled == (old(env.polls) == 0)
      ensures env.polls == if cancelled then 0 else old(env.polls) - 1
    {
      ghost var before := env.log;
      if inner { InnerHasEmptyBuffer(env.log); }
      cancelled := env.IsCancelled();
      AfterSnoc(before, Polled(!cancelled));
    }

    /** Runs from start to shutdown or to the first error that is not recovered from. */
    method Run() returns (r: Result<(), Error>)
      requires env.log == []
      modifies env
      ensures After(env.log).Some?
      ensures r.Failure? ==> r.error == Reopening || r.error == GlycerineRuntime
      ensures After(env.log).value.phase ==
              if r == Failure(GlycerineRuntime) then Rejected else Done(r.Success?)
    {
      var started := Start();
      if started.Failure? { return Failure(started.error); }
      var socks := started.value;

      var cancelled := Poll(false, socks);
      while !cancelled
        invariant At(env.log, if cancelled then Done(true) else Inner, socks)
        decreases env.polls, !cancelled
      {
        var res := Pump(socks);
        match res {
          case Failure(IoVsock) =>
            var replaced := ReplaceVsock(socks);
            if replaced.Failure? { return Failure(replaced.error); }
            socks := socks.(vsock := replaced.value);
          case Failure(IoIpv4Tcp) =>
            var replaced := ReplaceTcp(socks);
            if replaced.Failure? { return Failure(replaced.error); }
            socks := socks.(tcp := replaced.value);
          case Failure(IoIpv4Udp) =>
            var replaced := ReplaceUdp(socks);
            if replaced.Failure? { return Failure(replaced.error); }
            socks := socks.(udp := replaced.value);
          case _ =>
            return res;
        }
        cancelled := Poll(false, socks);
      }
      return Success(());
    }

    /** Forwards packets until shutdown, an invalid header, or a resource to be replaced. */
    method Pump(socks: Sockets) returns (r: Result<(), Error>)
      requires At(env.log, Inner, socks)
      modifies env
      ensures env.polls <= old(env.polls)
      ensures r.Failure? ==> r.error in {IoVsock, IoIpv4Tcp, IoIpv4Udp, GlycerineRuntime}
      ensures At(env.log, Outcome(r), socks)
      // an unsupported protocol is not the cause of any outcome
      ensures Caused(env.log, r)
    {
      var payload := new Byte[MAX_PACKET_SIZE];
      var cancelled := Poll(true, socks);
      while !cancelled
        invariant env.polls <= old(env.polls)
        invariant if cancelled then At(env.log, Done(true), socks) else AtRead(env.log, [], socks)
        decreases env.polls, !cancelled
      {
        var frame := ReadPacket(payload, socks);
        if frame.Failure? {
          r := Failure(frame.error);
          OutcomeIsCaused(env.log, r, socks);
          return;
        }
        var protocol := frame.value.protocol;
        if protocol == PROTOCOL_TCP || protocol == PROTOCOL_UDP {
          var pushed := Push(payload, frame.value.size, protocol, socks);
          if pushed.Failure? {
            OutcomeIsCaused(env.log, pushed, socks);
            return pushed;
          }
        }
        cancelled := Poll(true, socks);
      }
      r := Success(());
      OutcomeIsCaused(env.log, r, socks);
    }

    /** The reading part of `pump`: the fixed part of the header, and then the rest. */
    method ReadPacket(payload: array<Byte>, socks: Sockets) returns (r: Result<Frame, Error>)
      requires payload.Length == MAX_PACKET_SIZE
      requires AtRead(env.log, [], socks)
      modifies env`log, payload
      ensures r.Failure? ==> r.error == IoVsock || r.error == GlycerineRuntime
      ensures r.Failure? ==> At(env.log, if r.error == IoVsock then NeedVsock else Rejected, socks)
      ensures r.Success? ==>
                && HEADER_LEN <= r.value.size <= payload.Length
                && ProtocolOf(payload[..r.value.size]) == r.value.protocol
                && Inspect(payload[..r.value.size]) == Whole(r.value.protocol)
                && AtRead(env.log, payload[..r.value.size], socks)
    {
      // read fixed-sized portion of the header
      assert payload[..0] == [];
      var ok := ReadExact(payload, 0, HEADER_LEN, socks);
      if !ok { return Failure(IoVsock); }
      ghost var header := payload[..HEADER_LEN];
      assert header[..HEADER_LEN] == header;

      var frame := Ipv4TotalLen(payload[..HEADER_LEN]);
      if frame.Failure? { return Failure(GlycerineRuntime); }
      var size := frame.value.size;

      // read the rest
      ok := ReadExact(payload, HEADER_LEN, size, socks);
      if !ok { return Failure(IoVsock); }
      assert payload[..size][..HEADER_LEN] == header;
      assert payload[..size][9] == header[9];
      return Success(frame.value);
    }

    /** `read_exact`: fills `payload[lo..hi]` by as many reads as it takes. */
    method ReadExact(payload: array<Byte>, lo: nat, hi: nat, socks: Sockets) returns (ok: bool)
      requires lo <= hi <= payload.Length
      requires AtRead(env.log, payload[..lo], socks)
      requires lo < hi ==> Inspect(payload[..lo]) == Short(hi - lo)
      modifies env`log, payload
      ensures payload[..lo] == old(payload[..lo])
      ensures ok ==> AtRead(env.log, payload[..hi], socks)
      ensures !ok ==> At(env.log, NeedVsock, socks)
    {
      var pos := lo;
      ghost var start := payload[..lo];
      while pos < hi
        invariant lo <= pos <= hi
        invariant payload[..lo] == start
        invariant AtRead(env.log, payload[..pos], socks)
        invariant pos < hi ==> Inspect(payload[..pos]) == Short(hi - pos)
      {
        ghost var had := payload[..pos];
        var n := ReadSome(payload, pos, hi, socks);
        if n == 0 { return false; }
        assert payload[..pos][..lo] == had[..lo];
        pos := pos + n;
      }
      return true;
    }

    /** One read of `read_exact`; an error and the end of the stream both give 0. */
    method ReadSome(payload: array<Byte>, pos: nat, hi: nat, socks: Sockets) returns (n: nat)
      requires pos < hi <= payload.Length
      requires AtRead(env.log, payload[..pos], socks)
      requires Inspect(payload[..pos]) == Short(hi - pos)
      modifies env`log, payload
      ensures n <= hi - pos
      ensures payload[..pos] == old(payload[..pos])
      ensures n > 0 ==> AtRead(env.log, payload[..pos + n], socks)
      ensures 0 < n < hi - pos ==> Inspect(payload[..pos + n]) == Short(hi - pos - n)
      ensures n == 0 ==> At(env.log, NeedVsock, socks)
    {
      ghost var before, had := env.log, payload[..pos];
      var res := env.Read(socks.vsock, payload, pos, hi);
      if res.Failure? || res.value == 0 {
        ReadFails(before, had, socks);
        return 0;
      }
      n := res.value;
      ghost var chunk := payload[pos..pos + n];
      ReadAdvances(before, had, chunk, socks);
      ShortShrinks(had, chunk);
      assert payload[..pos + n] == had + chunk;
    }

    /** The sending loop of `pump`. */
    method Push(payload: array<Byte>, size: nat, protocol: Byte, socks: Sockets) returns (r: Result<(), Error>)
      requires HEADER_LEN <= size <= payload.Length
      requires protocol == PROTOCOL_TCP || protocol == PROTOCOL_UDP
      requires ProtocolOf(payload[..size]) == protocol
      requires At(env.log, Pushing(payload[..size], []), socks)
      modifies env`log
      ensures r.Failure? ==> r.error == if protocol == PROTOCOL_TCP then IoIpv4Tcp else IoIpv4Udp
      ensures At(env.log, if r.Success? then Inner else Outcome(r), socks)
    {
      var sink := if protocol == PROTOCOL_TCP then socks.tcp else socks.udp;
      ghost var pkt := payload[..size];
      var sent := 0;
      while sent < size
        invariant sent <= size
        invariant At(env.log, PushingPhase(pkt, sent), socks)
      {
        assert payload[sent..size] == pkt[sent..];
        var n := PushSome(sink, payload[sent..size], pkt, sent, socks);
        if n == 0 {
          return Failure(if protocol == PROTOCOL_TCP then IoIpv4Tcp else IoIpv4Udp);
        }
        sent := sent + n;
      }
      return Success(());
    }

    /** One send of what is left of a packet; an error and an empty send both give 0. */
    method PushSome(sink: nat, rest: seq<Byte>, ghost pkt: Packet, ghost sent: nat, ghost socks: Sockets)
      returns (n: nat)
      requires sent < |pkt| && rest == pkt[sent..]
      requires sink == if IsTcp(pkt) then socks.tcp else socks.udp
      requires At(env.log, Pushing(pkt, pkt[..sent]), socks)
      modifies env`log
      ensures n <= |rest|
      ensures n > 0 ==> At(env.log, PushingPhase(pkt, sent + n), socks)
      ensures n == 0 ==> At(env.log, if IsTcp(pkt) then NeedTcp else NeedUdp, socks)
    {
      ghost var before := env.log;
      var res := env.SendTo(sink, rest);
      if res.Failure? || res.value == 0 {
        PushFails(before, socks, pkt, sent);
        return 0;
      }
      n := res.value;
      assert rest[..n] == pkt[sent..sent + n];
      PushAdvances(before, socks, pkt, sent, n);
    }
  }
}
