/**
 A sender and a receiver joined by vsock connections, with every interleaving of their
 steps. The receiver takes the connections in the order they were opened, may skip
 some, and reads of each a prefix of what was written to it: a cut connection loses
 the rest. Queue payloads are well-formed IPv4 packets, as the netfilter chains that
 feed the queue are of the IPv4 family.
 */
module Forwarding {
  import opened Wrappers
  import opened Octets
  import opened Ipv4
  import S = SenderProtocol
  import R = ReceiverProtocol

  datatype Event =
    | Tx(s: S.Event)
    | Rx(r: R.Event)
    | Take(conn: nat, handle: nat) // the receiver accepts the sender's connection

  /** `at` is the connection that the receiver reads, -1 before the first. */
  datatype System = System(tx: S.State, rx: R.State, at: int)

  const INITIAL := System(S.INITIAL, R.INITIAL, -1)

  function Next(s: System, e: Event): Option<System> {
    match e
    case Tx(ev) =>
      if (ev.Popped? ==> WellFormed(ev.msg)) && S.Next(s.tx, ev).Some?
      then Some(s.(tx := S.Next(s.tx, ev).value))
      else None
    case Rx(ev) =>
      if !ev.Accepted?
         && (ev.Got? && ev.chunk != [] ==>
               0 <= s.at < |s.tx.conns| && s.rx.consumed + ev.chunk <= s.tx.conns[s.at].bytes)
         && R.Next(s.rx, ev).Some?
      then Some(s.(rx := R.Next(s.rx, ev).value))
      else None
    case Take(conn, handle) =>
      if s.at < conn < |s.tx.conns| && R.Next(s.rx, R.Accepted(handle)).Some?
      then Some(s.(rx := R.Next(s.rx, R.Accepted(handle)).value, at := conn))
      else None
  }

  /** The system after a run, if that is a possible run. */
  function After(run: seq<Event>): Option<System> {
    if run == [] then Some(INITIAL)
    else
      match After(run[..|run| - 1])
      case None => None
      case Some(s) => Next(s, run[|run| - 1])
  }

  /** The system after a run that continues from `s`. */
  function From(s: System, run: seq<Event>): Option<System> {
    if run == [] then Some(s)
    else
      match From(s, run[..|run| - 1])
      case None => None
      case Some(t) => Next(t, run[|run| - 1])
  }

  lemma FromSnoc(s: System, run: seq<Event>, e: Event)
    ensures From(s, run + [e]) == if From(s, run).Some? then Next(From(s, run).value, e) else None
  {
    assert (run + [e])[..|run|] == run;
  }

  lemma {:induction false} FromStart(run: seq<Event>, more: seq<Event>)
    requires After(run).Some?
    ensures After(run + more) == From(After(run).value, more)
    decreases |more|
  {
    if more == [] {
      assert run + more == run;
    } else {
      FromStart(run, more[..|more| - 1]);
      assert (run + more)[..|run + more| - 1] == run + more[..|more| - 1];
    }
  }

  lemma {:induction false} FromConcat(s: System, a: seq<Event>, b: seq<Event>)
    requires From(s, a).Some?
    ensures From(s, a + b) == From(From(s, a).value, b)
    decreases |b|
  {
    if b == [] {
      assert a + b == a;
    } else {
      FromConcat(s, a, b[..|b| - 1]);
      assert (a + b)[..|a + b| - 1] == a + b[..|b| - 1];
    }
  }

  /** The sender's part of a run. */
  function TxLog(run: seq<Event>): seq<S.Event> {
    if run == [] then []
    else
      var e, log := run[|run| - 1], TxLog(run[..|run| - 1]);
      if e.Tx? then log + [e.s] else log
  }

  /** The receiver's part of a run. */
  function RxLog(run: seq<Event>): seq<R.Event> {
    if run == [] then []
    else
      var e, log := run[|run| - 1], RxLog(run[..|run| - 1]);
      if e.Tx? then log else log + [if e.Rx? then e.r else R.Accepted(e.handle)]
  }

  /** Each side of a run sees a log that its own loops can produce, and ends in its state. */
  lemma {:induction false} RunsAreLogs(run: seq<Event>)
    requires After(run).Some?
    ensures S.After(TxLog(run)) == Some(After(run).value.tx)
    ensures R.After(RxLog(run)) == Some(After(run).value.rx)
  {
    if run != [] {
      var before, e := run[..|run| - 1], run[|run| - 1];
      RunsAreLogs(before);
      NextIsStep(After(before).value, e);
      if e.Tx? {
        S.AfterSnoc(TxLog(before), e.s);
      } else {
        R.AfterSnoc(RxLog(before), if e.Rx? then e.r else R.Accepted(e.handle));
      }
    }
  }

  lemma NextIsStep(s: System, e: Event)
    requires Next(s, e).Some?
    ensures
      var s' := Next(s, e).value;
      if e.Tx? then S.Next(s.tx, e.s) == Some(s'.tx) && s'.rx == s.rx
      else s'.tx == s.tx && R.Next(s.rx, if e.Rx? then e.r else R.Accepted(e.handle)) == Some(s'.rx)
  {
  }

  // Unique framing

  /** Cutting the rest of a concatenation of packets leaves nothing over. */
  lemma RestIsPackets(ps: seq<Packet>, framed: seq<Packet>, rest: seq<Byte>)
    requires AllWellFormed(ps) && AllWellFormed(framed)
    requires Flatten(framed) + rest == Flatten(ps)
    ensures ps == framed + Deframe(rest).packets
    ensures Deframe(rest).rest == []
  {
    DeframeFlatten(ps, []);
    assert Flatten(ps) + [] == Flatten(ps);
    assert ps + [] == ps;
    DeframeFlatten(framed, rest);
  }

  lemma InvalidStaysInvalid(buf: seq<Byte>, more: seq<Byte>)
    requires Inspect(buf).Invalid?
    ensures Deframe(buf + more).rest == buf + more
  {
    assert (buf + more)[..HEADER_LEN] == buf[..HEADER_LEN];
  }

  /** A reader of a prefix of a concatenation of packets has cut exactly the first of them. */
  lemma FramedIsPrefix(ps: seq<Packet>, framed: seq<Packet>, buf: seq<Byte>)
    requires AllWellFormed(ps) && AllWellFormed(framed)
    requires Flatten(framed) + buf <= Flatten(ps)
    ensures framed <= ps
    ensures !Inspect(buf).Invalid?
  {
    var more := Flatten(ps)[|Flatten(framed) + buf|..];
    Associative(Flatten(framed), buf, more);
    RestIsPackets(ps, framed, buf + more);
    if Inspect(buf).Invalid? {
      InvalidStaysInvalid(buf, more);
    }
  }

  // What every run keeps

  predicate Coupled(s: System) {
    && S.StreamsInv(s.tx)
    && R.BoundaryInv(s.rx)
    && AllWellFormed(s.tx.popped)
    && -1 <= s.at < |s.tx.conns|
    && (s.at == -1 ==> s.rx.consumed == [] && s.rx.framed == [] && (s.rx.phase.NeedVsock? || s.rx.phase.Done?))
    && (s.at >= 0 ==> s.rx.consumed <= s.tx.conns[s.at].bytes)
  }

  lemma TxKeepsCoupled(s: System, e: Event)
    requires Coupled(s) && e.Tx? && Next(s, e).Some?
    ensures Coupled(Next(s, e).value)
  {
    S.NextKeepsStreams(s.tx, e.s);
    S.NextGrows(s.tx, e.s);
    S.NextPops(s.tx, e.s);
    if s.at >= 0 {
      assert s.tx.conns[s.at].bytes <= Next(s, e).value.tx.conns[s.at].bytes;
    }
  }

  lemma RxKeepsCoupled(s: System, e: Event)
    requires Coupled(s) && !e.Tx? && Next(s, e).Some?
    ensures Coupled(Next(s, e).value)
  {
    var ev := if e.Rx? then e.r else R.Accepted(e.handle);
    R.NextKeepsBoundary(s.rx, ev);
    R.NextReads(s.rx, ev);
    var s' := Next(s, e).value;
    assert s'.tx == s.tx && s'.rx == R.Next(s.rx, ev).value;
    if e.Rx? && s.at == -1 {
      assert !ev.Got?;
    }
  }

  lemma {:induction false} CoupledAlways(run: seq<Event>)
    requires After(run).Some?
    ensures Coupled(After(run).value)
  {
    if run != [] {
      CoupledAlways(run[..|run| - 1]);
      var s, e := After(run[..|run| - 1]).value, run[|run| - 1];
      if e.Tx? { TxKeepsCoupled(s, e); } else { RxKeepsCoupled(s, e); }
    }
  }

  lemma ReadIsPrefix(s: System)
    requires Coupled(s) && s.at >= 0
    ensures AllWellFormed(S.Carried(s.tx, s.at)) && AllWellFormed(s.rx.framed)
    ensures Flatten(s.rx.framed) + s.rx.buf <= Flatten(S.Carried(s.tx, s.at))
  {
    S.StreamIsPrefix(s.tx, s.at);
    assert s.rx.consumed <= s.tx.conns[s.at].bytes;
  }

  /** What the receiver has cut from a connection is what was popped for it, from the start. */
  lemma FramedWasPopped(s: System)
    requires Coupled(s) && s.at >= 0
    ensures
      var first := s.tx.conns[s.at].first;
      && s.rx.framed <= S.Carried(s.tx, s.at)
      && first + |s.rx.framed| <= |s.tx.popped|
      && s.rx.framed == s.tx.popped[first..first + |s.rx.framed|]
      && !Inspect(s.rx.buf).Invalid?
  {
    var ps, first := S.Carried(s.tx, s.at), s.tx.conns[s.at].first;
    ReadIsPrefix(s);
    FramedIsPrefix(ps, s.rx.framed, s.rx.buf);
    PrefixOfSlice(s.tx.popped, first, first + |ps|, s.rx.framed);
  }

  lemma PrefixOfSlice(ps: seq<Packet>, from: nat, to: nat, part: seq<Packet>)
    requires from <= to <= |ps| && part <= ps[from..to]
    ensures from + |part| <= |ps| && part == ps[from..from + |part|]
  {
    assert ps[from..to][..|part|] == ps[from..from + |part|];
  }

  /** No run makes the receiver give up on an "invalid ipv4 packet". */
  lemma NeverRejects(run: seq<Event>)
    requires After(run).Some?
    ensures !After(run).value.rx.phase.Rejected?
  {
    CoupledAlways(run);
    var s := After(run).value;
    if s.at >= 0 {
      FramedWasPopped(s);
    }
  }

  // End to end

  /** `idx` places each packet of `d`, in order, at a packet of `p` below `bound`. */
  ghost predicate Embeds(idx: seq<nat>, d: seq<Packet>, p: seq<Packet>, bound: nat) {
    && |idx| == |d|
    && bound <= |p|
    && (forall i :: 0 <= i < |d| ==> idx[i] < bound && d[i] == p[idx[i]])
    && (forall i, j :: 0 <= i < j < |d| ==> idx[i] < idx[j])
  }

  /** How many of the popped packets the receiver is done with. */
  function Settled(s: System): int {
    if s.at < 0 || s.at >= |s.tx.conns| then 0
    else s.tx.conns[s.at].first + |s.rx.framed| - (if s.rx.phase.Pushing? then 1 else 0)
  }

  ghost predicate Embedded(s: System) {
    && 0 <= Settled(s) <= |s.tx.popped|
    && exists idx :: Embeds(idx, s.rx.delivered, s.tx.popped, Settled(s))
  }

  lemma EmbedsMore(idx: seq<nat>, d: seq<Packet>, p: seq<Packet>, bound: nat, p': seq<Packet>, bound': nat)
    requires Embeds(idx, d, p, bound) && p <= p' && bound <= bound' <= |p'|
    ensures Embeds(idx, d, p', bound')
  {
  }

  lemma EmbedsNext(idx: seq<nat>, d: seq<Packet>, p: seq<Packet>, bound: nat, bound': nat)
    requires Embeds(idx, d, p, bound) && bound < bound' <= |p|
    ensures Embeds(idx + [bound], d + [p[bound]], p, bound')
  {
  }

  lemma TxKeepsEmbedded(s: System, e: Event)
    requires Coupled(s) && Embedded(s) && e.Tx? && Next(s, e).Some?
    ensures Embedded(Next(s, e).value)
  {
    var s' := Next(s, e).value;
    S.NextGrows(s.tx, e.s);
    var idx: seq<nat> :| Embeds(idx, s.rx.delivered, s.tx.popped, Settled(s));
    EmbedsMore(idx, s.rx.delivered, s.tx.popped, Settled(s), s'.tx.popped, Settled(s'));
  }

  /** A later connection starts beyond all that was cut from this one. */
  lemma LaterStartsBeyond(s: System, conn: nat)
    requires Coupled(s) && 0 <= s.at < conn < |s.tx.conns|
    ensures s.tx.conns[s.at].first + |s.rx.framed| <= s.tx.conns[conn].first <= |s.tx.popped|
  {
    FramedWasPopped(s);
    S.LaterStartsBeyond(s.tx, s.at, conn);
  }

  lemma TakeKeepsEmbedded(s: System, e: Event)
    requires Coupled(s) && Embedded(s) && e.Take? && Next(s, e).Some?
    ensures Embedded(Next(s, e).value)
  {
    var s' := Next(s, e).value;
    if s.at >= 0 { LaterStartsBeyond(s, e.conn); }
    assert Settled(s') == s.tx.conns[e.conn].first;
    var idx: seq<nat> :| Embeds(idx, s.rx.delivered, s.tx.popped, Settled(s));
    EmbedsMore(idx, s.rx.delivered, s.tx.popped, Settled(s), s'.tx.popped, Settled(s'));
  }

  lemma SettledWithin(s: System, first: nat)
    requires 0 <= s.at < |s.tx.conns| && first == s.tx.conns[s.at].first
    requires first + |s.rx.framed| <= |s.tx.popped|
    requires s.rx.framed == s.tx.popped[first..first + |s.rx.framed|]
    requires R.PhaseFits(s.rx)
    ensures 0 <= Settled(s) <= |s.tx.popped|
    ensures s.rx.phase.Pushing? ==> Settled(s) < |s.tx.popped| && s.tx.popped[Settled(s)] == s.rx.phase.pkt
  {
  }

  /** How far the receiver is, as long as it stays on one connection. */
  lemma SettledOn(s: System)
    requires Coupled(s) && s.at >= 0
    ensures 0 <= Settled(s) <= |s.tx.popped|
    ensures s.rx.phase.Pushing? ==> Settled(s) < |s.tx.popped| && s.tx.popped[Settled(s)] == s.rx.phase.pkt
  {
    FramedWasPopped(s);
    SettledWithin(s, s.tx.conns[s.at].first);
  }

  /** A step of the receiver settles packets in order, delivering only the next one. */
  lemma RxSettles(s: System, e: Event)
    requires s.at == -1 ==> s.rx.phase.NeedVsock? || s.rx.phase.Done?
    requires -1 <= s.at < |s.tx.conns|
    requires R.BoundaryInv(s.rx) && e.Rx? && Next(s, e).Some?
    ensures
      var s' := Next(s, e).value;
      && Settled(s) <= Settled(s')
      && (s'.rx.delivered == s.rx.delivered
          || (Settled(s) < Settled(s') && s.rx.phase.Pushing?
              && s'.rx.delivered == s.rx.delivered + [s.rx.phase.pkt]))
  {
    R.NextCuts(s.rx, e.r);
    R.NextDelivers(s.rx, e.r);
  }

  lemma RxKeepsEmbedded(s: System, e: Event)
    requires Coupled(s) && Embedded(s) && e.Rx? && Next(s, e).Some?
    ensures Embedded(Next(s, e).value)
  {
    var s' := Next(s, e).value;
    RxSettles(s, e);
    RxKeepsCoupled(s, e);
    if s.at >= 0 {
      SettledOn(s);
      SettledOn(s');
    }
    var idx: seq<nat> :| Embeds(idx, s.rx.delivered, s.tx.popped, Settled(s));
    if s'.rx.delivered == s.rx.delivered {
      EmbedsMore(idx, s.rx.delivered, s.tx.popped, Settled(s), s'.tx.popped, Settled(s'));
    } else {
      EmbedsNext(idx, s.rx.delivered, s.tx.popped, Settled(s), Settled(s'));
    }
  }

  lemma {:induction false} EmbeddedAlways(run: seq<Event>)
    requires After(run).Some?
    ensures Embedded(After(run).value)
  {
    if run == [] {
      assert Embeds([], [], [], 0);
    } else {
      EmbeddedAlways(run[..|run| - 1]);
      CoupledAlways(run[..|run| - 1]);
      var s, e := After(run[..|run| - 1]).value, run[|run| - 1];
      match e {
        case Tx(_) => TxKeepsEmbedded(s, e);
        case Rx(_) => RxKeepsEmbedded(s, e);
        case Take(_, _) => TakeKeepsEmbedded(s, e);
      }
    }
  }

  /**
   In every run the packets whose sink loop completed are, byte for byte and in order, some
   of the packets popped from the queue, each used at most once.
   */
  lemma EndToEnd(run: seq<Event>)
    requires After(run).Some?
    ensures
      var s := After(run).value;
      exists idx :: Embeds(idx, s.rx.delivered, s.tx.popped, |s.tx.popped|)
  {
    EmbeddedAlways(run);
    var s := After(run).value;
    var idx: seq<nat> :| Embeds(idx, s.rx.delivered, s.tx.popped, Settled(s));
    EmbedsMore(idx, s.rx.delivered, s.tx.popped, Settled(s), s.tx.popped, |s.tx.popped|);
  }

  // Streams without faults

  /** Neither the stream nor a sink fails; the queue may. */
  predicate FaultFree(run: seq<Event>) {
    forall i :: 0 <= i < |run| ==> !IsFault(run[i])
  }

  predicate IsFault(e: Event) {
    match e
    case Tx(ev) => ev.SendFailed? || (ev.Sent? && ev.chunk == [])
    case Rx(ev) => R.IsFault(ev)
    case Take(_, _) => false
  }

  predicate OneStream(s: System) {
    && |s.tx.conns| <= 1
    && s.at <= 0
    && (s.tx.phase.NeedVsock? ==> s.tx.conns == [])
    && (s.tx.conns == [] ==> s.tx.popped == [])
    && (s.tx.conns != [] ==> s.tx.conns[0].first == 0)
    && (s.tx.conns != [] && s.tx.phase.Done? ==> S.Aligned(s.tx.conns[0].bytes, s.tx.popped))
    && (s.rx.phase.NeedVsock? ==> s.at == -1)
    && (s.at == -1 ==> s.rx.framed == [])
    && R.NothingLost(s.rx)
  }

  lemma TxKeepsOneStream(s: System, e: Event)
    requires OneStream(s) && S.StreamsInv(s.tx) && e.Tx? && !IsFault(e) && Next(s, e).Some?
    ensures OneStream(Next(s, e).value)
  {
    if s.tx.conns != [] {
      assert S.Carried(s.tx, 0) == s.tx.popped;
    }
  }

  lemma RxKeepsOneStream(s: System, e: Event)
    requires OneStream(s) && Coupled(s) && !e.Tx? && !IsFault(e) && Next(s, e).Some?
    ensures OneStream(Next(s, e).value)
  {
    var ev := if e.Rx? then e.r else R.Accepted(e.handle);
    R.NextLosesNothing(s.rx, ev);
    if e.Rx? { R.NextCuts(s.rx, ev); }
  }

  lemma {:induction false} OneStreamAlways(run: seq<Event>)
    requires After(run).Some? && FaultFree(run)
    ensures OneStream(After(run).value)
  {
    if run != [] {
      var before := run[..|run| - 1];
      OneStreamAlways(before);
      CoupledAlways(before);
      var s, e := After(before).value, run[|run| - 1];
      if e.Tx? { TxKeepsOneStream(s, e); } else { RxKeepsOneStream(s, e); }
    }
  }

  /**
   Without faults, for any split into partial sends and short reads, what has been
   delivered is exactly the TCP and UDP packets among those the receiver is done with.
   */
  lemma DeliversInOrder(run: seq<Event>)
    requires After(run).Some? && FaultFree(run)
    ensures
      var s := After(run).value;
      && 0 <= Settled(s) <= |s.tx.popped|
      && AllWellFormed(s.tx.popped[..Settled(s)])
      && s.rx.delivered == Supported(s.tx.popped[..Settled(s)])
  {
    OneStreamAlways(run);
    CoupledAlways(run);
    var s := After(run).value;
    if s.at == 0 {
      FramedWasPopped(s);
      assert R.Finished(s.rx) == s.tx.popped[..Settled(s)];
    } else {
      assert R.Finished(s.rx) == s.tx.popped[..0];
    }
  }

  lemma SamePackets(ps: seq<Packet>, framed: seq<Packet>, buf: seq<Byte>)
    requires AllWellFormed(ps) && R.Framed(Flatten(ps), framed, buf)
    ensures framed == ps
  {
    RestIsPackets(ps, framed, buf);
  }

  lemma StreamHoldsAll(s: System)
    requires OneStream(s) && S.StreamsInv(s.tx) && s.tx.conns != [] && !s.tx.phase.Sending?
    ensures s.tx.conns[0].bytes == Flatten(s.tx.popped)
  {
    assert S.Carried(s.tx, 0) == s.tx.popped;
  }

  /** Once all bytes are read and no packet is in hand, every TCP and UDP packet has arrived. */
  lemma DeliversAll(run: seq<Event>)
    requires After(run).Some? && FaultFree(run)
    requires
      var s := After(run).value;
      && s.at == 0 < |s.tx.conns| && s.rx.consumed == s.tx.conns[0].bytes
      && !s.tx.phase.Sending? && !s.rx.phase.Pushing?
    ensures AllWellFormed(After(run).value.tx.popped)
    ensures After(run).value.rx.delivered == Supported(After(run).value.tx.popped)
  {
    var s := After(run).value;
    OneStreamAlways(run);
    CoupledAlways(run);
    StreamHoldsAll(s);
    SamePackets(s.tx.popped, s.rx.framed, s.rx.buf);
  }
}
