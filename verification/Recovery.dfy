/**
 Forwarding recovers: wherever a run has got to, as long as neither side has ended, it can
 go on so that from the next connection on everything arrives. On the way each side does
 only what its loops do after failures.
 */
module Recovery {
  import opened Wrappers
  import opened Octets
  import opened Ipv4
  import opened Forwarding
  import opened Delivery
  import S = SenderProtocol
  import R = ReceiverProtocol

  predicate Goes(s: System, run: seq<Event>, t: System) {
    From(s, run) == Some(t)
  }

  ghost predicate CanGo(s: System, t: System) {
    exists run :: Goes(s, run, t)
  }

  lemma CanGoNext(o: System, s: System, e: Event) returns (t: System)
    requires CanGo(o, s) && Next(s, e).Some?
    ensures CanGo(o, t) && Next(s, e) == Some(t)
  {
    t := Next(s, e).value;
    var run :| Goes(o, run, s);
    FromSnoc(o, run, e);
    assert Goes(o, run + [e], t);
  }

  lemma CanGoOn(o: System, s: System, t: System)
    requires CanGo(o, s) && Reaches(s, t)
    ensures CanGo(o, t)
  {
    var a :| Goes(o, a, s);
    var b :| Leads(s, b, t);
    FromConcat(o, a, b);
    assert Goes(o, a + b, t);
  }

  // The sender gets a new connection

  /** The sender is not in the middle of a message, and has a queue and a connection, or only lacks the queue. */
  predicate Free(tx: S.State) {
    && tx.conns != []
    && (tx.phase.NeedQueue? || tx.phase.Outer? || tx.phase.Inner? || tx.phase.Receiving? || tx.phase.Judging?)
  }

  predicate OnlySenderMoved(s: System, t: System) {
    t.rx == s.rx && t.at == s.at && t.tx.conns == s.tx.conns
  }

  lemma SenderReceives(o: System, s: System) returns (t: System)
    requires CanGo(o, s) && Free(s.tx)
    ensures CanGo(o, t) && OnlySenderMoved(s, t)
    ensures t.tx.phase.Receiving? && t.tx.popped == s.tx.popped
  {
    t := s;
    if t.tx.phase.NeedQueue? { t := CanGoNext(o, t, Tx(S.QueueOpened(0))); }
    if t.tx.phase.Judging? { t := CanGoNext(o, t, Tx(S.Judged(t.tx.queue, t.tx.phase.msg, S.Drop, true))); }
    if t.tx.phase.Outer? { t := CanGoNext(o, t, Tx(S.Polled(true))); }
    if t.tx.phase.Inner? { t := CanGoNext(o, t, Tx(S.Polled(true))); }
  }

  /** The connection is given up, with the message in hand or else with the next one. */
  lemma SenderLoses(o: System, s: System, x: Packet) returns (t: System)
    requires CanGo(o, s) && WellFormed(x)
    requires Free(s.tx) || (s.tx.phase.Sending? && s.tx.conns != [])
    ensures CanGo(o, t) && OnlySenderMoved(s, t) && t.tx.phase.NeedVsock?
    ensures t.tx.popped == s.tx.popped || t.tx.popped == s.tx.popped + [x]
  {
    t := s;
    if !t.tx.phase.Sending? {
      t := SenderReceives(o, t);
      t := CanGoNext(o, t, Tx(S.Popped(t.tx.queue, x)));
    }
    t := CanGoNext(o, t, Tx(S.SendFailed(t.tx.conns[|t.tx.conns| - 1].id)));
  }

  lemma SenderReopens(o: System, s: System, x: Packet) returns (t: System)
    requires CanGo(o, s) && WellFormed(x) && S.Ordered(s.tx) && !s.tx.phase.Done?
    ensures CanGo(o, t) && t.rx == s.rx && t.at == s.at
    ensures t.tx.phase == S.Inner
    ensures |t.tx.conns| == |s.tx.conns| + 1 && t.tx.conns[|s.tx.conns|].bytes == []
    ensures t.tx.popped == s.tx.popped || t.tx.popped == s.tx.popped + [x]
  {
    t := s;
    if t.tx.conns == [] && t.tx.phase.NeedQueue? {
      t := CanGoNext(o, t, Tx(S.QueueOpened(0)));
    } else if !t.tx.phase.NeedVsock? {
      t := SenderLoses(o, t, x);
    }
    t := CanGoNext(o, t, Tx(S.VsockOpened(0)));
    t := CanGoNext(o, t, Tx(S.Polled(true)));
  }

  // The receiver gets that connection

  predicate OnlyReceiverMoved(s: System, t: System) {
    t.tx == s.tx && t.at == s.at && t.rx.delivered == s.rx.delivered
  }

  /** Both sinks are open after a sink has failed, or at the start. */
  lemma SinksOpen(o: System, s: System) returns (t: System)
    requires CanGo(o, s)
    requires s.rx.phase.NeedTcp? || s.rx.phase.NeedUdp? || s.rx.phase.Outer?
    ensures CanGo(o, t) && OnlyReceiverMoved(s, t)
    ensures t.rx.phase == R.Inner
    ensures t.rx.consumed == s.rx.consumed && t.rx.buf == s.rx.buf
  {
    t := s;
    if t.rx.phase.NeedTcp? { t := CanGoNext(o, t, Rx(R.TcpOpened(0))); }
    if t.rx.phase.NeedUdp? { t := CanGoNext(o, t, Rx(R.UdpOpened(0))); }
    t := CanGoNext(o, t, Rx(R.Polled(true)));
  }

  /** The receiver drops its connection. */
  lemma ReceiverDrops(o: System, s: System) returns (t: System)
    requires CanGo(o, s) && !s.rx.phase.Done? && !s.rx.phase.Rejected?
    ensures CanGo(o, t) && OnlyReceiverMoved(s, t) && t.rx.phase.NeedVsock?
  {
    t := s;
    if t.rx.phase.Pushing? {
      t := CanGoNext(o, t, Rx(R.PushFailed(R.SinkFor(t.rx, t.rx.phase.pkt))));
    }
    if t.rx.phase.NeedTcp? || t.rx.phase.NeedUdp? || t.rx.phase.Outer? {
      t := SinksOpen(o, t);
    }
    if t.rx.phase.Inner? { t := CanGoNext(o, t, Rx(R.Polled(true))); }
    if t.rx.phase.Reading? { t := CanGoNext(o, t, Rx(R.GetFailed(t.rx.vsock))); }
  }

  lemma ReceiverReopens(o: System, s: System) returns (t: System)
    requires CanGo(o, s) && !s.rx.phase.Done? && !s.rx.phase.Rejected?
    requires -1 <= s.at < |s.tx.conns| - 1
    ensures CanGo(o, t) && t.tx == s.tx && t.at == |s.tx.conns| - 1
    ensures t.rx.phase == R.Inner && t.rx.consumed == [] && t.rx.buf == []
    ensures t.rx.delivered == s.rx.delivered
  {
    t := ReceiverDrops(o, s);
    t := CanGoNext(o, t, Take(|s.tx.conns| - 1, 0));
    t := SinksOpen(o, t);
  }

  /** What recovery needs of a state. */
  predicate Alive(s: System) {
    && S.Ordered(s.tx) && !s.tx.phase.Done?
    && !s.rx.phase.Done? && !s.rx.phase.Rejected?
    && -1 <= s.at < |s.tx.conns|
  }

  lemma NotDoneIsAlive(run: seq<Event>)
    requires After(run).Some? && !After(run).value.tx.phase.Done? && !After(run).value.rx.phase.Done?
    ensures Alive(After(run).value)
  {
    CoupledAlways(run);
    NeverRejects(run);
  }

  /** The packets have been popped, after at most one other, and have arrived. */
  predicate Forwarded(s: System, t: System, x: Packet, ps: seq<Packet>)
    requires AllWellFormed(ps)
  {
    && (t.tx.popped == s.tx.popped + ps || t.tx.popped == s.tx.popped + [x] + ps)
    && t.rx.delivered == s.rx.delivered + Supported(ps)
  }

  lemma Recovers(s: System, x: Packet, ps: seq<Packet>) returns (u: System)
    requires Alive(s) && WellFormed(x) && AllWellFormed(ps)
    ensures CanGo(s, u) && Forwarded(s, u, x, ps)
  {
    assert Goes(s, [], s);
    var t := SenderReopens(s, s, x);
    t := ReceiverReopens(s, t);
    ReachesItself(t);
    u := ForwardsAll(t, t, ps);
    CanGoOn(s, t, u);
  }

  /**
   From wherever a run has got to, any packets can be forwarded next. No more than one
   message is lost before them, with the connection that is given up.
   */
  lemma RecoversAlways(run: seq<Event>, x: Packet, ps: seq<Packet>)
    requires After(run).Some? && WellFormed(x) && AllWellFormed(ps)
    requires !After(run).value.tx.phase.Done? && !After(run).value.rx.phase.Done?
    ensures exists more ::
              && After(run + more).Some?
              && Forwarded(After(run).value, After(run + more).value, x, ps)
  {
    var s := After(run).value;
    NotDoneIsAlive(run);
    var u := Recovers(s, x, ps);
    var more :| Goes(s, more, u);
    FromStart(run, more);
  }
}
