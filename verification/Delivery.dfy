/**
 Forwarding is possible: from a state in which both sides have just opened a connection,
 every list of well-formed packets has a run without faults that forwards all of them.
 */
module Delivery {
  import opened Wrappers
  import opened Octets
  import opened Ipv4
  import opened Forwarding
  import S = SenderProtocol
  import R = ReceiverProtocol

  predicate Leads(s: System, run: seq<Event>, t: System) {
    FaultFree(run) && From(s, run) == Some(t)
  }

  /** Some run without faults leads from `s` to `t`. */
  ghost predicate Reaches(s: System, t: System) {
    exists run :: Leads(s, run, t)
  }

  lemma ReachesItself(s: System)
    ensures Reaches(s, s)
  {
    assert Leads(s, [], s);
  }

  lemma ReachesNext(s: System, t: System, e: Event) returns (u: System)
    requires Reaches(s, t) && !IsFault(e) && Next(t, e).Some?
    ensures Reaches(s, u) && Next(t, e) == Some(u)
  {
    u := Next(t, e).value;
    var run :| Leads(s, run, t);
    FromSnoc(s, run, e);
    assert Leads(s, run + [e], u);
  }

  /** Both sides are about to poll, and the receiver has read all of the newest connection. */
  predicate Level(s: System) {
    && s.at >= 0 && s.at == |s.tx.conns| - 1
    && s.tx.phase == S.Inner
    && s.rx.phase == R.Inner && s.rx.buf == []
    && s.rx.consumed == s.tx.conns[s.at].bytes
  }

  // One packet

  /** The sender after it has sent all of a packet that it popped. */
  function SentState(tx: S.State, p: Packet): S.State
    requires tx.conns != []
  {
    S.Write(tx, p).(popped := tx.popped + [p], judged := tx.judged + [p], phase := S.Inner)
  }

  /** A message popped, sent at one go, and judged. */
  lemma SenderSteps(tx: S.State, p: Packet)
    requires tx.phase == S.Inner && tx.conns != [] && p != []
    ensures
      var conn := tx.conns[|tx.conns| - 1].id;
      var popped := tx.(popped := tx.popped + [p], phase := S.Sending(p, 0));
      var sent := S.Write(popped, p).(phase := S.Judging(p));
      && S.Next(tx, S.Polled(true)) == Some(tx.(phase := S.Receiving))
      && S.Next(tx.(phase := S.Receiving), S.Popped(tx.queue, p)) == Some(popped)
      && S.Next(popped, S.Sent(conn, p)) == Some(sent)
      && S.Next(sent, S.Judged(tx.queue, p, S.Drop, true)) == Some(SentState(tx, p))
  {
    assert p[0..0 + |p|] == p;
  }

  lemma Sends(o: System, s: System, p: Packet) returns (t: System)
    requires Reaches(o, s) && Level(s) && WellFormed(p)
    ensures Reaches(o, t) && t == s.(tx := SentState(s.tx, p))
  {
    SenderSteps(s.tx, p);
    t := ReachesNext(o, s, Tx(S.Polled(true)));
    t := ReachesNext(o, t, Tx(S.Popped(s.tx.queue, p)));
    t := ReachesNext(o, t, Tx(S.Sent(s.tx.conns[s.at].id, p)));
    t := ReachesNext(o, t, Tx(S.Judged(s.tx.queue, p, S.Drop, true)));
  }

  /** The receiver after it has read a packet. */
  function ReadState(rx: R.State, p: Packet): R.State
    requires |p| >= HEADER_LEN
  {
    rx.(consumed := rx.consumed + p, framed := rx.framed + [p], buf := [],
        phase := if Forwardable(p) then R.Pushing(p, []) else R.Inner)
  }

  lemma ReadsHeader(rx: R.State, p: Packet)
    requires WellFormed(p) && rx.phase == R.Reading && rx.buf == []
    ensures
      var head := p[..HEADER_LEN];
      R.Next(rx, R.Got(rx.vsock, head))
      == Some(if |p| == HEADER_LEN then ReadState(rx, p)
              else rx.(consumed := rx.consumed + head, buf := head, phase := R.Reading))
  {
    var head := p[..HEADER_LEN];
    assert [] + head == head && head[..HEADER_LEN] == head;
    assert |p| == HEADER_LEN ==> head == p;
  }

  lemma ReadsRest(rx: R.State, p: Packet)
    requires WellFormed(p) && |p| > HEADER_LEN
    requires rx.phase == R.Reading && rx.buf == []
    ensures
      var head, rest := p[..HEADER_LEN], p[HEADER_LEN..];
      var had := rx.(consumed := rx.consumed + head, buf := head, phase := R.Reading);
      R.Next(had, R.Got(rx.vsock, rest)) == Some(ReadState(rx, p))
  {
    var head, rest := p[..HEADER_LEN], p[HEADER_LEN..];
    assert head + rest == p && head[..HEADER_LEN] == head;
    Associative(rx.consumed, head, rest);
  }

  /** The receiver reads a packet by its header, and what is left of it if anything is. */
  lemma Reads(o: System, s: System, p: Packet) returns (t: System)
    requires Reaches(o, s) && WellFormed(p)
    requires 0 <= s.at < |s.tx.conns| && s.rx.consumed + p == s.tx.conns[s.at].bytes
    requires s.rx.phase == R.Inner && s.rx.buf == []
    ensures Reaches(o, t) && t == s.(rx := ReadState(s.rx, p))
  {
    t := ReachesNext(o, s, Rx(R.Polled(true)));
    var head, rest := p[..HEADER_LEN], p[HEADER_LEN..];
    assert head + rest == p;
    Associative(s.rx.consumed, head, rest);
    ReadsHeader(t.rx, p);
    var u := t;
    t := ReachesNext(o, t, Rx(R.Got(s.rx.vsock, head)));
    if rest != [] {
      ReadsRest(u.rx, p);
      t := ReachesNext(o, t, Rx(R.Got(s.rx.vsock, rest)));
    }
  }

  lemma Pushes(o: System, s: System, p: Packet) returns (t: System)
    requires Reaches(o, s) && WellFormed(p) && s.rx.phase == R.Pushing(p, [])
    ensures Reaches(o, t)
    ensures t == s.(rx := s.rx.(delivered := s.rx.delivered + [p], phase := R.Inner))
  {
    assert p[0..0 + |p|] == p && [] + p == p;
    t := ReachesNext(o, s, Rx(R.Pushed(R.SinkFor(s.rx, p), p)));
  }

  lemma Forwards(o: System, s: System, p: Packet) returns (t: System)
    requires Reaches(o, s) && Level(s) && WellFormed(p)
    ensures Reaches(o, t) && Level(t)
    ensures t.tx.popped == s.tx.popped + [p]
    ensures t.rx.delivered == s.rx.delivered + (if Forwardable(p) then [p] else [])
  {
    t := Sends(o, s, p);
    t := Reads(o, t, p);
    if Forwardable(p) {
      t := Pushes(o, t, p);
    }
  }

  // All packets

  lemma {:induction false} ForwardsAll(o: System, s: System, ps: seq<Packet>) returns (t: System)
    requires Reaches(o, s) && Level(s) && AllWellFormed(ps)
    ensures Reaches(o, t) && Level(t)
    ensures t.tx.popped == s.tx.popped + ps
    ensures t.rx.delivered == s.rx.delivered + Supported(ps)
    decreases |ps|
  {
    if ps == [] {
      t := s;
    } else {
      var init, last := ps[..|ps| - 1], ps[|ps| - 1];
      assert ps == init + [last] && WellFormed(last);
      var u := ForwardsAll(o, s, init);
      t := Forwards(o, u, last);
    }
  }

  lemma SenderOpened() returns (s: System)
    ensures Reaches(INITIAL, s)
    ensures s == INITIAL.(tx := S.INITIAL.(phase := S.Inner, conns := [S.Conn(0, 0, [])]))
  {
    ReachesItself(INITIAL);
    s := ReachesNext(INITIAL, INITIAL, Tx(S.QueueOpened(0)));
    s := ReachesNext(INITIAL, s, Tx(S.VsockOpened(0)));
    assert s.tx.conns == [S.Conn(0, 0, [])];
    s := ReachesNext(INITIAL, s, Tx(S.Polled(true)));
  }

  lemma Opened() returns (s: System)
    ensures Reaches(INITIAL, s) && Level(s) && s.tx.popped == [] && s.rx.delivered == []
  {
    s := SenderOpened();
    s := ReachesNext(INITIAL, s, Take(0, 0));
    s := ReachesNext(INITIAL, s, Rx(R.TcpOpened(0)));
    s := ReachesNext(INITIAL, s, Rx(R.UdpOpened(0)));
    s := ReachesNext(INITIAL, s, Rx(R.Polled(true)));
  }

  /** Whatever well-formed packets are queued, a run without faults delivers all that have a sink. */
  lemma AllCanArrive(ps: seq<Packet>)
    requires AllWellFormed(ps)
    ensures exists run :: FaultFree(run) && After(run).Some?
                          && After(run).value.tx.popped == ps
                          && After(run).value.rx.delivered == Supported(ps)
  {
    var s := Opened();
    var t := ForwardsAll(INITIAL, s, ps);
    assert [] + ps == ps && [] + Supported(ps) == Supported(ps);
    var run :| Leads(INITIAL, run, t);
    FromStart([], run);
    assert [] + run == run;
  }
}
