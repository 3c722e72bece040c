/**
 The driver's work functions as the patch touches them, updating the driver in place.
 Each is a run of the steps of `VirtioVsock`.
 */
module VirtioDriver {
  import opened Wrappers
  import opened Octets
  import opened VirtioVsock

  /** `virtio_transport_send_pkt_work` until the queue is empty or the ring is full. */
  function WorkAll(cfg: Config, d: Driver): Driver
    decreases |d.sendq|
  {
    if CanWork(cfg, d) then WorkAll(cfg, Work(cfg, d)) else d
  }

  /** `virtio_transport_rx_work` until the ring is empty or there is no room for replies. */
  function RxAll(cfg: Config, d: Driver, react: Pkt -> Option<Pkt>): Driver
    decreases |d.rx|
  {
    if !MoreReplies(cfg, d) then d.(armed := false)
    else if d.rx == [] then d
    else RxAll(cfg, Receive(cfg, d, react(d.rx[0])), react)
  }

  // What the work functions come to, in closed form

  /** How many packets of the send queue the TX ring has room for. */
  function Room(cfg: Config, d: Driver): nat {
    var free := if |d.tx| < cfg.tx then cfg.tx - |d.tx| else 0;
    if |d.sendq| < free then |d.sendq| else free
  }

  /**
   As much of the queue as fits is in the ring, in order; the counter has fallen by the
   replies among it, and `rx_work` is restarted if the counter fell below the ring size.
   */
  predicate Worked(cfg: Config, was: Driver, d: Driver) {
    var k := Room(cfg, was);
    && d.tx == was.tx + was.sendq[..k]
    && d.sendq == was.sendq[k..]
    && d.queuedReplies == was.queuedReplies - (if cfg.pushback then Replies(was.sendq[..k]) else 0)
    && d.armed == (was.armed || was.queuedReplies >= cfg.rx > d.queuedReplies)
    && d.rx == was.rx && d.sent == was.sent && d.got == was.got
  }

  lemma {:induction false} WorkAllExactly(cfg: Config, d: Driver)
    ensures Worked(cfg, d, WorkAll(cfg, d))
    ensures !CanWork(cfg, WorkAll(cfg, d))
    decreases |d.sendq|
  {
    if CanWork(cfg, d) {
      var next := Work(cfg, d);
      WorkAllExactly(cfg, next);
      WorkedMore(cfg, d, WorkAll(cfg, next));
    } else {
      assert d.sendq[..0] == [] && d.tx + [] == d.tx;
    }
  }

  lemma WorkedMore(cfg: Config, was: Driver, d: Driver)
    requires CanWork(cfg, was) && Worked(cfg, Work(cfg, was), d)
    ensures Worked(cfg, was, d)
  {
    var k := Room(cfg, was);
    var next := Work(cfg, was);
    assert Room(cfg, next) == k - 1;
    assert was.sendq[..k] == [was.sendq[0]] + next.sendq[..k - 1];
    RepliesTail(was.sendq[..k]);
    assert was.sendq[..k][1..] == next.sendq[..k - 1];
    Associative(was.tx, [was.sendq[0]], next.sendq[..k - 1]);
  }

  /** The reactions to packets received one after the other. */
  function Reactions(ps: seq<Pkt>, react: Pkt -> Option<Pkt>): seq<Pkt> {
    if ps == [] then []
    else (if react(ps[0]).Some? then [react(ps[0]).value] else []) + Reactions(ps[1..], react)
  }

  /** The packets taken are the first ones of the RX ring. */
  predicate Took(was: Driver, d: Driver) {
    && |d.rx| <= |was.rx|
    && d.rx == was.rx[|was.rx| - |d.rx|..]
    && d.got == was.got + was.rx[..|was.rx| - |d.rx|]
  }

  /** Packets were sent after all others, into the TX ring while nothing waits and it has room. */
  predicate Placed(cfg: Config, was: Driver, d: Driver, made: seq<Pkt>) {
    && d.sent == was.sent + made
    && d.tx + d.sendq == was.tx + was.sendq + made
    && was.tx <= d.tx && (d.tx != was.tx ==> was.sendq == [])
    && (d.sendq == was.sendq || |d.tx| >= cfg.tx || was.sendq != [])
  }

  /** The ring is empty or, stopped, there is no room for replies. */
  predicate Ended(cfg: Config, was: Driver, d: Driver) {
    if MoreReplies(cfg, d) then d.rx == [] && d.armed == was.armed else !d.armed
  }

  /** What `rx_work` does to a driver. */
  predicate Received(cfg: Config, was: Driver, d: Driver, react: Pkt -> Option<Pkt>) {
    && Took(was, d)
    && Placed(cfg, was, d, Reactions(was.rx[..|was.rx| - |d.rx|], react))
    && Ended(cfg, was, d)
  }

  lemma {:induction false} RxAllExactly(cfg: Config, d: Driver, react: Pkt -> Option<Pkt>)
    ensures Received(cfg, d, RxAll(cfg, d, react), react)
    decreases |d.rx|
  {
    if MoreReplies(cfg, d) && d.rx != [] {
      var next := Receive(cfg, d, react(d.rx[0]));
      RxAllExactly(cfg, next, react);
      ReceivedMore(cfg, d, RxAll(cfg, next, react), react);
    } else {
      assert d.rx[..0] == [];
    }
  }

  lemma PlacedMore(cfg: Config, was: Driver, p: Pkt, d: Driver, made: seq<Pkt>)
    requires Placed(cfg, VirtioVsock.SendPkt(cfg, was, p), d, made)
    ensures Placed(cfg, was, d, [p] + made)
  {
    var next := VirtioVsock.SendPkt(cfg, was, p);
    assert next.tx + next.sendq == was.tx + was.sendq + [p];
    Associative(was.tx + was.sendq, [p], made);
    Associative(was.sent, [p], made);
  }

  lemma TookMore(was: Driver, next: Driver, d: Driver)
    requires was.rx != [] && next.rx == was.rx[1..] && next.got == was.got + [was.rx[0]]
    requires Took(next, d)
    ensures Took(was, d)
    ensures was.rx[..|was.rx| - |d.rx|] == [was.rx[0]] + next.rx[..|next.rx| - |d.rx|]
  {
    var n := |was.rx| - |d.rx|;
    assert was.rx[..n] == [was.rx[0]] + next.rx[..n - 1];
    Associative(was.got, [was.rx[0]], next.rx[..n - 1]);
  }

  lemma ReactionsCons(p: Pkt, ps: seq<Pkt>, react: Pkt -> Option<Pkt>)
    ensures Reactions([p] + ps, react) == (if react(p).Some? then [react(p).value] else []) + Reactions(ps, react)
  {
    assert ([p] + ps)[1..] == ps;
  }

  lemma ReceivedMore(cfg: Config, was: Driver, d: Driver, react: Pkt -> Option<Pkt>)
    requires was.rx != [] && Received(cfg, Receive(cfg, was, react(was.rx[0])), d, react)
    ensures Received(cfg, was, d, react)
  {
    var next := Receive(cfg, was, react(was.rx[0]));
    var more := Reactions(next.rx[..|next.rx| - |d.rx|], react);
    TookMore(was, next, d);
    ReactionsCons(was.rx[0], next.rx[..|next.rx| - |d.rx|], react);
    var taken := was.(rx := was.rx[1..], got := was.got + [was.rx[0]]);
    if react(was.rx[0]).Some? {
      PlacedMore(cfg, taken, react(was.rx[0]).value, d, more);
    } else {
      assert [] + more == more;
    }
  }

  class VirtioVsockDriver {
    const cfg: Config
    var sendq: seq<Pkt>
    var tx: seq<Pkt>
    var rx: seq<Pkt>
    var queuedReplies: int
    var armed: bool
    ghost var sent: seq<Pkt>
    ghost var got: seq<Pkt>

    ghost function Abs(): Driver
      reads this
    {
      Driver(sendq, tx, rx, queuedReplies, armed, sent, got)
    }

    /** `virtio_vsock_vqs_init`. */
    constructor (cfg: Config)
      ensures this.cfg == cfg && Abs() == IDLE
    {
      this.cfg := cfg;
      sendq, tx, rx, queuedReplies, armed, sent, got := [], [], [], 0, true, [], [];
    }

    /** `virtio_transport_send_skb`: fails if the TX ring is full. */
    method SendSkb(p: Pkt) returns (ok: bool)
      modifies this`tx
      ensures ok == (|old(tx)| < cfg.tx)
      ensures tx == if ok then old(tx) + [p] else old(tx)
    {
      ok := |tx| < cfg.tx;
      if ok { tx := tx + [p]; }
    }

    method SendPkt(p: Pkt)
      modifies this
      ensures Abs() == VirtioVsock.SendPkt(cfg, old(Abs()), p)
      // past the queue if it is empty and the ring has room, else to the end of the queue
      ensures
        var fast := old(sendq) == [] && |old(tx)| < cfg.tx;
        && tx == old(tx) + (if fast then [p] else [])
        && sendq == old(sendq) + (if fast then [] else [p])
        && queuedReplies == old(queuedReplies) + (if !fast && cfg.pushback && p.reply then 1 else 0)
      ensures sent == old(sent) + [p]
      ensures rx == old(rx) && got == old(got) && armed == old(armed)
    {
      sent := sent + [p];
      var queue := sendq != [];
      if !queue {
        var ok := SendSkb(p);
        queue := !ok;
      }
      if queue {
        if cfg.pushback && p.reply { queuedReplies := queuedReplies + 1; }
        sendq := sendq + [p];
      }
    }

    method SendPktWork()
      modifies this
      ensures Abs() == WorkAll(cfg, old(Abs()))
      // all of the queue, or as much as fills the ring
      ensures Worked(cfg, old(Abs()), Abs())
      ensures sendq == [] || |tx| >= cfg.tx
    {
      WorkAllExactly(cfg, Abs());
      var restartRx := false;
      while true
        invariant WorkAll(cfg, old(Abs())) == WorkAll(cfg, Abs().(armed := armed || restartRx))
        decreases |sendq|
      {
        if sendq == [] { break; }
        var skb := sendq[0];
        sendq := sendq[1..];
        var ok := SendSkb(skb);
        if !ok {
          sendq := [skb] + sendq;
          break;
        }
        if cfg.pushback && skb.reply {
          queuedReplies := queuedReplies - 1;
          if queuedReplies + 1 == cfg.rx { restartRx := true; }
        }
      }
      if restartRx { armed := true; }
    }

    /** `virtio_transport_purge_skbs`: the number of replies among what it drops. */
    method PurgeSkbs(conn: nat) returns (cnt: nat)
      modifies this`sendq
      ensures sendq == Keep(old(sendq), conn)
      ensures cnt == Replies(old(sendq)) - Replies(sendq)
      // what is left is all that is not of the connection, in the order it had
      ensures exists at: seq<nat> :: SelectedBut(old(sendq), conn, at, sendq)
      ensures cnt == RepliesOf(old(sendq), conn)
    {
      ghost var at := KeepSelects(sendq, conn);
      KeepCountsReplies(sendq, conn);
      cnt := 0;
      var kept := [];
      for i := 0 to |sendq|
        invariant sendq == old(sendq)
        invariant kept == Keep(sendq[..i], conn)
        invariant cnt == Replies(sendq[..i]) - Replies(kept)
      {
        var skb := sendq[i];
        assert sendq[..i + 1][..i] == sendq[..i];
        if skb.conn == conn {
          assert kept + [] == kept;
          if skb.reply { cnt := cnt + 1; }
        } else {
          RepliesSnoc(kept, skb);
          kept := kept + [skb];
        }
      }
      assert sendq[..|sendq|] == sendq;
      sendq := kept;
    }

    method CancelPkt(conn: nat)
      modifies this
      ensures Abs() == Cancel(cfg, old(Abs()), conn)
      ensures exists at: seq<nat> :: SelectedBut(old(sendq), conn, at, sendq)
      ensures queuedReplies == old(queuedReplies) - (if cfg.pushback then RepliesOf(old(sendq), conn) else 0)
      ensures armed == (old(armed) || old(queuedReplies) >= cfg.rx > queuedReplies)
      ensures tx == old(tx) && rx == old(rx) && sent == old(sent) && got == old(got)
    {
      var cnt := PurgeSkbs(conn);
      if cfg.pushback && cnt != 0 {
        queuedReplies := queuedReplies - cnt;
        if queuedReplies + cnt >= cfg.rx && queuedReplies < cfg.rx { armed := true; }
      }
    }

    method RxWork(react: Pkt -> Option<Pkt>)
      modifies this
      ensures Abs() == RxAll(cfg, old(Abs()), react)
      // all of the ring, or as much as there is room for replies to
      ensures Received(cfg, old(Abs()), Abs(), react)
    {
      RxAllExactly(cfg, Abs(), react);
      while true
        invariant RxAll(cfg, old(Abs()), react) == RxAll(cfg, Abs(), react)
        decreases |rx|
      {
        if cfg.pushback && queuedReplies >= cfg.rx {
          armed := false;
          return;
        }
        if rx == [] { return; }
        var skb := rx[0];
        rx, got := rx[1..], got + [rx[0]];
        var reaction := react(skb);
        if reaction.Some? { SendPkt(reaction.value); }
      }
    }
  }

  // The work functions as runs

  lemma {:induction false} WorkAllIsRun(cfg: Config, s: System, i: Side) returns (run: seq<Event>)
    ensures AllInternal(run)
    ensures Run(cfg, s, run) == Some(s.Put(i, WorkAll(cfg, s.At(i))))
    decreases |s.At(i).sendq|
  {
    var d := s.At(i);
    if CanWork(cfg, d) {
      var t := s.Put(i, Work(cfg, d));
      var rest := WorkAllIsRun(cfg, t, i);
      run := [SendWork(i)] + rest;
      RunOne(cfg, s, SendWork(i));
      RunConcat(cfg, s, [SendWork(i)], rest);
    } else {
      run := [];
    }
  }

  lemma RunOne(cfg: Config, s: System, e: Event)
    ensures Run(cfg, s, [e]) == Next(cfg, s, e)
  {
    RunSnoc(cfg, s, [], e);
    assert [] + [e] == [e];
  }

  lemma {:induction false} RxAllIsRun(cfg: Config, s: System, i: Side, react: Pkt -> Option<Pkt>)
    returns (run: seq<Event>)
    requires s.At(i).armed
    requires forall p: Pkt :: Fits(p, react(p))
    ensures AllInternal(run)
    ensures Run(cfg, s, run) == Some(s.Put(i, RxAll(cfg, s.At(i), react)))
    decreases |s.At(i).rx|
  {
    var d := s.At(i);
    if !MoreReplies(cfg, d) {
      run := [RxPause(i)];
      RunOne(cfg, s, RxPause(i));
    } else if d.rx == [] {
      run := [];
    } else {
      var e := RxWork(i, react(d.rx[0]));
      var t := s.Put(i, Receive(cfg, d, react(d.rx[0])));
      var rest := RxAllIsRun(cfg, t, i, react);
      run := [e] + rest;
      RunOne(cfg, s, e);
      RunConcat(cfg, s, [e], rest);
    }
  }

  /** The runs of the work functions go on for as long as they can. */
  lemma WorkAllIsMaximal(cfg: Config, s: System, i: Side)
    ensures Next(cfg, s.Put(i, WorkAll(cfg, s.At(i))), SendWork(i)).None?
  {
    WorkAllExactly(cfg, s.At(i));
  }

  lemma RxAllIsMaximal(cfg: Config, s: System, i: Side, react: Pkt -> Option<Pkt>)
    ensures
      var t := s.Put(i, RxAll(cfg, s.At(i), react));
      && Next(cfg, t, RxPause(i)).None?
      && forall reaction :: Next(cfg, t, RxWork(i, reaction)).None?
  {
    RxAllExactly(cfg, s.At(i), react);
  }
}
