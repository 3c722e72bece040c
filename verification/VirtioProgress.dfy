/**
 Where runs of the two drivers end. Left to themselves they always stop; without the
 pushback they stop only when everything has been delivered, with it they may also stop
 in a deadlock, which is reachable for every ring size and never dissolves.
 */
module VirtioProgress {
  import opened Wrappers
  import opened VirtioVsock

  predicate Drained(s: System) {
    && s.parent.sendq == s.parent.tx == s.parent.rx == []
    && s.enclave.sendq == s.enclave.tx == s.enclave.rx == []
  }

  /** Both rings are full, and as many replies wait in the queue as the RX ring holds. */
  predicate Clogged(cfg: Config, d: Driver) {
    && cfg.pushback
    && |d.tx| == cfg.tx
    && |d.rx| == cfg.rx
    && d.queuedReplies == cfg.rx
    && !d.armed
  }

  predicate Deadlocked(cfg: Config, s: System) {
    Clogged(cfg, s.parent) && Clogged(cfg, s.enclave)
  }

  /** No step of the drivers or of the device is possible. */
  ghost predicate Stuck(cfg: Config, s: System) {
    forall e :: Internal(e) ==> Next(cfg, s, e).None?
  }

  // Every run stops

  /** An upper bound of the steps still to be made for the packets of `q`. */
  function Load(q: seq<Pkt>, each: int): int {
    each * |q| - 6 * Replies(q)
  }

  function Weight(d: Driver): int {
    Load(d.sendq, 12) + Load(d.tx, 10) + Load(d.rx, 8) + (if d.armed then 1 else 0)
  }

  function TotalWeight(s: System): int {
    Weight(s.parent) + Weight(s.enclave)
  }

  lemma LoadSnoc(q: seq<Pkt>, p: Pkt, each: int)
    ensures Load(q + [p], each) == Load(q, each) + each - (if p.reply then 6 else 0)
  {
    RepliesSnoc(q, p);
  }

  lemma LoadTail(q: seq<Pkt>, each: int)
    requires q != []
    ensures Load(q[1..], each) == Load(q, each) - each + (if q[0].reply then 6 else 0)
  {
    RepliesTail(q);
  }

  lemma {:induction false} LoadNonNegative(q: seq<Pkt>, each: int)
    requires each >= 6
    ensures Load(q, each) >= 0
    decreases |q|
  {
    if q != [] {
      LoadNonNegative(q[..|q| - 1], each);
      assert q[..|q| - 1] + [q[|q| - 1]] == q;
      LoadSnoc(q[..|q| - 1], q[|q| - 1], each);
    }
  }

  lemma WeightNonNegative(s: System)
    ensures TotalWeight(s) >= 0
  {
    LoadNonNegative(s.parent.sendq, 12);
    LoadNonNegative(s.parent.tx, 10);
    LoadNonNegative(s.parent.rx, 8);
    LoadNonNegative(s.enclave.sendq, 12);
    LoadNonNegative(s.enclave.tx, 10);
    LoadNonNegative(s.enclave.rx, 8);
  }

  lemma WorkWeighsLess(cfg: Config, d: Driver)
    requires CanWork(cfg, d)
    ensures Weight(Work(cfg, d)) < Weight(d)
  {
    LoadTail(d.sendq, 12);
    LoadSnoc(d.tx, d.sendq[0], 10);
  }

  lemma SendReplyWeight(cfg: Config, d: Driver, p: Pkt)
    requires p.reply
    ensures Weight(SendPkt(cfg, d, p)) <= Weight(d) + 6
  {
    LoadSnoc(d.sendq, p, 12);
    LoadSnoc(d.tx, p, 10);
  }

  lemma ReceiveWeighsLess(cfg: Config, d: Driver, reaction: Option<Pkt>)
    requires d.rx != [] && Fits(d.rx[0], reaction)
    ensures Weight(Receive(cfg, d, reaction)) < Weight(d)
  {
    LoadTail(d.rx, 8);
    if reaction.Some? {
      SendReplyWeight(cfg, d.(rx := d.rx[1..], got := d.got + [d.rx[0]]), reaction.value);
    }
  }

  lemma DeviceWeighsLess(d: Driver, o: Driver)
    requires d.tx != []
    ensures Weight(d.(tx := d.tx[1..])) + Weight(o.(rx := o.rx + [d.tx[0]])) < Weight(d) + Weight(o)
  {
    LoadTail(d.tx, 10);
    LoadSnoc(o.rx, d.tx[0], 8);
  }

  lemma NextWeighsLess(cfg: Config, s: System, e: Event)
    requires Internal(e) && Next(cfg, s, e).Some?
    ensures TotalWeight(Next(cfg, s, e).value) < TotalWeight(s)
  {
    var d, o := s.At(e.i), s.At(Other(e.i));
    match e
    case SendWork(i) => WorkWeighsLess(cfg, d);
    case RxWork(i, reaction) => ReceiveWeighsLess(cfg, d, reaction);
    case Device(i) => DeviceWeighsLess(d, o);
    case RxPause(i) => assert Weight(d.(armed := false)) < Weight(d);
  }

  /** With or without pushback, the number of steps is bounded by the weight. */
  lemma {:induction false} RunsAreBounded(cfg: Config, s: System, run: seq<Event>)
    requires AllInternal(run) && Run(cfg, s, run).Some?
    ensures |run| + TotalWeight(Run(cfg, s, run).value) <= TotalWeight(s)
    ensures |run| <= TotalWeight(s)
    decreases |run|
  {
    if run != [] {
      var before := run[..|run| - 1];
      RunsAreBounded(cfg, s, before);
      NextWeighsLess(cfg, Run(cfg, s, before).value, run[|run| - 1]);
    }
    WeightNonNegative(Run(cfg, s, run).value);
  }

  // What a stuck system looks like

  lemma StuckMeans(cfg: Config, s: System, i: Side)
    requires Stuck(cfg, s) && Counted(cfg, s)
    ensures !CanWork(cfg, s.At(i))
    ensures s.At(i).tx != [] ==> |s.At(Other(i)).rx| == cfg.rx
    ensures !CanReceive(cfg, s.At(i))
    ensures !CanPause(cfg, s.At(i))
  {
    assert Next(cfg, s, SendWork(i)).None?;
    assert Next(cfg, s, Device(i)).None?;
    assert Next(cfg, s, RxWork(i, None)).None?;
    assert Next(cfg, s, RxPause(i)).None?;
  }

  /** One side that has anything to do is clogged, by way of the other. */
  lemma StuckSides(cfg: Config, s: System, i: Side)
    requires cfg.tx >= 1 && cfg.rx >= 1 && Stuck(cfg, s) && Counted(cfg, s)
    ensures
      var d, o := s.At(i), s.At(Other(i));
      && (d.sendq != [] ==> |d.tx| == cfg.tx)
      && (d.tx != [] ==> |o.rx| == cfg.rx)
      && (d.rx != [] ==> cfg.pushback && d.queuedReplies == cfg.rx && !d.armed && d.sendq != [])
  {
    StuckMeans(cfg, s, i);
  }

  lemma DeadlockIsStuck(cfg: Config, s: System)
    requires Deadlocked(cfg, s) || (Drained(s) && Counted(cfg, s) && cfg.rx >= 1)
    ensures Stuck(cfg, s)
  {
  }

  /** A reachable system cannot step exactly if all is delivered or both sides are clogged. */
  lemma StuckExactly(cfg: Config, s: System)
    requires cfg.tx >= 1 && cfg.rx >= 1 && Counted(cfg, s)
    ensures Stuck(cfg, s) <==> Drained(s) || Deadlocked(cfg, s)
  {
    if Stuck(cfg, s) {
      StuckSides(cfg, s, Parent);
      StuckSides(cfg, s, Enclave);
    } else if Drained(s) || Deadlocked(cfg, s) {
      DeadlockIsStuck(cfg, s);
    }
  }

  lemma {:induction false} NoPurgeInternal(a: seq<Event>, b: seq<Event>)
    requires forall i :: 0 <= i < |a| ==> !a[i].Purge?
    requires AllInternal(b)
    ensures forall i :: 0 <= i < |a + b| ==> !(a + b)[i].Purge?
  {
    forall i | 0 <= i < |a + b| ensures !(a + b)[i].Purge? {
      if i >= |a| { assert (a + b)[i] == b[i - |a|]; }
    }
  }

  /**
   Without the pushback every maximal run drains both queues and all rings, and each side
   has then received exactly what the other sent, in order.
   */
  lemma {:induction false} PatchedAlwaysDrains(cfg: Config, past: seq<Event>, run: seq<Event>)
    requires cfg.tx >= 1 && cfg.rx >= 1 && !cfg.pushback
    requires forall i :: 0 <= i < |past| ==> !past[i].Purge?
    requires AllInternal(run) && Run(cfg, START, past + run).Some?
    requires Stuck(cfg, Run(cfg, START, past + run).value)
    ensures
      var t := Run(cfg, START, past + run).value;
      && Drained(t)
      && t.enclave.got == t.parent.sent
      && t.parent.got == t.enclave.sent
  {
    NoPurgeInternal(past, run);
    CountedAlways(cfg, past + run);
    ConservedAlways(cfg, past + run);
    StuckExactly(cfg, Run(cfg, START, past + run).value);
  }

  /** With the pushback a maximal run ends drained or deadlocked, and nowhere else. */
  lemma {:induction false} UnpatchedDrainsOrDeadlocks(cfg: Config, run: seq<Event>)
    requires cfg.tx >= 1 && cfg.rx >= 1 && cfg.pushback
    requires Run(cfg, START, run).Some? && Stuck(cfg, Run(cfg, START, run).value)
    ensures Drained(Run(cfg, START, run).value) || Deadlocked(cfg, Run(cfg, START, run).value)
  {
    CountedAlways(cfg, run);
    StuckExactly(cfg, Run(cfg, START, run).value);
  }

  // The deadlock is for ever

  /** Unless a connection is cancelled, nothing is ever received again. */
  lemma {:induction false} DeadlockStays(cfg: Config, s: System, run: seq<Event>)
    requires Deadlocked(cfg, s) && Run(cfg, s, run).Some?
    requires forall i :: 0 <= i < |run| ==> !run[i].Purge?
    ensures
      var t := Run(cfg, s, run).value;
      Deadlocked(cfg, t) && t.parent.got == s.parent.got && t.enclave.got == s.enclave.got
    decreases |run|
  {
    if run != [] {
      var before, e := run[..|run| - 1], run[|run| - 1];
      DeadlockStays(cfg, s, before);
      var t := Run(cfg, s, before).value;
      DeadlockIsStuck(cfg, t);
      assert Internal(e) ==> Next(cfg, t, e).None?;
    }
  }

  // The deadlock is reachable

  const REQUEST := Pkt(0, false, 0)
  const REPLY := Pkt(0, true, 0)

  predicate AllRequests(q: seq<Pkt>) {
    forall i :: 0 <= i < |q| ==> !q[i].reply
  }

  /** `a` requests and then `b` replies are queued, the TX ring is full, `c` requests came in. */
  predicate Shape(cfg: Config, d: Driver, a: nat, b: nat, c: nat) {
    && |d.sendq| == a + b
    && AllRequests(d.sendq[..a])
    && (forall i :: a <= i < a + b ==> d.sendq[i].reply)
    && |d.tx| == cfg.tx && AllRequests(d.tx)
    && |d.rx| == c && AllRequests(d.rx)
    && d.queuedReplies == b
    && d.armed
  }

  ghost predicate Reaches(cfg: Config, s: System, t: System) {
    exists run :: Leads(cfg, s, run, t)
  }

  predicate Leads(cfg: Config, s: System, run: seq<Event>, t: System) {
    && Run(cfg, s, run) == Some(t)
    && forall i :: 0 <= i < |run| ==> !run[i].Purge?
  }

  lemma ReachesSelf(cfg: Config, s: System)
    ensures Reaches(cfg, s, s)
  {
    assert Leads(cfg, s, [], s);
  }

  lemma ReachesNext(cfg: Config, s: System, t: System, e: Event)
    requires Reaches(cfg, s, t) && Next(cfg, t, e).Some? && !e.Purge?
    ensures Reaches(cfg, s, Next(cfg, t, e).value)
  {
    var run :| Leads(cfg, s, run, t);
    RunSnoc(cfg, s, run, e);
    assert Leads(cfg, s, run + [e], Next(cfg, t, e).value);
  }

  /** `k` requests are sent by side `i`, which has room for the first `cfg.tx` of them. */
  lemma {:induction false} Fill(cfg: Config, s: System, i: Side, k: nat) returns (t: System)
    requires cfg.tx >= 1 && cfg.pushback && Reaches(cfg, START, s) && s.At(i) == IDLE
    ensures Reaches(cfg, START, t)
    ensures t.At(Other(i)) == s.At(Other(i))
    ensures
      var d := t.At(i);
      && AllRequests(d.sendq) && AllRequests(d.tx) && d.rx == [] && d.queuedReplies == 0 && d.armed
      && |d.sendq| + |d.tx| == k && |d.tx| == if k < cfg.tx then k else cfg.tx
  {
    if k == 0 {
      t := s;
    } else {
      var u := Fill(cfg, s, i, k - 1);
      ReachesNext(cfg, START, u, App(i, REQUEST));
      t := Next(cfg, u, App(i, REQUEST)).value;
    }
  }

  /** One packet moves from side `i` to the other, and a queued request takes its place. */
  lemma Pass(cfg: Config, s: System, i: Side, a: nat, b: nat, c: nat, a': nat, b': nat, c': nat)
    returns (t: System)
    requires cfg.tx >= 1 && cfg.pushback && Reaches(cfg, START, s)
    requires Shape(cfg, s.At(i), a, b, c) && Shape(cfg, s.At(Other(i)), a', b', c')
    requires a > 0 && c' < cfg.rx
    ensures Reaches(cfg, START, t)
    ensures Shape(cfg, t.At(i), a - 1, b, c) && Shape(cfg, t.At(Other(i)), a', b', c' + 1)
  {
    ReachesNext(cfg, START, s, Device(i));
    var u := Next(cfg, s, Device(i)).value;
    ReachesNext(cfg, START, u, SendWork(i));
    t := Next(cfg, u, SendWork(i)).value;
    PassShape(cfg, s.At(i), a, b, c);
  }

  lemma PassShape(cfg: Config, d: Driver, a: nat, b: nat, c: nat)
    requires Shape(cfg, d, a, b, c) && a > 0 && cfg.tx >= 1
    ensures Shape(cfg, Work(cfg, d.(tx := d.tx[1..])), a - 1, b, c)
  {
    assert !d.sendq[..a][0].reply;
    assert d.sendq[1..][..a - 1] == d.sendq[..a][1..];
  }

  /** Side `i` answers a request, and the answer has to be queued. */
  lemma Answer(cfg: Config, s: System, i: Side, a: nat, b: nat, c: nat) returns (t: System)
    requires cfg.tx >= 1 && cfg.pushback && Reaches(cfg, START, s)
    requires Shape(cfg, s.At(i), a, b, c) && c > 0 && b < cfg.rx
    ensures Reaches(cfg, START, t)
    ensures Shape(cfg, t.At(i), a, b + 1, c - 1) && t.At(Other(i)) == s.At(Other(i))
  {
    ReachesNext(cfg, START, s, RxWork(i, Some(REPLY)));
    t := Next(cfg, s, RxWork(i, Some(REPLY))).value;
    assert t.At(i).sendq[..a] == s.At(i).sendq[..a];
  }

  /** Each side passes a request to the other, and both answer. */
  lemma Exchange(cfg: Config, s: System, a: nat, b: nat) returns (t: System)
    requires cfg.tx >= 1 && cfg.pushback && Reaches(cfg, START, s) && a > 0 && b < cfg.rx
    requires Shape(cfg, s.parent, a, b, 0) && Shape(cfg, s.enclave, a, b, 0)
    ensures Reaches(cfg, START, t)
    ensures Shape(cfg, t.parent, a - 1, b + 1, 0) && Shape(cfg, t.enclave, a - 1, b + 1, 0)
  {
    t := Pass(cfg, s, Parent, a, b, 0, a, b, 0);
    t := Pass(cfg, t, Enclave, a, b, 1, a - 1, b, 0);
    t := Answer(cfg, t, Enclave, a - 1, b, 1);
    t := Answer(cfg, t, Parent, a - 1, b, 1);
  }

  lemma Filled(cfg: Config) returns (t: System)
    requires cfg.tx >= 1 && cfg.pushback
    ensures Reaches(cfg, START, t)
    ensures Shape(cfg, t.parent, 2 * cfg.rx, 0, 0) && Shape(cfg, t.enclave, 2 * cfg.rx, 0, 0)
  {
    ReachesSelf(cfg, START);
    t := Fill(cfg, START, Parent, cfg.tx + 2 * cfg.rx);
    t := Fill(cfg, t, Enclave, cfg.tx + 2 * cfg.rx);
    assert t.parent.sendq[..2 * cfg.rx] == t.parent.sendq;
    assert t.enclave.sendq[..2 * cfg.rx] == t.enclave.sendq;
  }

  /** `a` requests and `b` replies are queued on both sides, and the RX rings are empty. */
  ghost predicate BothQueue(cfg: Config, t: System, a: nat, b: nat) {
    Reaches(cfg, START, t) && Shape(cfg, t.parent, a, b, 0) && Shape(cfg, t.enclave, a, b, 0)
  }

  lemma ExchangeOne(cfg: Config, s: System, a: nat, b: nat) returns (t: System)
    requires cfg.tx >= 1 && cfg.pushback && b < cfg.rx && BothQueue(cfg, s, a + 1, b)
    ensures BothQueue(cfg, t, a, b + 1)
  {
    t := Exchange(cfg, s, a + 1, b);
  }

  /** `b` replies are queued on both sides, by induction on `b`. */
  lemma {:induction false} QueueReplies(cfg: Config, a: nat, b: nat) returns (t: System)
    requires cfg.tx >= 1 && cfg.pushback && b <= cfg.rx && a + b == 2 * cfg.rx
    ensures BothQueue(cfg, t, a, b)
    decreases b
  {
    if b == 0 {
      t := Filled(cfg);
    } else {
      var u := QueueReplies(cfg, a + 1, b - 1);
      t := ExchangeOne(cfg, u, a, b - 1);
    }
  }

  /** Then `c` requests come to lie in both RX rings, by induction on `c`. */
  lemma {:induction false} FillRings(cfg: Config, c: nat) returns (t: System)
    requires cfg.tx >= 1 && cfg.pushback && c <= cfg.rx
    ensures Reaches(cfg, START, t)
    ensures Shape(cfg, t.parent, cfg.rx - c, cfg.rx, c) && Shape(cfg, t.enclave, cfg.rx - c, cfg.rx, c)
  {
    if c == 0 {
      t := QueueReplies(cfg, cfg.rx, cfg.rx);
    } else {
      var a := cfg.rx - c;
      t := FillRings(cfg, c - 1);
      t := Pass(cfg, t, Parent, a + 1, cfg.rx, c - 1, a + 1, cfg.rx, c - 1);
      t := Pass(cfg, t, Enclave, a + 1, cfg.rx, c, a, cfg.rx, c - 1);
    }
  }

  /** With the pushback a deadlock can be reached, whatever the ring sizes. */
  lemma DeadlockReachable(cfg: Config)
    requires cfg.tx >= 1 && cfg.rx >= 1 && cfg.pushback
    ensures exists t :: Reaches(cfg, START, t) && Deadlocked(cfg, t) && Stuck(cfg, t)
                        && Replies(t.parent.sendq) == Replies(t.enclave.sendq) == cfg.rx
  {
    var t := FillRings(cfg, cfg.rx);
    ReachesNext(cfg, START, t, RxPause(Parent));
    t := Next(cfg, t, RxPause(Parent)).value;
    ReachesNext(cfg, START, t, RxPause(Enclave));
    t := Next(cfg, t, RxPause(Enclave)).value;
    DeadlockIsStuck(cfg, t);
    var run :| Leads(cfg, START, run, t);
    CountedAlways(cfg, run);
  }
}
