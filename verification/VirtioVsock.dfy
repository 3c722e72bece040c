/**
 Two virtual machines joined back to back by virtio vsock drivers, before and after the
 removal of the `queued_replies` pushback. Each driver has an unbounded send queue, a TX
 ring and an RX ring; the device moves packets from one driver's TX ring to the other's
 RX ring. Every loop round of the driver's work functions is one step.
 */
module VirtioVsock {
  import opened Wrappers

  datatype Pkt = Pkt(conn: nat, reply: bool, body: int)

  /** Ring sizes, and whether the driver still has the pushback. */
  datatype Config = Config(tx: nat, rx: nat, pushback: bool)

  /**
   `armed` is false while `rx_work` has stopped for want of room for replies and nothing
   has restarted it. `sent` and `got` are all packets handed to `send_pkt` and all
   packets received so far.
   */
  datatype Driver = Driver(
    sendq: seq<Pkt>,
    tx: seq<Pkt>,
    rx: seq<Pkt>,
    queuedReplies: int,
    armed: bool,
    sent: seq<Pkt>,
    got: seq<Pkt>)

  const IDLE := Driver([], [], [], 0, true, [], [])

  // The driver's functions

  /** `virtio_transport_more_replies`. */
  predicate MoreReplies(cfg: Config, d: Driver) {
    cfg.pushback ==> d.queuedReplies < cfg.rx
  }

  /** `virtio_transport_send_pkt`: the fast path into the ring, or the queue. */
  function SendPkt(cfg: Config, d: Driver, p: Pkt): Driver {
    if d.sendq != [] || |d.tx| >= cfg.tx then
      d.(sendq := d.sendq + [p],
         queuedReplies := if cfg.pushback && p.reply then d.queuedReplies + 1 else d.queuedReplies,
         sent := d.sent + [p])
    else
      d.(tx := d.tx + [p], sent := d.sent + [p])
  }

  predicate CanWork(cfg: Config, d: Driver) {
    d.sendq != [] && |d.tx| < cfg.tx
  }

  /** One round of `virtio_transport_send_pkt_work` that finds room in the ring. */
  function Work(cfg: Config, d: Driver): Driver
    requires CanWork(cfg, d)
  {
    var p := d.sendq[0];
    var counted := cfg.pushback && p.reply;
    d.(sendq := d.sendq[1..],
       tx := d.tx + [p],
       queuedReplies := if counted then d.queuedReplies - 1 else d.queuedReplies,
       armed := d.armed || (counted && d.queuedReplies == cfg.rx))
  }

  predicate CanReceive(cfg: Config, d: Driver) {
    d.armed && MoreReplies(cfg, d) && d.rx != []
  }

  /** Receiving a packet may make a reply; receiving a reply makes none. */
  predicate Fits(p: Pkt, reaction: Option<Pkt>) {
    reaction.Some? ==> reaction.value.reply && !p.reply
  }

  /** One round of `virtio_transport_rx_work` that takes a packet. */
  function Receive(cfg: Config, d: Driver, reaction: Option<Pkt>): Driver
    requires d.rx != []
  {
    var taken := d.(rx := d.rx[1..], got := d.got + [d.rx[0]]);
    if reaction.Some? then SendPkt(cfg, taken, reaction.value) else taken
  }

  predicate CanPause(cfg: Config, d: Driver) {
    d.armed && !MoreReplies(cfg, d)
  }

  function Replies(q: seq<Pkt>): nat {
    if q == [] then 0 else Replies(q[..|q| - 1]) + (if q[|q| - 1].reply then 1 else 0)
  }

  function Keep(q: seq<Pkt>, conn: nat): seq<Pkt> {
    if q == [] then []
    else Keep(q[..|q| - 1], conn) + (if q[|q| - 1].conn == conn then [] else [q[|q| - 1]])
  }

  /** `virtio_transport_cancel_pkt`: drops what is queued for a connection. */
  function Cancel(cfg: Config, d: Driver, conn: nat): Driver {
    var kept := Keep(d.sendq, conn);
    var cnt := Replies(d.sendq) - Replies(kept);
    var left := d.queuedReplies - cnt;
    if cfg.pushback && cnt != 0 then
      d.(sendq := kept, queuedReplies := left,
         armed := d.armed || (left + cnt >= cfg.rx && left < cfg.rx))
    else d.(sendq := kept)
  }

  // The two drivers together

  datatype Side = Parent | Enclave

  function Other(i: Side): Side {
    if i == Parent then Enclave else Parent
  }

  datatype System = System(parent: Driver, enclave: Driver) {
    function At(i: Side): Driver {
      if i == Parent then parent else enclave
    }

    function Put(i: Side, d: Driver): System {
      if i == Parent then this.(parent := d) else this.(enclave := d)
    }
  }

  const START := System(IDLE, IDLE)

  datatype Event =
    | App(i: Side, p: Pkt)                      // an application sends
    | Purge(i: Side, conn: nat)                 // a connection is cancelled
    | SendWork(i: Side)
    | RxWork(i: Side, reaction: Option<Pkt>)
    | RxPause(i: Side)                          // `rx_work` leaves, callbacks disabled
    | Device(i: Side)                           // moves a packet away from side `i`

  predicate Internal(e: Event) {
    !e.App? && !e.Purge?
  }

  function Next(cfg: Config, s: System, e: Event): Option<System> {
    var d := s.At(e.i);
    match e
    case App(i, p) =>
      if p.reply then None else Some(s.Put(i, SendPkt(cfg, d, p)))
    case Purge(i, conn) =>
      Some(s.Put(i, Cancel(cfg, d, conn)))
    case SendWork(i) =>
      if CanWork(cfg, d) then Some(s.Put(i, Work(cfg, d))) else None
    case RxWork(i, reaction) =>
      if CanReceive(cfg, d) && Fits(d.rx[0], reaction)
      then Some(s.Put(i, Receive(cfg, d, reaction)))
      else None
    case RxPause(i) =>
      if CanPause(cfg, d) then Some(s.Put(i, d.(armed := false))) else None
    case Device(i) =>
      var to := s.At(Other(i));
      if d.tx != [] && |to.rx| < cfg.rx
      then Some(s.Put(i, d.(tx := d.tx[1..])).Put(Other(i), to.(rx := to.rx + [d.tx[0]])))
      else None
  }

  /** The system after a run that starts in `s`, if that is a possible run. */
  function Run(cfg: Config, s: System, run: seq<Event>): Option<System> {
    if run == [] then Some(s)
    else
      match Run(cfg, s, run[..|run| - 1])
      case None => None
      case Some(t) => Next(cfg, t, run[|run| - 1])
  }

  predicate AllInternal(run: seq<Event>) {
    forall i :: 0 <= i < |run| ==> Internal(run[i])
  }

  lemma RunSnoc(cfg: Config, s: System, run: seq<Event>, e: Event)
    ensures Run(cfg, s, run + [e])
            == if Run(cfg, s, run).Some? then Next(cfg, Run(cfg, s, run).value, e) else None
  {
    assert (run + [e])[..|run|] == run;
  }

  lemma {:induction false} RunConcat(cfg: Config, s: System, a: seq<Event>, b: seq<Event>)
    requires Run(cfg, s, a).Some?
    ensures Run(cfg, s, a + b) == Run(cfg, Run(cfg, s, a).value, b)
    decreases |b|
  {
    if b == [] {
      assert a + b == a;
    } else {
      RunConcat(cfg, s, a, b[..|b| - 1]);
      assert (a + b)[..|a + b| - 1] == a + b[..|b| - 1];
    }
  }

  // The counter and the wake-ups, in every run

  /** What the counter says, and that a paused driver has reason to be. */
  predicate CounterInv(cfg: Config, d: Driver) {
    && d.queuedReplies == (if cfg.pushback then Replies(d.sendq) else 0)
    && (cfg.pushback ==> d.queuedReplies <= cfg.rx)
    && (!d.armed ==> cfg.pushback && d.queuedReplies == cfg.rx)
    && |d.tx| <= cfg.tx
    && |d.rx| <= cfg.rx
  }

  lemma RepliesSnoc(q: seq<Pkt>, p: Pkt)
    ensures Replies(q + [p]) == Replies(q) + (if p.reply then 1 else 0)
  {
    assert (q + [p])[..|q|] == q;
  }

  lemma {:induction false} RepliesTail(q: seq<Pkt>)
    requires q != []
    ensures Replies(q) == (if q[0].reply then 1 else 0) + Replies(q[1..])
    decreases |q|
  {
    if |q| > 1 {
      RepliesTail(q[..|q| - 1]);
      assert q[..|q| - 1][1..] == q[1..][..|q[1..]| - 1];
    }
  }

  /** `left` is what `q` has at the ascending places `at`, which are those not of `conn`. */
  predicate SelectedBut(q: seq<Pkt>, conn: nat, at: seq<nat>, left: seq<Pkt>) {
    && |at| == |left|
    && (forall i :: 0 <= i < |at| ==> at[i] < |q| && left[i] == q[at[i]] && q[at[i]].conn != conn)
    && (forall i, j :: 0 <= i < j < |at| ==> at[i] < at[j])
    && (forall k: nat :: k < |q| && q[k].conn != conn ==> k in at)
  }

  lemma SelectedSnoc(q: seq<Pkt>, conn: nat, at: seq<nat>, left: seq<Pkt>, p: Pkt)
    requires SelectedBut(q, conn, at, left)
    ensures p.conn == conn ==> SelectedBut(q + [p], conn, at, left)
    ensures p.conn != conn ==> SelectedBut(q + [p], conn, at + [|q|], left + [p])
  {
    forall k: nat | k < |q| && q[k].conn != conn ensures k in at && k in at + [|q|] {
      var i :| 0 <= i < |at| && at[i] == k;
      assert (at + [|q|])[i] == k;
    }
    assert (at + [|q|])[|at|] == |q|;
  }

  /** Purging drops all packets of the connection and no others, and keeps the order. */
  lemma {:induction false} KeepSelects(q: seq<Pkt>, conn: nat) returns (at: seq<nat>)
    ensures SelectedBut(q, conn, at, Keep(q, conn))
    decreases |q|
  {
    if q == [] {
      at := [];
    } else {
      var before, p := q[..|q| - 1], q[|q| - 1];
      at := KeepSelects(before, conn);
      SelectedSnoc(before, conn, at, Keep(before, conn), p);
      assert before + [p] == q;
      if p.conn == conn {
        assert Keep(before, conn) + [] == Keep(before, conn);
      } else {
        at := at + [|before|];
      }
    }
  }

  function RepliesOf(q: seq<Pkt>, conn: nat): nat {
    if q == [] then 0
    else RepliesOf(q[..|q| - 1], conn) + (if q[|q| - 1].reply && q[|q| - 1].conn == conn then 1 else 0)
  }

  /** The replies that purging drops are those of the connection. */
  lemma {:induction false} KeepCountsReplies(q: seq<Pkt>, conn: nat)
    ensures Replies(q) == Replies(Keep(q, conn)) + RepliesOf(q, conn)
    decreases |q|
  {
    if q != [] {
      var last := q[|q| - 1];
      KeepCountsReplies(q[..|q| - 1], conn);
      if last.conn == conn {
        assert Keep(q, conn) == Keep(q[..|q| - 1], conn);
      } else {
        RepliesSnoc(Keep(q[..|q| - 1], conn), last);
      }
    }
  }

  lemma SendPktCounts(cfg: Config, d: Driver, p: Pkt)
    requires CounterInv(cfg, d)
    requires p.reply ==> MoreReplies(cfg, d)
    ensures CounterInv(cfg, SendPkt(cfg, d, p))
  {
    RepliesSnoc(d.sendq, p);
  }

  lemma WorkCounts(cfg: Config, d: Driver)
    requires CounterInv(cfg, d) && CanWork(cfg, d)
    ensures CounterInv(cfg, Work(cfg, d))
  {
    RepliesTail(d.sendq);
  }

  lemma CancelCounts(cfg: Config, d: Driver, conn: nat)
    requires CounterInv(cfg, d)
    ensures CounterInv(cfg, Cancel(cfg, d, conn))
  {
    KeepCountsReplies(d.sendq, conn);
  }

  predicate Counted(cfg: Config, s: System) {
    CounterInv(cfg, s.parent) && CounterInv(cfg, s.enclave)
  }

  lemma NextCounts(cfg: Config, s: System, e: Event)
    requires Counted(cfg, s) && Next(cfg, s, e).Some?
    ensures Counted(cfg, Next(cfg, s, e).value)
  {
    var d := s.At(e.i);
    match e
    case App(i, p) => SendPktCounts(cfg, d, p);
    case Purge(i, conn) => CancelCounts(cfg, d, conn);
    case SendWork(i) => WorkCounts(cfg, d);
    case RxWork(i, reaction) =>
      if reaction.Some? {
        SendPktCounts(cfg, d.(rx := d.rx[1..], got := d.got + [d.rx[0]]), reaction.value);
      }
    case _ =>
  }

  /**
   In every run the counter is the number of queued replies, it never exceeds the ring,
   and `rx_work` is stopped only while it equals the ring: no wake-up is ever missed.
   */
  lemma {:induction false} CountedAlways(cfg: Config, run: seq<Event>)
    requires Run(cfg, START, run).Some?
    ensures Counted(cfg, Run(cfg, START, run).value)
  {
    if run != [] {
      CountedAlways(cfg, run[..|run| - 1]);
      NextCounts(cfg, Run(cfg, START, run[..|run| - 1]).value, run[|run| - 1]);
    }
  }

  // Order

  /** All that `from` sent is, in order, received, in a ring, or queued. */
  predicate InOrder(from: Driver, to: Driver) {
    from.sent == to.got + to.rx + from.tx + from.sendq
  }

  predicate Conserved(s: System) {
    InOrder(s.parent, s.enclave) && InOrder(s.enclave, s.parent)
  }

  lemma SendPktOrder(cfg: Config, d: Driver, to: Driver, p: Pkt)
    requires InOrder(d, to)
    ensures InOrder(SendPkt(cfg, d, p), to)
  {
  }

  lemma WorkOrder(cfg: Config, d: Driver, to: Driver)
    requires InOrder(d, to) && CanWork(cfg, d)
    ensures InOrder(Work(cfg, d), to)
  {
    assert d.sendq == [d.sendq[0]] + d.sendq[1..];
  }

  lemma ReceiveOrder(from: Driver, to: Driver)
    requires InOrder(from, to) && to.rx != []
    ensures InOrder(from, to.(rx := to.rx[1..], got := to.got + [to.rx[0]]))
  {
    assert to.rx == [to.rx[0]] + to.rx[1..];
  }

  lemma DeviceOrder(from: Driver, to: Driver)
    requires InOrder(from, to) && from.tx != []
    ensures InOrder(from.(tx := from.tx[1..]), to.(rx := to.rx + [from.tx[0]]))
  {
    assert from.tx == [from.tx[0]] + from.tx[1..];
  }

  lemma NextConserves(cfg: Config, s: System, e: Event)
    requires Conserved(s) && !e.Purge? && Next(cfg, s, e).Some?
    ensures Conserved(Next(cfg, s, e).value)
  {
    var d, o := s.At(e.i), s.At(Other(e.i));
    match e
    case App(i, p) => SendPktOrder(cfg, d, o, p);
    case SendWork(i) => WorkOrder(cfg, d, o);
    case RxWork(i, reaction) =>
      var taken := d.(rx := d.rx[1..], got := d.got + [d.rx[0]]);
      ReceiveOrder(o, d);
      if reaction.Some? { SendPktOrder(cfg, taken, o, reaction.value); }
    case Device(i) => DeviceOrder(d, o);
    case _ =>
  }

  /** Unless connections are cancelled, no packet is lost, doubled or overtaken. */
  lemma {:induction false} ConservedAlways(cfg: Config, run: seq<Event>)
    requires Run(cfg, START, run).Some?
    requires forall i :: 0 <= i < |run| ==> !run[i].Purge?
    ensures Conserved(Run(cfg, START, run).value)
  {
    if run != [] {
      ConservedAlways(cfg, run[..|run| - 1]);
      NextConserves(cfg, Run(cfg, START, run[..|run| - 1]).value, run[|run| - 1]);
    }
  }
}
