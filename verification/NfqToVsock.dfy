/**
 The sender's two loops, over an environment whose every answer is arbitrary.
 Each method leaves a log that `SenderProtocol.After` accepts.
 */
module NfqToVsock {
  import opened Wrappers
  import opened Octets
  import opened Ipv4
  import opened Runtime
  import opened SenderProtocol
  import opened SenderHistory

  const ENOBUFS := 105

  /** A message taken from a queue; it is accepted unless told otherwise. */
  class Message {
    const payload: Packet
    var verdict: Verdict

    constructor (payload: Packet)
      ensures this.payload == payload && verdict == Accept
    {
      this.payload := payload;
      verdict := Accept;
    }

    method SetVerdict(v: Verdict)
      modifies this
      ensures verdict == v
    {
      verdict := v;
    }
  }

  /**
   The operating system and the shutdown token. `polls` is how many more polls find
   the token unset: as it is arbitrary, shutdown may come at any poll, and stays.
   */
  class Environment {
    ghost var log: seq<Event>
    var polls: nat

    constructor (polls: nat)
      ensures log == [] && this.polls == polls
    {
      log := [];
      this.polls := polls;
    }

    method IsCancelled() returns (c: bool)
      modifies this
      ensures c == (old(polls) == 0)
      ensures polls == if c then 0 else old(polls) - 1
      ensures log == old(log) + [Polled(!c)]
    {
      c := polls == 0;
      if !c { polls := polls - 1; }
      log := log + [Polled(!c)];
    }

    method NewQueue() returns (r: Result<nat, Error>)
      modifies this`log
      ensures r.Success? ==> log == old(log) + [QueueOpened(r.value)]
      ensures r.Failure? ==> r.error == Reopening && log == old(log) + [OpenFailed]
    {
      if * { r := Failure(Reopening); log := log + [OpenFailed]; return; }
      var q: nat := *;
      r := Success(q);
      log := log + [QueueOpened(q)];
    }

    method NewClientSocket() returns (r: Result<nat, Error>)
      modifies this`log
      ensures r.Success? ==> log == old(log) + [VsockOpened(r.value)]
      ensures r.Failure? ==> r.error == Reopening && log == old(log) + [OpenFailed]
    {
      if * { r := Failure(Reopening); log := log + [OpenFailed]; return; }
      var c: nat := *;
      r := Success(c);
      log := log + [VsockOpened(c)];
    }

    method Recv(queue: nat) returns (r: Result<Message, int>)
      modifies this`log
      ensures r.Success? ==>
                fresh(r.value) && r.value.verdict == Accept
                && log == old(log) + [Popped(queue, r.value.payload)]
      ensures r.Failure? ==>
                log == old(log) + [if r.error == ENOBUFS then Overflowed(queue) else PopFailed(queue)]
    {
      if * {
        var errno: int := *;
        r := Failure(errno);
        log := log + [if errno == ENOBUFS then Overflowed(queue) else PopFailed(queue)];
      } else {
        var payload: seq<Byte> := *;
        var m := new Message(payload);
        r := Success(m);
        log := log + [Popped(queue, payload)];
      }
    }

    method Send(conn: nat, bytes: seq<Byte>) returns (r: Result<nat, int>)
      modifies this`log
      ensures r.Success? ==> r.value <= |bytes| && log == old(log) + [Sent(conn, bytes[..r.value])]
      ensures r.Failure? ==> log == old(log) + [SendFailed(conn)]
    {
      if * {
        r := Failure(-1);
        log := log + [SendFailed(conn)];
      } else {
        var n: nat :| n <= |bytes|;
        r := Success(n);
        log := log + [Sent(conn, bytes[..n])];
      }
    }

    method GiveVerdict(queue: nat, m: Message) returns (ok: bool)
      modifies this`log
      ensures log == old(log) + [Judged(queue, m.payload, m.verdict, ok)]
    {
      ok := *;
      log := log + [Judged(queue, m.payload, m.verdict, ok)];
    }
  }

  /** The log is one the protocol allows, and it has got to `phase` with these resources. */
  ghost predicate At(log: seq<Event>, phase: Phase, queue: nat, conn: nat) {
    && After(log).Some?
    && After(log).value.phase == phase
    && After(log).value.queue == queue
    && Current(After(log).value, conn)
  }

  /** The phase of a sender that has sent so much of a message. */
  function SendingPhase(msg: Packet, sent: nat): Phase {
    if sent == |msg| then Judging(msg) else Sending(msg, sent)
  }

  lemma ReceiptAdvances(log: seq<Event>, queue: nat, conn: nat, msg: Packet)
    requires At(log, Receiving, queue, conn)
    ensures At(log + [Popped(queue, msg)], SendingPhase(msg, 0), queue, conn)
    ensures At(log + [Overflowed(queue)], Inner, queue, conn)
    ensures At(log + [PopFailed(queue)], NeedQueue, queue, conn)
  {
    AfterSnoc(log, Popped(queue, msg));
    AfterSnoc(log, Overflowed(queue));
    AfterSnoc(log, PopFailed(queue));
  }

  lemma SendAdvances(log: seq<Event>, queue: nat, conn: nat, msg: Packet, sent: nat, n: nat)
    requires sent < |msg| && 0 < n <= |msg| - sent
    requires At(log, Sending(msg, sent), queue, conn)
    ensures At(log + [Sent(conn, msg[sent..sent + n])], SendingPhase(msg, sent + n), queue, conn)
  {
    AfterSnoc(log, Sent(conn, msg[sent..sent + n]));
  }

  lemma SendFails(log: seq<Event>, queue: nat, conn: nat, msg: Packet, sent: nat)
    requires sent < |msg| && At(log, Sending(msg, sent), queue, conn)
    ensures At(log + [Sent(conn, [])], NeedVsock, queue, conn)
    ensures At(log + [SendFailed(conn)], NeedVsock, queue, conn)
  {
    AfterSnoc(log, Sent(conn, []));
    AfterSnoc(log, SendFailed(conn));
  }

  /** A poll has found the token set. */
  predicate Stopped(log: seq<Event>) {
    log != [] && log[|log| - 1] == Polled(false)
  }

  /** The phase in which `pump` leaves the sender. */
  function Outcome(r: Result<(), Error>): Phase {
    match r
    case Success(_) => Done(true)
    case Failure(e) => if e == IoNfq then NeedQueue else NeedVsock
  }

  /** The last event of the log is the cause of the outcome. */
  predicate Caused(log: seq<Event>, r: Result<(), Error>) {
    match r
    case Success(_) => Stopped(log)
    case Failure(e) => if e == IoNfq then QueueFailed(log) else VsockFailed(log)
  }

  lemma OutcomeIsCaused(log: seq<Event>, r: Result<(), Error>, queue: nat, conn: nat)
    requires At(log, Outcome(r), queue, conn)
    ensures Caused(log, r)
  {
    MatchesAlways(log);
  }

  class NfqToVsock {
    const env: Environment

    constructor (env: Environment)
      ensures this.env == env
    {
      this.env := env;
    }

    /** The state in which the worker has given up on opening a resource. */
    ghost predicate GaveUp()
      reads env
    {
      After(env.log).Some? && After(env.log).value.phase == Done(false)
    }

    method ReplaceQueue(ghost queue: nat, ghost conn: nat) returns (r: Result<nat, Error>)
      requires At(env.log, NeedQueue, queue, conn)
      modifies env`log
      ensures r.Success? ==> At(env.log, Outer, r.value, conn)
      ensures r.Failure? ==> r.error == Reopening && GaveUp()
    {
      ghost var before := env.log;
      r := env.NewQueue();
      AfterSnoc(before, env.log[|before|]);
    }

    method ReplaceSocket(ghost queue: nat, ghost conn: nat) returns (r: Result<nat, Error>)
      requires At(env.log, NeedVsock, queue, conn)
      modifies env`log
      ensures r.Success? ==> At(env.log, Outer, queue, r.value)
      ensures r.Failure? ==> r.error == Reopening && GaveUp()
    {
      ghost var before := env.log;
      r := env.NewClientSocket();
      AfterSnoc(before, env.log[|before|]);
    }

    /** Opens both resources. */
    method Start() returns (r: Result<(nat, nat), Error>)
      requires env.log == []
      modifies env`log
      ensures r.Success? ==> At(env.log, Outer, r.value.0, r.value.1)
      ensures r.Failure? ==> r.error == Reopening && GaveUp()
    {
      var queue := env.NewQueue();
      ghost var first := env.log[0];
      assert env.log == [first];
      AfterOne(first);
      if queue.Failure? { return Failure(queue.error); }
      var conn := env.NewClientSocket();
      ghost var second := env.log[1];
      assert env.log == [first, second];
      AfterTwo(first, second);
      if conn.Failure? { return Failure(conn.error); }
      return Success((queue.value, conn.value));
    }

    /** One poll of the token, by the outer or by the inner loop. */
    method Poll(inner: bool, ghost queue: nat, ghost conn: nat) returns (cancelled: bool)
      requires At(env.log, if inner then Inner else Outer, queue, conn)
      modifies env
      ensures At(env.log, if cancelled then Done(true) else if inner then Receiving else Inner, queue, conn)
      ensures cancelled == (old(env.polls) == 0)
      ensures env.polls == if cancelled then 0 else old(env.polls) - 1
    {
      ghost var before := env.log;
      cancelled := env.IsCancelled();
      AfterSnoc(before, Polled(!cancelled));
    }

    /** Runs from start to shutdown or to the first error that is not recovered from. */
    method Run() returns (r: Result<(), Error>)
      requires env.log == []
      modifies env
      ensures After(env.log).Some?
      ensures After(env.log).value.phase == Done(r.Success?)
      ensures r.Failure? ==> r.error == Reopening
    {
      var started := Start();
      if started.Failure? { return Failure(started.error); }
      var (queue, conn) := started.value;

      var cancelled := Poll(false, queue, conn);
      while !cancelled
        invariant At(env.log, if cancelled then Done(true) else Inner, queue, conn)
        decreases env.polls, !cancelled
      {
        var res := Pump(queue, conn);
        match res {
          case Failure(IoNfq) =>
            var replaced := ReplaceQueue(queue, conn);
            if replaced.Failure? { return Failure(replaced.error); }
            queue := replaced.value;
          case Failure(IoVsock) =>
            var replaced := ReplaceSocket(queue, conn);
            if replaced.Failure? { return Failure(replaced.error); }
            conn := replaced.value;
          case _ =>
            return res;
        }
        cancelled := Poll(false, queue, conn);
      }
      return Success(());
    }

    /** Forwards messages until shutdown or until a resource has to be replaced. */
    method Pump(queue: nat, conn: nat) returns (r: Result<(), Error>)
      requires At(env.log, Inner, queue, conn)
      modifies env
      ensures env.polls <= old(env.polls)
      ensures r.Success? || r.error == IoNfq || r.error == IoVsock
      ensures At(env.log, Outcome(r), queue, conn)
      // an overflow is not the cause of any outcome
      ensures Caused(env.log, r)
    {
      var cancelled := Poll(true, queue, conn);
      while !cancelled
        invariant env.polls <= old(env.polls)
        invariant At(env.log, if cancelled then Done(true) else Receiving, queue, conn)
        decreases env.polls, !cancelled
      {
        var received := Receive(queue, conn);
        if received.Failure? && received.error != ENOBUFS {
          r := Failure(IoNfq);
          OutcomeIsCaused(env.log, r, queue, conn);
          return;
        }
        if received.Success? {
          var message := received.value;
          message.SetVerdict(Drop);
          r := Forward(queue, conn, message);
          if r.Success? { r := Judge(queue, conn, message); }
          if r.Failure? {
            OutcomeIsCaused(env.log, r, queue, conn);
            return;
          }
        }
        cancelled := Poll(true, queue, conn);
      }
      r := Success(());
      OutcomeIsCaused(env.log, r, queue, conn);
    }

    method Receive(queue: nat, ghost conn: nat) returns (r: Result<Message, int>)
      requires At(env.log, Receiving, queue, conn)
      modifies env`log
      ensures r.Success? ==> fresh(r.value) && At(env.log, SendingPhase(r.value.payload, 0), queue, conn)
      ensures r.Failure? ==> At(env.log, if r.error == ENOBUFS then Inner else NeedQueue, queue, conn)
    {
      ghost var before := env.log;
      r := env.Recv(queue);
      ReceiptAdvances(before, queue, conn, if r.Success? then r.value.payload else []);
    }

    method Judge(queue: nat, ghost conn: nat, message: Message) returns (r: Result<(), Error>)
      requires At(env.log, Judging(message.payload), queue, conn) && message.verdict == Drop
      modifies env`log
      ensures r.Success? || r.error == IoNfq
      ensures At(env.log, if r.Success? then Inner else NeedQueue, queue, conn)
    {
      ghost var before := env.log;
      var ok := env.GiveVerdict(queue, message);
      AfterSnoc(before, env.log[|before|]);
      return if ok then Success(()) else Failure(IoNfq);
    }

    /** The sending loop of `pump`. */
    method Forward(queue: nat, conn: nat, message: Message) returns (r: Result<(), Error>)
      requires At(env.log, SendingPhase(message.payload, 0), queue, conn)
      modifies env`log
      ensures r.Success? || r.error == IoVsock
      ensures At(env.log, if r.Success? then Judging(message.payload) else NeedVsock, queue, conn)
    {
      var payload := message.payload;
      var sent := 0;
      while sent < |payload|
        invariant sent <= |payload|
        invariant At(env.log, SendingPhase(payload, sent), queue, conn)
      {
        ghost var before := env.log;
        var res := env.Send(conn, payload[sent..]);
        if res.Failure? || res.value == 0 {
          SendFails(before, queue, conn, payload, sent);
          return Failure(IoVsock);
        }
        assert payload[sent..][..res.value] == payload[sent..sent + res.value];
        SendAdvances(before, queue, conn, payload, sent, res.value);
        sent := sent + res.value;
      }
      return Success(());
    }
  }
}
