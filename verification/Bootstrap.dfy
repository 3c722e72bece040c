/**
 The bootstrap transfer: the server writes the printed record in pieces, the client
 reads it into a buffer that doubles up to a cap and stops at the end of the stream.
 */
module Bootstrap {
  import opened Wrappers
  import opened RecordJson

  const MAX_RECORD_SIZE := 0x10_0000
  const FIRST_SIZE := 4096

  datatype Error = WriteFailed | ReadFailed | TooLarge | BadRecord

  /** The shutdown token: after `polls` more polls it is found set, and stays so. */
  class ShutdownToken {
    var polls: nat
    ghost var raised: bool // a poll has found it set

    constructor (polls: nat)
      ensures this.polls == polls && !raised
    {
      this.polls := polls;
      raised := false;
    }

    method IsCancelled() returns (c: bool)
      modifies this
      ensures c == (old(polls) == 0)
      ensures polls == if c then 0 else old(polls) - 1
      ensures raised == (old(raised) || c)
    {
      c := polls == 0;
      if !c { polls := polls - 1; }
      raised := raised || c;
    }
  }

  /** The server's end of the stream. */
  class ServerSocket {
    var written: string
    ghost var failed: bool // a write failed or took nothing
    ghost var writes: nat

    constructor ()
      ensures written == "" && !failed && writes == 0
    {
      written := "";
      failed := false;
      writes := 0;
    }

    method Write(bytes: string) returns (r: Result<nat, ()>)
      modifies this
      ensures r.Success? ==> r.value <= |bytes| && written == old(written) + bytes[..r.value]
      ensures r.Failure? ==> written == old(written)
      ensures failed == (old(failed) || r.Failure? || r.value == 0)
      ensures writes == old(writes) + 1
    {
      writes := writes + 1;
      if * {
        failed := true;
        return Failure(());
      }
      var n: nat :| n <= |bytes|;
      written := written + bytes[..n];
      failed := failed || n == 0;
      return Success(n);
    }
  }

  /** The size of the buffer and of the free part of it, at one read. */
  datatype Ask = Ask(buffer: nat, free: nat)

  /** The client's end of the stream, which holds `data` until its end. */
  class ClientSocket {
    const data: string
    var pos: nat
    ghost var failed: bool
    ghost var asked: seq<Ask>

    constructor (data: string)
      ensures this.data == data && pos == 0 && !failed && asked == []
    {
      this.data := data;
      pos := 0;
      failed := false;
      asked := [];
    }

    /** One `read` into `buf[lo..]`; it gives 0 at the end, and for want of room. */
    method Read(buf: array<char>, lo: nat) returns (r: Result<nat, ()>)
      requires lo <= buf.Length && pos <= |data|
      modifies this, buf
      ensures asked == old(asked) + [Ask(buf.Length, buf.Length - lo)]
      ensures buf[..lo] == old(buf[..lo])
      ensures r.Failure? ==> failed && pos == old(pos)
      ensures r.Success? ==>
                && failed == old(failed)
                && pos == old(pos) + r.value <= |data|
                && lo + r.value <= buf.Length
                && buf[lo..lo + r.value] == data[old(pos)..pos]
                && (r.value == 0 <==> lo == buf.Length || old(pos) == |data|)
    {
      asked := asked + [Ask(buf.Length, buf.Length - lo)];
      if * {
        failed := true;
        return Failure(());
      }
      var n: nat := 0;
      if lo < buf.Length && pos < |data| {
        n :| 0 < n <= buf.Length - lo && n <= |data| - pos;
        forall i | lo <= i < lo + n { buf[i] := data[pos + i - lo]; }
      }
      pos := pos + n;
      return Success(n);
    }
  }

  /** Sends `info`; on shutdown it stops early and still succeeds. */
  method Serve(socket: ServerSocket, token: ShutdownToken, info: string) returns (r: Result<nat, Error>)
    modifies socket, token
    ensures old(socket.written) <= socket.written <= old(socket.written) + info
    ensures r.Failure? ==> r.error == WriteFailed && socket.failed
    ensures r.Success? ==>
              && r.value <= |info|
              && socket.written == old(socket.written) + info[..r.value]
              && (r.value == |info| || token.raised)
    ensures r.Success? ==> socket.failed == old(socket.failed)
    ensures old(token.raised) ==> token.raised
    // there is one write for each poll that finds the token unset, and none otherwise
    ensures socket.writes - old(socket.writes) == old(token.polls) - token.polls
  {
    var pos := 0;
    while pos < |info|
      invariant pos <= |info|
      invariant socket.writes - old(socket.writes) == old(token.polls) - token.polls
      invariant socket.written == old(socket.written) + info[..pos]
      invariant socket.failed == old(socket.failed)
      invariant old(token.raised) ==> token.raised
    {
      var cancelled := token.IsCancelled();
      if cancelled { break; }
      var wrote := socket.Write(info[pos..]);
      if wrote.Failure? || wrote.value == 0 {
        assert info[pos..][..0] == "";
        return Failure(WriteFailed);
      }
      assert info[..pos] + info[pos..][..wrote.value] == info[..pos + wrote.value];
      pos := pos + wrote.value;
    }
    return Success(pos);
  }

  /** The sizes that the client's buffer goes through. */
  function BufferSize(k: nat): (n: nat)
    ensures n >= FIRST_SIZE
  {
    if k == 0 then FIRST_SIZE else 2 * BufferSize(k - 1)
  }

  predicate IsBufferSize(n: nat) {
    exists k: nat :: k <= 8 && n == BufferSize(k)
  }

  /** Every read had room in a buffer of one of the sizes. */
  predicate AllHadRoom(asked: seq<Ask>) {
    forall i :: 0 <= i < |asked| ==> asked[i].free > 0 && IsBufferSize(asked[i].buffer)
  }

  lemma BufferSizes()
    ensures BufferSize(8) == MAX_RECORD_SIZE
    ensures forall k: nat :: k < 8 ==> BufferSize(k) < MAX_RECORD_SIZE && 2 * BufferSize(k) <= MAX_RECORD_SIZE
  {
    assert BufferSize(1) == 8192;
    assert BufferSize(2) == 16384;
    assert BufferSize(3) == 32768;
    assert BufferSize(4) == 65536;
    assert BufferSize(5) == 131072;
    assert BufferSize(6) == 262144;
    assert BufferSize(7) == 524288;
    assert BufferSize(8) == MAX_RECORD_SIZE;
  }

  /** `buf.resize`. */
  method Resize(buf: array<char>, size: nat) returns (bigger: array<char>)
    requires buf.Length <= size
    ensures fresh(bigger) && bigger.Length == size
    ensures bigger[..buf.Length] == buf[..]
  {
    bigger := new char[size](_ => 0 as char);
    forall i | 0 <= i < buf.Length { bigger[i] := buf[i]; }
  }

  /** Doubles the buffer, up to the cap. */
  method Grow(buf: array<char>, ghost k: nat) returns (bigger: array<char>)
    requires k <= 8 && buf.Length == BufferSize(k) < MAX_RECORD_SIZE
    ensures fresh(bigger) && k + 1 <= 8 && bigger.Length == BufferSize(k + 1) > buf.Length
    ensures bigger[..buf.Length] == buf[..]
  {
    BufferSizes();
    var size := if buf.Length * 2 <= MAX_RECORD_SIZE then buf.Length * 2 else MAX_RECORD_SIZE;
    bigger := Resize(buf, size);
  }

  /** One read that finds room; 0 is the end of the stream. */
  method ReadMore(socket: ClientSocket, buf: array<char>, read: nat) returns (r: Result<nat, ()>)
    requires read < buf.Length && read == socket.pos <= |socket.data|
    requires buf[..read] == socket.data[..read]
    modifies socket, buf
    ensures socket.asked == old(socket.asked) + [Ask(buf.Length, buf.Length - read)]
    ensures r.Failure? ==> socket.failed
    ensures r.Success? ==>
              && socket.failed == old(socket.failed)
              && socket.pos == read + r.value <= |socket.data|
              && read + r.value <= buf.Length
              && buf[..read + r.value] == socket.data[..read + r.value]
              && (r.value == 0 <==> read == |socket.data|)
  {
    ghost var had := buf[..read];
    r := socket.Read(buf, read);
    if r.Success? {
      assert buf[..read + r.value] == had + buf[read..read + r.value];
    }
  }

  /** Receives until the end of the stream, or until shutdown. */
  method Receive(socket: ClientSocket, token: ShutdownToken) returns (r: Result<string, Error>)
    requires socket.pos == 0 && socket.asked == []
    modifies socket, token
    // every read had room, so reading nothing meant the end of the stream
    ensures AllHadRoom(socket.asked)
    ensures r.Success? ==>
              && r.value <= socket.data
              && (token.raised || (r.value == socket.data && |socket.data| < MAX_RECORD_SIZE))
              && socket.failed == old(socket.failed)
    ensures r.Failure? ==> r.error == TooLarge || r.error == ReadFailed
    ensures r == Failure(TooLarge) ==> |socket.data| >= MAX_RECORD_SIZE
    ensures r == Failure(ReadFailed) ==> socket.failed
    // there is one read for each poll that finds the token unset, but for a buffer at its limit
    ensures |socket.asked| + (if r == Failure(TooLarge) then 1 else 0) == old(token.polls) - token.polls
  {
    var buf := new char[FIRST_SIZE](_ => 0 as char);
    var read := 0;
    ghost var k: nat := 0;
    var cancelled := token.IsCancelled();
    while !cancelled
      invariant read <= buf.Length && fresh(buf)
      invariant k <= 8 && buf.Length == BufferSize(k)
      invariant read == socket.pos <= |socket.data|
      invariant buf[..read] == socket.data[..read]
      invariant socket.failed == old(socket.failed)
      invariant cancelled ==> token.raised
      invariant |socket.asked| + (if cancelled then 0 else 1) == old(token.polls) - token.polls
      invariant AllHadRoom(socket.asked)
      decreases token.polls, !cancelled
    {
      if read == buf.Length {
        if buf.Length >= MAX_RECORD_SIZE { return Failure(TooLarge); }
        buf := Grow(buf, k);
        k := k + 1;
      }
      var count := ReadMore(socket, buf, read);
      if count.Failure? { return Failure(ReadFailed); }
      if count.value == 0 { break; }
      read := read + count.value;
      cancelled := token.IsCancelled();
    }
    return Success(buf[..read]);
  }

  /** `get`, but for opening the connection. */
  method Get(socket: ClientSocket, token: ShutdownToken) returns (r: Result<Record, Error>)
    requires socket.pos == 0 && socket.asked == []
    modifies socket, token
    ensures r.Success? ==> exists n :: 0 <= n <= |socket.data| && Parse(socket.data[..n]) == Some(r.value)
    ensures !token.raised && !socket.failed ==>
              (r.Success? <==> |socket.data| < MAX_RECORD_SIZE && Parse(socket.data).Some?)
  {
    var received := Receive(socket, token);
    if received.Failure? { return Failure(received.error); }
    var parsed := Parse(received.value);
    assert received.value == socket.data[..|received.value|];
    if parsed.None? { return Failure(BadRecord); }
    return Success(parsed.value);
  }

  /** What parses of a text that parses is all of it. */
  lemma OnlyTheWholeParses(whole: string, part: string)
    requires part <= whole && Parse(whole).Some? && Parse(part).Some?
    ensures part == whole
  {
    assert part == whole[..|part|];
    if |part| < |whole| {
      PrefixIsRejected(whole, |part|);
    }
  }

  /** As much of `info` as gets through a stream that may break off anywhere. */
  method Carry(info: string, server: ServerSocket, token: ShutdownToken, cut: nat) returns (arrived: string)
    requires server.written == ""
    modifies server, token
    ensures arrived <= info
    ensures !server.failed && !token.raised && cut >= |info| ==> arrived == info
    ensures old(token.raised) ==> token.raised
  {
    var served := Serve(server, token, info);
    assert "" + info == info;
    arrived := if cut < |server.written| then server.written[..cut] else server.written;
  }

  /**
   A record served over a stream that may break off anywhere. Whatever the pieces, cuts,
   failures and shutdowns, the client gets that record or an error; if nothing goes
   wrong it gets the record exactly if the text is shorter than the cap.
   */
  method Transfer(info: string, server: ServerSocket, serverToken: ShutdownToken, clientToken: ShutdownToken, cut: nat)
    returns (r: Result<Record, Error>, client: ClientSocket)
    requires server.written == "" && serverToken != clientToken && Parse(info).Some?
    modifies server, serverToken, clientToken
    ensures r.Success? ==> Some(r.value) == Parse(info)
    ensures cut >= |info| && !server.failed && !client.failed && !serverToken.raised && !clientToken.raised ==>
              (r.Success? <==> |info| < MAX_RECORD_SIZE)
  {
    var arrived := Carry(info, server, serverToken, cut);
    client := new ClientSocket(arrived);
    r := Get(client, clientToken);
    if r.Success? {
      var n: nat :| n <= |arrived| && Parse(arrived[..n]) == Some(r.value);
      OnlyTheWholeParses(info, arrived[..n]);
    }
  }

  /** The same for the text that the server sends, the printed record. */
  method TransferRecord(record: Record, server: ServerSocket, serverToken: ShutdownToken, clientToken: ShutdownToken, cut: nat)
    returns (r: Result<Record, Error>, client: ClientSocket)
    requires server.written == "" && serverToken != clientToken
    modifies server, serverToken, clientToken
    ensures r.Success? ==> r.value == record
    ensures cut >= |Print(record)| && !server.failed && !client.failed && !serverToken.raised && !clientToken.raised ==>
              (r.Success? <==> |Print(record)| < MAX_RECORD_SIZE)
  {
    PrintParses(record);
    r, client := Transfer(Print(record), server, serverToken, clientToken, cut);
  }
}
