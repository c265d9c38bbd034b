/** The neqo client: it sends the header, then counts what arrives until FIN. */
module NeqoClient {
  import opened Wrappers
  import opened Codec
  import opened Protocol
  import opened QuicStream

  const READ_BUF: nat := 32768

  /** What the receive loop has seen so far. */
  datatype Progress = Progress(received: nat, done: bool)

  /** The result of one poll: whether it failed, the progress, the receiving side, the events left. */
  datatype Polled = Polled(failed: bool, progress: Progress, recv: RecvSide, rest: seq<Event>)

  /** What one poll does: every event in order, and on a readable one everything there is to read. */
  function PollSpec(events: seq<Event>, id: StreamId, p: Progress, r: RecvSide): Polled {
    if events == [] then
      Polled(false, p, r, [])
    else if events[0] == RecvStreamReadable(id) then
      if !r.Live() then
        Polled(true, p, r, events[1..])
      else
        PollSpec(events[1..], id, Progress(p.received + |r.unread|, p.done || r.fin), r.Drained())
    else if events[0] == Closed(true) then
      Polled(true, p, r, events[1..])
    else
      PollSpec(events[1..], id, p, r)
  }

  /** Sends the 8-byte header and closes the sending side. A header that is not taken whole is an error; what
      was taken of it stays on the stream, which is left open. */
  method SendRequest(conn: Connection, id: StreamId, size: nat) returns (result: Result<()>)
    requires size < U64
    modifies conn`streams
    ensures var s := old(conn.At(id)).send;
            && (result.Ok? <==> s.Open() && s.credit >= HEADER_LEN)
            && conn.streams == Put(old(conn.streams), id, old(conn.At(id)).(send := conn.At(id).send))
            && conn.At(id).send ==
               if result.Ok? then s.Accept(ToBytes(size, HEADER_LEN)).(fin := true)
               else if s.Open() then s.Accept(ToBytes(size, HEADER_LEN)[..s.credit])
               else s
  {
    assert Put(conn.streams, id, conn.At(id)) == conn.streams;
    var header := new byte[8];
    RequestToBytes(size, header);
    var sent := conn.StreamSend(id, header[..]);
    if sent.Err? || sent.value != 8 {
      return Err;
    }
    assert header[..][..8] == header[..];
    assert conn.At(id).send.Open();
    var closed := conn.StreamCloseSend(id);
    return closed;
  }

  class Transfer {
    const id: StreamId
    const requestSize: nat
    var received: nat
    var responseDone: bool

    constructor (id: StreamId, requestSize: nat)
      ensures this.id == id && this.requestSize == requestSize && Value() == Progress(0, false)
    {
      this.id, this.requestSize := id, requestSize;
      received, responseDone := 0, false;
    }

    function Value(): Progress
      reads this
    {
      Progress(received, responseDone)
    }

    /** Reads everything available on the stream. */
    method ReadAvailable(conn: Connection, buf: array<byte>) returns (failed: bool)
      requires buf.Length > 0
      modifies this, conn`streams, buf
      ensures var r := old(conn.At(id)).recv;
              && (failed <==> !r.Live())
              && conn.streams == Put(old(conn.streams), id, old(conn.At(id)).(recv := r.Drained()))
              && (failed ==> Value() == old(Value()))
              && (!failed ==> Value() == Progress(old(received) + |r.unread|, old(responseDone) || r.fin))
    {
      ghost var l0 := conn.At(id);
      assert Put(conn.streams, id, l0) == conn.streams;
      ghost var got: nat := 0;
      failed := false;
      while true
        invariant got <= |l0.recv.unread| && received == old(received) + got && responseDone == old(responseDone)
        invariant got > 0 ==> l0.recv.Live()
        invariant conn.At(id) == l0.(recv := l0.recv.(read := l0.recv.read + l0.recv.unread[..got],
                                                      unread := l0.recv.unread[got..]))
        invariant conn.streams == Put(old(conn.streams), id, conn.At(id))
        decreases |l0.recv.unread| - got
      {
        var result := conn.StreamRecv(id, buf);
        if result.Err? {
          assert got == 0;
          return true;
        }
        var (n, fin) := result.value;
        assert l0.recv.unread[..got] + l0.recv.unread[got..][..n] == l0.recv.unread[..got + n];
        got := got + n;
        received := received + n;
        if fin {
          responseDone := true;
          break;
        }
        if n == 0 {
          break;
        }
      }
      assert l0.recv.unread[..got] == l0.recv.unread;
      assert conn.At(id).recv == l0.recv.Drained();
    }

    /** Handles every waiting event; reports whether the response is complete. */
    method Poll(conn: Connection) returns (result: Result<bool>)
      modifies this, conn
      ensures var out := PollSpec(old(conn.events), id, old(Value()), old(conn.At(id)).recv);
              && result == (if out.failed then Err else Ok(out.progress.done))
              && Value() == out.progress
              && conn.events == out.rest
              && conn.streams == Put(old(conn.streams), id, old(conn.At(id)).(recv := out.recv))
    {
      var buf := new byte[READ_BUF];
      ghost var l0 := conn.At(id);
      assert Put(conn.streams, id, l0) == conn.streams;
      while true
        invariant PollSpec(conn.events, id, Value(), conn.At(id).recv) ==
                  PollSpec(old(conn.events), id, old(Value()), l0.recv)
        invariant conn.streams == Put(old(conn.streams), id, l0.(recv := conn.At(id).recv))
        decreases |conn.events|
      {
        var event := conn.NextEvent();
        if event.None? {
          break;
        }
        match event.value {
          case RecvStreamReadable(sid) =>
            if sid == id {
              var failed := ReadAvailable(conn, buf);
              if failed {
                return Err;
              }
            }
          case Closed(isError) =>
            if isError {
              return Err;
            }
          case _ =>
        }
      }
      result := Ok(responseDone);
    }

    /** The verdict at the end of a run: the length received is the length asked for. */
    method Verdict() returns (result: Result<()>)
      ensures result.Ok? <==> Accepted(Value(), requestSize)
    {
      result := if received != requestSize then Err else Ok(());
    }

    /** One turn of `run`: poll, and once the response is complete, judge it. If the counts agreed with the
        stream before, the run succeeds exactly when everything up to FIN was read and is as long as asked. */
    method Turn(conn: Connection) returns (phase: Phase)
      modifies this, conn
      ensures phase == PhaseAfter(PollSpec(old(conn.events), id, old(Value()), old(conn.At(id)).recv), requestSize)
      ensures old(Faithful(Value(), conn.At(id).recv)) ==>
                && Faithful(Value(), conn.At(id).recv)
                && (phase == Succeeded ==> conn.At(id).recv.done && |conn.At(id).recv.Arrived()| == requestSize)
                && (phase == Mismatch ==> conn.At(id).recv.done && |conn.At(id).recv.Arrived()| != requestSize)
                && (phase == Waiting ==> !conn.At(id).recv.done)
      ensures phase == Errored <==>
              || Closed(true) in old(conn.events)
              || (if !old(conn.At(id)).recv.Live() then CountReadable(old(conn.events), id) >= 1
                  else old(conn.At(id)).recv.fin && CountReadable(old(conn.events), id) >= 2)
    {
      ghost var r := conn.At(id).recv;
      PollFailsExactlyWhen(conn.events, id, Value(), r);
      if Faithful(Value(), r) {
        PollReads(conn.events, id, Value(), r);
      }
      var done := Poll(conn);
      if done.Err? {
        return Errored;
      }
      if !done.value {
        return Waiting;
      }
      var verdict := Verdict();
      phase := if verdict.Ok? then Succeeded else Mismatch;
    }
  }

  datatype Phase = Waiting | Succeeded | Mismatch | Errored

  /** The length check. */
  predicate Accepted(p: Progress, size: nat) {
    p.received == size
  }

  /** Where a run stands after a poll. */
  function PhaseAfter(o: Polled, size: nat): Phase {
    if o.failed then Errored
    else if !o.progress.done then Waiting
    else if Accepted(o.progress, size) then Succeeded
    else Mismatch
  }

  /** The counts agree with what was read. */
  predicate Faithful(p: Progress, r: RecvSide) {
    && p == Progress(|r.read|, r.done)
    && (r.done ==> r.fin && r.unread == [])
  }

  // ----- when a poll fails

  function CountReadable(events: seq<Event>, id: StreamId): nat {
    if events == [] then 0
    else (if events[0] == RecvStreamReadable(id) then 1 else 0) + CountReadable(events[1..], id)
  }

  /** Exactly when a poll fails: the connection was closed with an error, or a readable event finds a side
      that cannot be read, which is any such event on a dead side and a second one once FIN has been read. */
  lemma {:induction false} PollFailsExactlyWhen(events: seq<Event>, id: StreamId, p: Progress, r: RecvSide)
    ensures PollSpec(events, id, p, r).failed <==>
            || Closed(true) in events
            || (if !r.Live() then CountReadable(events, id) >= 1 else r.fin && CountReadable(events, id) >= 2)
    decreases |events|
  {
    if events != [] {
      assert events == [events[0]] + events[1..];
      if events[0] == RecvStreamReadable(id) {
        if r.Live() {
          PollFailsExactlyWhen(events[1..], id, Progress(p.received + |r.unread|, p.done || r.fin), r.Drained());
        }
      } else if events[0] != Closed(true) {
        PollFailsExactlyWhen(events[1..], id, p, r);
      }
    }
  }

  /** What a poll reads is what there was, once; FIN is noticed exactly when it is read. */
  lemma {:induction false} PollReads(events: seq<Event>, id: StreamId, p: Progress, r: RecvSide)
    requires Faithful(p, r)
    ensures var o := PollSpec(events, id, p, r);
            && Faithful(o.progress, o.recv)
            && o.recv.Arrived() == r.Arrived() && o.recv.fin == r.fin && o.recv.failed == r.failed
            && (o.failed && Closed(true) !in events ==> !o.recv.Live())
            && (!o.failed ==> o.rest == [] && (RecvStreamReadable(id) in events ==> !o.recv.Readable()))
            && (o.recv == r || o.recv == r.Drained())
    decreases |events|
  {
    if events != [] {
      if events[0] == RecvStreamReadable(id) {
        if r.Live() {
          var r' := r.Drained();
          assert r'.Arrived() == r.Arrived();
          assert r'.Drained() == r' by { assert r'.read + [] == r'.read; }
          PollReads(events[1..], id, Progress(p.received + |r.unread|, p.done || r.fin), r');
        }
      } else if events[0] != Closed(true) {
        PollReads(events[1..], id, p, r);
      }
    }
  }
}
