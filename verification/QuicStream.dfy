/** The abstract stream contract the implementations rely on.

    A receiving side is an ordered byte string handed out in pieces of any length (RFC 9000, section 2.2);
    a sending side that is closed or has failed accepts nothing more, for good (RFC 9000, section 3.1);
    and it never accepts more bytes than the credit it was granted (RFC 9000, section 4.1). */
module QuicStream {
  import opened Wrappers
  import opened Codec
  import opened Protocol

  type StreamId = nat

  /** Client-initiated bidirectional streams: the two low bits are zero (RFC 9000, section 2.1). */
  predicate ClientBidi(id: StreamId) {
    id % 4 == 0
  }

  /** `read + unread` is everything that arrived, in order; `done` once the reader has been told of FIN. */
  datatype RecvSide = RecvSide(read: seq<byte>, unread: seq<byte>, fin: bool, done: bool, failed: bool) {
    function Arrived(): seq<byte> {
      read + unread
    }

    predicate Live() {
      !done && !failed
    }

    /** There is something to tell the reader. */
    predicate Readable() {
      Live() && (unread != [] || fin)
    }

    /** The side after everything available has been read. */
    function Drained(): RecvSide {
      if Live() then this.(read := Arrived(), unread := [], done := fin) else this
    }
  }

  /** `data` is what was accepted so far; `credit` is what may still be accepted. */
  datatype SendSide = SendSide(data: seq<byte>, fin: bool, credit: nat, failed: bool) {
    predicate Open() {
      !fin && !failed
    }

    /** All the credit this side was ever given. */
    function Granted(): nat {
      |data| + credit
    }

    function Out(): Output {
      Output(data, fin)
    }

    /** Bytes accepted. */
    function Accept(bytes: seq<byte>): SendSide
      requires |bytes| <= credit
    {
      this.(data := data + bytes, credit := credit - |bytes|)
    }
  }

  datatype Stream = Stream(recv: RecvSide, send: SendSide)

  const DEAD_RECV := RecvSide([], [], false, true, true)
  const DEAD_SEND := SendSide([], false, 0, true)
  /** What an id without a stream behaves like: every call on it fails. */
  const DEAD := Stream(DEAD_RECV, DEAD_SEND)

  function Lookup(streams: map<StreamId, Stream>, id: StreamId): Stream {
    if id in streams then streams[id] else DEAD
  }

  function Put(streams: map<StreamId, Stream>, id: StreamId, s: Stream): map<StreamId, Stream> {
    if id in streams then streams[id := s] else streams
  }

  datatype Event =
    | NewStream(id: StreamId)
    | RecvStreamReadable(id: StreamId)
    | SendStreamWritable(id: StreamId)
    | Connected
    | Closed(isError: bool)
    | Other
  {
    predicate OfStream() {
      NewStream? || RecvStreamReadable? || SendStreamWritable?
    }

    predicate About(i: StreamId) {
      OfStream() && id == i
    }
  }

  /** One connection as its user sees it: the streams, and the queue of events not yet fetched. */
  class Connection {
    var streams: map<StreamId, Stream>
    var events: seq<Event>

    constructor (streams: map<StreamId, Stream>, events: seq<Event>)
      ensures this.streams == streams && this.events == events
    {
      this.streams, this.events := streams, events;
    }

    function At(id: StreamId): Stream
      reads this
    {
      Lookup(streams, id)
    }

    /** Fetches the oldest event, if there is one. */
    method NextEvent() returns (event: Option<Event>)
      modifies this`events
      ensures old(events) == [] ==> event == None && events == []
      ensures old(events) != [] ==> event == Some(old(events)[0]) && events == old(events)[1..]
    {
      if events == [] {
        event := None;
      } else {
        event := Some(events[0]);
        events := events[1..];
      }
    }

    /** Reads some of what is available into `buf`: how much is up to the transport, but it is
        nothing only when nothing is there. FIN is reported with or after the last byte, once. */
    method StreamRecv(id: StreamId, buf: array<byte>) returns (result: Result<(nat, bool)>)
      requires buf.Length > 0
      modifies this`streams, buf
      ensures result.Ok? <==> old(At(id)).recv.Live()
      ensures result.Err? ==> streams == old(streams) && buf[..] == old(buf[..])
      ensures result.Ok? ==>
                && id in old(streams)
                && var (n, fin) := result.value;
                   var r := old(streams)[id].recv;
                   && n <= buf.Length && n <= |r.unread| && (n == 0 ==> r.unread == [])
                   && buf[..] == r.unread[..n] + old(buf[..])[n..]
                   && (fin ==> r.fin && n == |r.unread|)
                   && (r.fin && r.unread == [] ==> fin)
                   && streams == old(streams)[id := old(streams)[id].(
                                   recv := r.(read := r.read + r.unread[..n], unread := r.unread[n..], done := fin))]
    {
      if !At(id).recv.Live() {
        return Err;
      }
      var r := streams[id].recv;
      var n: nat;
      if r.unread == [] {
        n := 0;
      } else {
        n :| 1 <= n <= buf.Length && n <= |r.unread|;
      }
      forall i | 0 <= i < n {
        buf[i] := r.unread[i];
      }
      var fin := *;
      if r.unread == [] {
        fin := r.fin;
      } else {
        fin := fin && r.fin && n == |r.unread|;
      }
      streams := streams[id := streams[id].(
        recv := r.(read := r.read + r.unread[..n], unread := r.unread[n..], done := fin))];
      result := Ok((n, fin));
    }

    /** Accepts as much of `bytes` as the credit allows; an error if the side is closed or has failed. */
    method StreamSend(id: StreamId, bytes: seq<byte>) returns (result: Result<nat>)
      modifies this`streams
      ensures result.Ok? <==> old(At(id)).send.Open()
      ensures result.Err? ==> streams == old(streams)
      ensures result.Ok? ==>
                && id in old(streams)
                && var s := old(streams)[id].send;
                   && result.value == Min(|bytes|, s.credit)
                   && streams == old(streams)[id := old(streams)[id].(send := s.Accept(bytes[..result.value]))]
    {
      if !At(id).send.Open() {
        return Err;
      }
      var s := streams[id].send;
      var n := Min(|bytes|, s.credit);
      streams := streams[id := streams[id].(send := s.Accept(bytes[..n]))];
      result := Ok(n);
    }

    /** Ends the sending side: FIN follows the bytes accepted so far. */
    method StreamCloseSend(id: StreamId) returns (result: Result<()>)
      modifies this`streams
      ensures result.Ok? <==> old(At(id)).send.Open()
      ensures result.Err? ==> streams == old(streams)
      ensures result.Ok? ==>
                && id in old(streams)
                && streams == old(streams)[id := old(streams)[id].(send := old(streams)[id].send.(fin := true))]
    {
      if !At(id).send.Open() {
        return Err;
      }
      streams := streams[id := streams[id].(send := streams[id].send.(fin := true))];
      result := Ok(());
    }
  }
}
