/** The neqo server: a table of per-stream states, driven by connection events.
    Each method is tied to a function of the values it started from; the runs are in NeqoRuns. */
module NeqoServer {
  import opened Wrappers
  import opened Codec
  import opened Protocol
  import opened QuicStream

  const CHUNK: nat := 32768

  /** The value of a `StreamState`: bytes read so far, and bytes still to be sent once that is known. */
  datatype Entry = Entry(readBuf: seq<byte>, writeRemaining: Option<nat>)

  const FRESH := Entry([], None)

  /** Sending `remaining` zero bytes and then FIN, as far as the stream allows. */
  function Attempt(e: Entry, s: SendSide): (Entry, SendSide) {
    match e.writeRemaining
    case None => (e, s)
    case Some(r) =>
      if !s.Open() then
        (e.(writeRemaining := None), s)
      else if r <= s.credit then
        (e.(writeRemaining := None), s.Accept(Zeros(r)).(fin := true))
      else
        (e.(writeRemaining := Some(r - s.credit)), s.Accept(Zeros(s.credit)))
  }

  /** Parse the header if that is still to be done and possible, then attempt to send. */
  function Serve(e: Entry, s: SendSide): (Entry, SendSide) {
    if e.writeRemaining.None? && |e.readBuf| >= HEADER_LEN then
      Attempt(e.(writeRemaining := Some(Requested(e.readBuf))), s)
    else
      Attempt(e, s)
  }

  /** Serving twice, with more bytes read in between, is serving once with all of them. So the effect
      of reading does not depend on how the input was cut, and a parse after completion sends nothing. */
  lemma ServeAbsorbs(e: Entry, s: SendSide, more: seq<byte>)
    ensures var (e1, s1) := Serve(e, s);
            Serve(e1.(readBuf := e1.readBuf + more), s1) == Serve(e.(readBuf := e.readBuf + more), s)
  {
    if |e.readBuf| >= HEADER_LEN {
      RequestedStable(e.readBuf, more);
    }
    var (e1, s1) := Serve(e, s);
    assert s1.Accept(Zeros(0)) == s1;
    var e1', e' := e1.(readBuf := e1.readBuf + more), e.(readBuf := e.readBuf + more);
    if e.writeRemaining.None? && |e.readBuf| < HEADER_LEN {
      assert e1' == e';
    } else {
      assert Serve(e', s).1 == s1;
    }
  }

  lemma ServeMore(e: Entry, s: SendSide, got: seq<byte>, more: seq<byte>)
    ensures var (e1, s1) := Serve(e.(readBuf := e.readBuf + got), s);
            Serve(e1.(readBuf := e1.readBuf + more), s1) == Serve(e.(readBuf := e.readBuf + (got + more)), s)
  {
    ServeAbsorbs(e.(readBuf := e.readBuf + got), s, more);
    assert e.readBuf + got + more == e.readBuf + (got + more);
  }

  /** One stream with its table entry. */
  datatype Lane = Lane(stream: Stream, entry: Option<Entry>)

  /** What an event about a stream does to that stream and its entry. */
  function OnEvent(ev: Event, l: Lane): Lane {
    match ev
    case NewStream(_) =>
      l.(entry := Some(FRESH))
    case RecvStreamReadable(id) =>
      if !ClientBidi(id) || l.entry.None? || !l.stream.recv.Live() then
        l
      else
        var e := l.entry.value;
        var (e', s') := Serve(e.(readBuf := e.readBuf + l.stream.recv.unread), l.stream.send);
        Lane(Stream(l.stream.recv.Drained(), s'), Some(e'))
    case SendStreamWritable(_) =>
      if l.entry.None? then
        l
      else
        var (e', s') := Attempt(l.entry.value, l.stream.send);
        Lane(l.stream.(send := s'), Some(e'))
    case _ => l
  }

  type Table = map<StreamId, Entry>

  function LaneOf(streams: map<StreamId, Stream>, table: Table, id: StreamId): Lane {
    Lane(Lookup(streams, id), if id in table then Some(table[id]) else None)
  }

  function PutEntry(table: Table, id: StreamId, e: Option<Entry>): Table {
    if e.Some? then table[id := e.value] else table
  }

  /** What an event does to all the streams and the whole table. */
  function Handle(ev: Event, streams: map<StreamId, Stream>, table: Table): (map<StreamId, Stream>, Table) {
    match ev
    case NewStream(id) => HandleAt(ev, id, streams, table)
    case RecvStreamReadable(id) => HandleAt(ev, id, streams, table)
    case SendStreamWritable(id) => HandleAt(ev, id, streams, table)
    case _ => (streams, table)
  }

  function HandleAt(ev: Event, id: StreamId, streams: map<StreamId, Stream>, table: Table)
    : (map<StreamId, Stream>, Table)
  {
    var l := OnEvent(ev, LaneOf(streams, table, id));
    (Put(streams, id, l.stream), PutEntry(table, id, l.entry))
  }

  /** An event changes its own lane, by `OnEvent`, and no other. */
  lemma HandleIsLocal(ev: Event, streams: map<StreamId, Stream>, table: Table, id: StreamId)
    ensures var (streams', table') := Handle(ev, streams, table);
            && streams'.Keys == streams.Keys
            && LaneOf(streams', table', id) ==
               if ev.About(id) then OnEvent(ev, LaneOf(streams, table, id)) else LaneOf(streams, table, id)
  {
  }

  /** What a queue of events does, oldest first. */
  function HandleAll(events: seq<Event>, streams: map<StreamId, Stream>, table: Table)
    : (map<StreamId, Stream>, Table)
  {
    if events == [] then
      (streams, table)
    else
      var (streams', table') := Handle(events[0], streams, table);
      HandleAll(events[1..], streams', table')
  }

  /** The value of a connection. */
  datatype Conn = Conn(streams: map<StreamId, Stream>, queue: seq<Event>)

  /** Emptying the queue of one connection after the other, the table passing from each to the next. */
  function HandleConns(conns: seq<Conn>, table: Table): (out: (seq<Conn>, Table))
    ensures |out.0| == |conns|
  {
    if conns == [] then
      ([], table)
    else
      var (streams', table') := HandleAll(conns[0].queue, conns[0].streams, table);
      var (rest, table'') := HandleConns(conns[1..], table');
      ([Conn(streams', [])] + rest, table'')
  }

  lemma {:induction false} HandleConnsLast(conns: seq<Conn>, last: Conn, table: Table)
    ensures var (before, table') := HandleConns(conns, table);
            var (streams, table'') := HandleAll(last.queue, last.streams, table');
            HandleConns(conns + [last], table) == (before + [Conn(streams, [])], table'')
    decreases |conns|
  {
    var all := conns + [last];
    var (before, table') := HandleConns(conns, table);
    var (streams, table'') := HandleAll(last.queue, last.streams, table');
    if conns == [] {
      assert all[0] == last && all[1..] == [];
      assert HandleConns(all, table).0 == [Conn(streams, [])] + [] == before + [Conn(streams, [])];
    } else {
      var (streams0, table0) := HandleAll(conns[0].queue, conns[0].streams, table);
      HandleConnsLast(conns[1..], last, table0);
      assert all[0] == conns[0] && all[1..] == conns[1..] + [last];
      var rest := HandleConns(conns[1..], table0).0;
      assert HandleConns(all, table).0 ==
             [Conn(streams0, [])] + (rest + [Conn(streams, [])]) == before + [Conn(streams, [])];
      assert HandleConns(all, table).1 == table'';
    }
  }

  /** The first `k` connections are drained, the others as they were. */
  predicate Drained(before: seq<Conn>, k: nat, table: Table, now: seq<Conn>, next: Table) {
    k <= |before| == |now| && HandleConns(before[..k], table) == (now[..k], next) && now == now[..k] + before[k..]
  }

  lemma SetNext(before: seq<Conn>, k: nat, now: seq<Conn>, c: Conn)
    requires k < |before| == |now| && now == now[..k] + before[k..]
    ensures now[k] == before[k] && before[..k + 1] == before[..k] + [before[k]]
    ensures now[k := c][..k + 1] == now[..k] + [c]
    ensures now[k := c] == now[k := c][..k + 1] + before[k + 1..]
  {
    forall j | k <= j < |now| ensures now[j] == before[j] {
      assert now[j] == (now[..k] + before[k..])[j] == before[k..][j - k];
    }
  }

  lemma DrainNext(before: seq<Conn>, k: nat, table: Table, now: seq<Conn>, next: Table,
                  streams: map<StreamId, Stream>, next': Table)
    requires k < |before| == |now| && Drained(before, k, table, now, next)
    requires (streams, next') == HandleAll(now[k].queue, now[k].streams, next)
    ensures Drained(before, k + 1, table, now[k := Conn(streams, [])], next')
  {
    HandleConnsLast(before[..k], before[k], table);
    SetNext(before, k, now, Conn(streams, []));
  }

  lemma DrainedAll(before: seq<Conn>, table: Table, now: seq<Conn>, next: Table)
    requires |now| == |before| && Drained(before, |before|, table, now, next)
    ensures HandleConns(before, table) == (now, next)
  {
    assert before[..|before|] == before && now[..|now|] == now;
  }

  lemma HandleNothing(ev: Event, id: StreamId, streams: map<StreamId, Stream>, table: Table)
    requires OnEvent(ev, LaneOf(streams, table, id)) == LaneOf(streams, table, id)
    ensures HandleAt(ev, id, streams, table) == (streams, table)
  {
    assert Put(streams, id, Lookup(streams, id)) == streams;
    assert id in table ==> table[id := table[id]] == table;
  }

  class StreamState {
    var readBuf: seq<byte>
    var writeRemaining: Option<nat>

    constructor ()
      ensures Value() == FRESH
    {
      readBuf, writeRemaining := [], None;
    }

    function Value(): Entry
      reads this
    {
      Entry(readBuf, writeRemaining)
    }
  }

  /** Parsing a header out of what was read. With fewer than 8 bytes the slice `[0..8]` would panic, so the
      caller checks first. */
  method ParseRequest(bytes: seq<byte>) returns (size: nat)
    requires |bytes| >= HEADER_LEN
    ensures size == Requested(bytes)
  {
    size := RequestFromBytes(bytes[..HEADER_LEN]);
  }

  /** Sends in chunks of at most 32 KiB until done, out of credit, or refused. */
  method TrySendResponse(conn: Connection, id: StreamId, state: StreamState)
    modifies conn`streams, state
    ensures (state.Value(), conn.At(id).send) == Attempt(old(state.Value()), old(conn.At(id).send))
    ensures conn.streams == Put(old(conn.streams), id, old(conn.At(id)).(send := conn.At(id).send))
    ensures old(state.writeRemaining).Some? ==>
              var r, s, s' := old(state.writeRemaining).value, old(conn.At(id)).send, conn.At(id).send;
              if s.fin || s.failed then
                state.writeRemaining == None && s' == s
              else
                var n := Min(r, s.credit);
                && s'.data == s.data + Zeros(n) && (s'.fin <==> n == r) && !s'.failed
                && state.writeRemaining == if n == r then None else Some(r - n)
  {
    if state.writeRemaining.None? {
      return;
    }
    ghost var r := state.writeRemaining.value;
    ghost var s := conn.At(id).send;
    assert s.Accept(Zeros(0)) == s;
    while state.writeRemaining.value > 0
      invariant state.writeRemaining.Some? && state.readBuf == old(state.readBuf)
      invariant state.writeRemaining.value <= r
      invariant var sent := r - state.writeRemaining.value;
                && (sent > 0 ==> s.Open())
                && sent <= s.credit
                && conn.At(id).send == s.Accept(Zeros(sent))
      invariant conn.streams == Put(old(conn.streams), id, old(conn.At(id)).(send := conn.At(id).send))
      decreases state.writeRemaining.value
    {
      var remaining := state.writeRemaining.value;
      ghost var sent := r - remaining;
      var chunkSize := Min(remaining, CHUNK);
      var result := conn.StreamSend(id, Zeros(chunkSize));
      if result.Err? {
        state.writeRemaining := None;
        return;
      }
      var n := result.value;
      assert Zeros(chunkSize)[..n] == Zeros(n);
      ZerosConcat(sent, n);
      assert s.data + Zeros(sent) + Zeros(n) == s.data + Zeros(sent + n);
      if n == 0 {
        return;
      }
      state.writeRemaining := Some(remaining - n);
    }
    var _ := conn.StreamCloseSend(id);
    state.writeRemaining := None;
  }

  /** The second half of the read loop: parse the header once it is there, then start sending. */
  method ParseAndSend(conn: Connection, id: StreamId, state: StreamState)
    modifies conn`streams, state
    ensures (state.Value(), conn.At(id).send) == Serve(old(state.Value()), old(conn.At(id).send))
    ensures conn.streams == Put(old(conn.streams), id, old(conn.At(id)).(send := conn.At(id).send))
  {
    if state.writeRemaining.None? && |state.readBuf| >= HEADER_LEN {
      var size := ParseRequest(state.readBuf);
      state.writeRemaining := Some(size);
    }
    if state.writeRemaining.Some? {
      TrySendResponse(conn, id, state);
    } else {
      assert conn.streams == Put(conn.streams, id, conn.At(id));
    }
  }

  /** One turn of the read loop: read a piece, append it, serve. The loop stops on an error, on FIN,
      or when there was nothing to read; otherwise the piece was not empty and the stream is still live. */
  method ReadOnce(conn: Connection, id: StreamId, state: StreamState, buf: array<byte>)
    returns (stop: bool, ghost piece: seq<byte>)
    requires buf.Length == CHUNK
    modifies conn`streams, state, buf
    ensures conn.streams == Put(old(conn.streams), id, conn.At(id))
    ensures var r := old(conn.At(id)).recv;
            if !r.Live() then
              && stop && piece == []
              && state.Value() == old(state.Value()) && conn.At(id) == old(conn.At(id))
            else
              && piece <= r.unread
              && (state.Value(), conn.At(id).send) ==
                 Serve(old(state.Value()).(readBuf := old(state.readBuf) + piece), old(conn.At(id)).send)
              && conn.At(id).recv == (if stop then r.Drained()
                                      else r.(read := r.read + piece, unread := r.unread[|piece|..]))
              && (if stop then piece == r.unread else piece != [])
  {
    ghost var l := conn.At(id);
    assert Put(conn.streams, id, l) == conn.streams;
    piece := [];
    var result := conn.StreamRecv(id, buf);
    if result.Err? {
      return true, [];
    }
    var (n, fin) := result.value;
    piece := l.recv.unread[..n];
    assert buf[..n] == buf[..][..n] == piece;
    if n > 0 {
      state.readBuf := state.readBuf + buf[..n];
    }
    assert state.readBuf == old(state.readBuf) + piece;
    ParseAndSend(conn, id, state);
    stop := fin || n == 0;
  }

  /** The read loop with `got` read so far: everything got has been appended and served once. */
  predicate HalfRead(e0: Entry, l0: Stream, got: seq<byte>, stop: bool, e: Entry, l: Stream) {
    && got <= l0.recv.unread
    && (stop ==> got == l0.recv.unread)
    && l.recv == (if stop then l0.recv.Drained()
                  else l0.recv.(read := l0.recv.read + got, unread := l0.recv.unread[|got|..]))
    && (e, l.send) == Serve(e0.(readBuf := e0.readBuf + got), l0.send)
  }

  /** What one more turn of the loop makes of it. */
  lemma ReadMore(e0: Entry, l0: Stream, got: seq<byte>, e: Entry, l: Stream,
                 piece: seq<byte>, stop: bool, l': Stream, e': Entry)
    requires HalfRead(e0, l0, got, false, e, l) && l0.recv.Live() && piece <= l.recv.unread
    requires (e', l'.send) == Serve(e.(readBuf := e.readBuf + piece), l.send)
    requires l'.recv == (if stop then l.recv.Drained()
                         else l.recv.(read := l.recv.read + piece, unread := l.recv.unread[|piece|..]))
    requires stop ==> piece == l.recv.unread
    ensures HalfRead(e0, l0, got + piece, stop, e', l')
  {
    ServeMore(e0, l0.send, got, piece);
    assert l0.recv.unread == got + l.recv.unread;
    assert l0.recv.read + got + piece == l0.recv.read + (got + piece);
  }

  /** The read loop of `read_request` on the state it found. However the input is cut, it amounts to
      appending all of it and serving once. */
  method ReadStream(conn: Connection, id: StreamId, state: StreamState)
    requires ClientBidi(id)
    modifies conn`streams, state
    ensures var l := OnEvent(RecvStreamReadable(id), Lane(old(conn.At(id)), Some(old(state.Value()))));
            l.entry == Some(state.Value()) && conn.streams == Put(old(conn.streams), id, l.stream)
  {
    ghost var e0, l0 := state.Value(), conn.At(id);
    var buf := new byte[CHUNK](_ => 0);
    ghost var got: seq<byte>;
    var stop;
    stop, got := ReadOnce(conn, id, state, buf);
    while !stop
      invariant if l0.recv.Live() then HalfRead(e0, l0, got, stop, state.Value(), conn.At(id))
                else stop && state.Value() == e0 && conn.At(id) == l0
      invariant conn.streams == Put(old(conn.streams), id, conn.At(id))
      decreases if stop then 0 else 1 + |conn.At(id).recv.unread|
    {
      ghost var e, l, piece := state.Value(), conn.At(id), [];
      stop, piece := ReadOnce(conn, id, state, buf);
      ReadMore(e0, l0, got, e, l, piece, stop, conn.At(id), state.Value());
      got := got + piece;
    }
  }

  class Server {
    var streamStates: map<StreamId, StreamState>

    constructor ()
      ensures Valid() && Table() == map[]
    {
      streamStates := map[];
    }

    /** No two ids share a state. */
    ghost predicate Valid()
      reads this
    {
      forall i, j :: i in streamStates && j in streamStates && i != j ==> streamStates[i] != streamStates[j]
    }

    function Table(): Table
      reads this, streamStates.Values
    {
      map i | i in streamStates :: streamStates[i].Value()
    }

    /** Reads everything available on a stream and serves the request in it. */
    method ReadRequest(conn: Connection, id: StreamId)
      requires Valid()
      modifies conn`streams, streamStates.Values
      ensures Valid() && streamStates == old(streamStates)
      ensures (conn.streams, Table()) == HandleAt(RecvStreamReadable(id), id, old(conn.streams), old(Table()))
    {
      if !ClientBidi(id) || id !in streamStates {
        HandleNothing(RecvStreamReadable(id), id, conn.streams, Table());
        return;
      }
      ReadStream(conn, id, streamStates[id]);
      assert Table() == PutEntry(old(Table()), id, Some(streamStates[id].Value()));
    }

    /** A new stream gets a fresh state, in place of any it may have had. */
    method AddStream(conn: Connection, id: StreamId)
      requires Valid()
      modifies this`streamStates
      ensures Valid() && fresh(streamStates.Values - old(streamStates.Values))
      ensures (conn.streams, Table()) == HandleAt(NewStream(id), id, conn.streams, old(Table()))
    {
      var state := new StreamState();
      streamStates := streamStates[id := state];
      assert conn.streams == Put(conn.streams, id, conn.At(id));
      assert Table() == PutEntry(old(Table()), id, Some(FRESH));
    }

    /** A stream that regained credit goes on sending, if it has a state. */
    method ResumeStream(conn: Connection, id: StreamId)
      requires Valid()
      modifies conn`streams, streamStates.Values
      ensures Valid() && streamStates == old(streamStates)
      ensures (conn.streams, Table()) == HandleAt(SendStreamWritable(id), id, old(conn.streams), old(Table()))
    {
      if id in streamStates {
        TrySendResponse(conn, id, streamStates[id]);
        assert Table() == PutEntry(old(Table()), id, Some(streamStates[id].Value()));
      } else {
        HandleNothing(SendStreamWritable(id), id, conn.streams, Table());
      }
    }

    /** Dispatches one event. The session ticket sent on `Connected` touches no stream. */
    method HandleEvent(event: Event, conn: Connection)
      requires Valid()
      modifies this`streamStates, conn`streams, streamStates.Values
      ensures Valid() && fresh(streamStates.Values - old(streamStates.Values))
      ensures (conn.streams, Table()) == Handle(event, old(conn.streams), old(Table()))
    {
      match event {
        case NewStream(id) => AddStream(conn, id);
        case RecvStreamReadable(id) => ReadRequest(conn, id);
        case SendStreamWritable(id) => ResumeStream(conn, id);
        case _ =>
      }
    }

    /** Handles every queued event of a connection, oldest first. */
    method ProcessEvents(conn: Connection)
      requires Valid()
      modifies this`streamStates, conn, streamStates.Values
      ensures Valid() && fresh(streamStates.Values - old(streamStates.Values))
      ensures conn.events == []
      ensures (conn.streams, Table()) == HandleAll(old(conn.events), old(conn.streams), old(Table()))
    {
      while true
        invariant Valid() && fresh(streamStates.Values - old(streamStates.Values))
        invariant HandleAll(conn.events, conn.streams, Table()) ==
                  HandleAll(old(conn.events), old(conn.streams), old(Table()))
        decreases |conn.events|
      {
        var event := conn.NextEvent();
        if event.None? {
          break;
        }
        HandleEvent(event.value, conn);
      }
    }

    /** Drains one of the active connections; the others are as they were. */
    method ProcessOne(active: seq<Connection>, k: nat, ghost now: seq<Conn>)
      requires Valid() && Show(active, now) && k < |active|
      requires forall i, j :: 0 <= i < j < |active| ==> active[i] != active[j]
      modifies this`streamStates, active[k], streamStates.Values
      ensures Valid() && fresh(streamStates.Values - old(streamStates.Values))
      ensures (active[k].streams, Table()) == HandleAll(now[k].queue, now[k].streams, old(Table()))
      ensures Show(active, now[k := Conn(active[k].streams, [])])
    {
      ProcessEvents(active[k]);
      forall j | 0 <= j < |active| && j != k
        ensures active[j].streams == now[j].streams && active[j].events == now[j].queue
      {
        assert active[j] != active[k];
      }
    }

    /** Drains every active connection; `before` are their values at the start. */
    method ProcessAllEvents(active: seq<Connection>, ghost before: seq<Conn>)
      requires Valid() && Show(active, before)
      requires forall i, j :: 0 <= i < j < |active| ==> active[i] != active[j]
      modifies this`streamStates, active, streamStates.Values
      ensures Valid() && fresh(streamStates.Values - old(streamStates.Values))
      ensures var (after, table) := HandleConns(before, old(Table()));
              Show(active, after) && Table() == table
    {
      ghost var table, now := Table(), before;
      for k := 0 to |active|
        invariant Valid() && fresh(streamStates.Values - old(streamStates.Values))
        invariant Show(active, now)
        invariant Drained(before, k, table, now, Table())
      {
        ghost var next := Table();
        ProcessOne(active, k, now);
        DrainNext(before, k, table, now, next, active[k].streams, Table());
        now := now[k := Conn(active[k].streams, [])];
      }
      DrainedAll(before, table, now, Table());
    }
  }

  /** The values of some connections. */
  predicate Show(conns: seq<Connection>, values: seq<Conn>)
    reads conns
  {
    && |conns| == |values|
    && forall j :: 0 <= j < |conns| ==> conns[j].streams == values[j].streams && conns[j].events == values[j].queue
  }
}
