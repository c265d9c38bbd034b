/** The quiche implementation: both roles in one object, driven by `process_reads` and `process_writes`. */
module Quiche {
  import opened Wrappers
  import opened Codec
  import opened Protocol
  import opened QuicStream
  import opened Perf

  const BUF: nat := 32768

  /** The quiche connection. A read takes all there is, up to the buffer; a write carries FIN along,
      which takes effect only when the whole chunk was accepted. */
  class QuicheConnection {
    const isServer: bool
    var streams: map<StreamId, Stream>

    constructor (isServer: bool)
      ensures this.isServer == isServer && streams == map[]
    {
      this.isServer, streams := isServer, map[];
    }

    /** The streams with something to read, in some order. */
    method Readable() returns (ids: seq<StreamId>)
      ensures IsReadableOrder(ids, streams)
    {
      ids := [];
      var left := set id | id in streams && streams[id].recv.Readable();
      while left != {}
        invariant forall id :: id in streams && streams[id].recv.Readable() <==> id in left || id in ids
        invariant forall id :: id in ids ==> id !in left
        invariant forall i, j :: 0 <= i < j < |ids| ==> ids[i] != ids[j]
        decreases left
      {
        var id :| id in left;
        ids, left := ids + [id], left - {id};
      }
    }

    method StreamRecv(id: StreamId, buf: array<byte>) returns (result: Result<(nat, bool)>)
      requires buf.Length > 0
      modifies this`streams, buf
      ensures var st := Lookup(old(streams), id);
              if !st.recv.Readable() then
                result.Err? && streams == old(streams) && buf[..] == old(buf[..])
              else
                var (n, fin, buf', recv') := RecvOnce(old(buf[..]), st.recv);
                && result == Ok((n, fin)) && buf[..] == buf'
                && streams == Put(old(streams), id, st.(recv := recv'))
    {
      if !Lookup(streams, id).recv.Readable() {
        return Err;
      }
      var r := streams[id].recv;
      var n := Min(buf.Length, |r.unread|);
      var fin := r.fin && n == |r.unread|;
      forall i | 0 <= i < n {
        buf[i] := r.unread[i];
      }
      streams := streams[id := streams[id].(
        recv := r.(read := r.read + r.unread[..n], unread := r.unread[n..], done := fin))];
      result := Ok((n, fin));
    }

    method StreamSend(id: StreamId, bytes: seq<byte>, fin: bool) returns (result: Result<nat>)
      modifies this`streams
      ensures var (sent, send') := SendFin(Lookup(old(streams), id).send, bytes, fin);
              && result == sent
              && streams == Put(old(streams), id, Lookup(old(streams), id).(send := send'))
    {
      var s := Lookup(streams, id).send;
      if !s.Open() || (s.credit == 0 && bytes != []) {
        assert streams == Put(streams, id, Lookup(streams, id));
        return Err;
      }
      var n := Min(|bytes|, s.credit);
      streams := streams[id := streams[id].(send := s.Accept(bytes[..n]).(fin := fin && n == |bytes|))];
      result := Ok(n);
    }
  }

  /** Every live stream has handed over all that arrived on it, FIN included. */
  predicate NothingToRead(streams: map<StreamId, Stream>) {
    forall id :: id in streams && !streams[id].recv.done && !streams[id].recv.failed ==>
                   streams[id].recv.unread == [] && !streams[id].recv.fin
  }

  predicate IsReadableOrder(ids: seq<StreamId>, streams: map<StreamId, Stream>) {
    && (forall i, j :: 0 <= i < j < |ids| ==> ids[i] != ids[j])
    && (forall id :: id in ids ==> id in streams && streams[id].recv.Readable())
    && (forall id :: id in streams && streams[id].recv.Readable() ==> id in ids)
  }

  function RecvOnce(buf: seq<byte>, r: RecvSide): (nat, bool, seq<byte>, RecvSide) {
    var n := Min(|buf|, |r.unread|);
    var fin := r.fin && n == |r.unread|;
    (n, fin, r.unread[..n] + buf[n..], r.(read := r.read + r.unread[..n], unread := r.unread[n..], done := fin))
  }

  function SendFin(s: SendSide, bytes: seq<byte>, fin: bool): (Result<nat>, SendSide) {
    if !s.Open() || (s.credit == 0 && bytes != []) then
      (Err, s)
    else
      var n := Min(|bytes|, s.credit);
      (Ok(n), s.Accept(bytes[..n]).(fin := fin && n == |bytes|))
  }

  /** `Cursor<Bytes>`: a response and how much of it was sent. */
  datatype Cursor = Cursor(bytes: seq<byte>, pos: nat) {
    predicate Valid() {
      pos <= |bytes|
    }

    function Chunk(): seq<byte>
      requires Valid()
    {
      bytes[pos..]
    }

    predicate HasRemaining() {
      pos < |bytes|
    }

    function Advance(n: nat): Cursor {
      this.(pos := pos + n)
    }
  }

  type Tx = nat
  datatype Request = Request(id: StreamId, size: nat, tx: Tx)

  // ----- what the calls do, on values

  /** Reading one stream to the end on the server: each piece read is parsed where it landed in the
      buffer, over whatever the buffer held; the last parse stands. */
  function ServerRecv(buf: seq<byte>, r: RecvSide): (out: (seq<byte>, RecvSide, Option<nat>))
    requires |buf| >= HEADER_LEN
    ensures |out.0| == |buf|
    ensures out.2.Some? <==> r.Readable()
    decreases |r.unread|, if r.done then 0 else 1
  {
    if !r.Readable() then
      (buf, r, None)
    else
      var (n, fin, buf', r') := RecvOnce(buf, r);
      var rest := ServerRecv(buf', r');
      (rest.0, rest.1, if rest.2.Some? then rest.2 else Some(Requested(buf')))
  }

  datatype ServerState = ServerState(buf: seq<byte>, streams: map<StreamId, Stream>, res: map<StreamId, Cursor>)

  function ServerReadStream(s: ServerState, id: StreamId): (s': ServerState)
    requires |s.buf| >= HEADER_LEN
    ensures |s'.buf| == |s.buf|
  {
    var st := Lookup(s.streams, id);
    var (buf', recv', size) := ServerRecv(s.buf, st.recv);
    ServerState(buf', Put(s.streams, id, st.(recv := recv')),
                if size.Some? then s.res[id := Cursor(Zeros(size.value), 0)] else s.res)
  }

  function ServerReads(s: ServerState, ids: seq<StreamId>): (s': ServerState)
    requires |s.buf| >= HEADER_LEN
    ensures |s'.buf| == |s.buf|
    decreases |ids|
  {
    if ids == [] then s else ServerReads(ServerReadStream(s, ids[0]), ids[1..])
  }

  /** One attempt to send what remains of a response; it leaves the table once nothing remains. */
  function WriteOne(c: Cursor, s: SendSide): (Option<Cursor>, SendSide)
    requires c.Valid()
  {
    var (sent, s') := SendFin(s, c.Chunk(), true);
    if sent.Err? then (Some(c), s')
    else
      var c' := c.Advance(sent.value);
      (if c'.HasRemaining() then Some(c') else None, s')
  }

  /** What the client does when the streams `ids` are read in turn: on FIN it completes that stream's
      request; FIN on a stream without one is an error, which ends the call. */
  datatype ClientState = ClientState(streams: map<StreamId, Stream>, req: map<StreamId, Tx>, signalled: seq<Tx>,
                                     ok: bool)

  function ClientReadStream(s: ClientState, id: StreamId): ClientState {
    var st := Lookup(s.streams, id);
    var s1 := s.(streams := Put(s.streams, id, st.(recv := st.recv.Drained())));
    if !st.recv.Readable() || !st.recv.fin then s1
    else if id in s.req then s1.(req := s.req - {id}, signalled := s.signalled + [s.req[id]])
    else s1.(ok := false)
  }

  function ClientReads(s: ClientState, ids: seq<StreamId>): ClientState
    decreases |ids|
  {
    if ids == [] || !s.ok then s else ClientReads(ClientReadStream(s, ids[0]), ids[1..])
  }

  /** Reading a stream piece by piece comes to the same as reading it whole. */
  lemma ClientOnce(s: ClientState, id: StreamId, buf: seq<byte>)
    requires |buf| > 0 && s.ok
    ensures var st := Lookup(s.streams, id);
            if !st.recv.Readable() then
              ClientReadStream(s, id) == s
            else
              var (n, fin, _, recv') := RecvOnce(buf, st.recv);
              var s1 := s.(streams := Put(s.streams, id, st.(recv := recv')));
              if !fin then ClientReadStream(s1, id) == ClientReadStream(s, id)
              else if id !in s.req then ClientReadStream(s, id) == s1.(ok := false)
              else var s2 := s1.(req := s.req - {id}, signalled := s.signalled + [s.req[id]]);
                   ClientReadStream(s2, id) == s2 == ClientReadStream(s, id)
  {
    var st := Lookup(s.streams, id);
    assert Put(s.streams, id, st) == s.streams;
    if !st.recv.Readable() {
      assert st.recv.Drained() == st.recv by { assert st.recv.read + [] == st.recv.read; }
    } else {
      var (n, fin, _, recv') := RecvOnce(buf, st.recv);
      assert st.recv.read + st.recv.unread[..n] + st.recv.unread[n..] == st.recv.read + st.recv.unread;
      assert recv'.Live() ==> recv'.Drained() == st.recv.Drained();
      assert fin ==> recv' == st.recv.Drained();
    }
  }

  /** The client's reads, unless they end in an error, leave nothing to read on the streams named. */
  lemma {:induction false} ClientReadsAll(s: ClientState, ids: seq<StreamId>)
    requires ClientReads(s, ids).ok
    ensures var s' := ClientReads(s, ids);
            && s.ok && s'.streams.Keys == s.streams.Keys
            && forall id :: id in s.streams ==>
                 if id in ids then !s'.streams[id].recv.Readable() else s'.streams[id] == s.streams[id]
    decreases |ids|
  {
    if ids != [] && s.ok {
      ClientReadsAll(ClientReadStream(s, ids[0]), ids[1..]);
    }
  }

  lemma {:induction false} ServerRecvAll(buf: seq<byte>, r: RecvSide)
    requires |buf| >= HEADER_LEN
    ensures !ServerRecv(buf, r).1.Readable()
    decreases |r.unread|, if r.done then 0 else 1
  {
    if r.Readable() {
      var (_, _, buf', r') := RecvOnce(buf, r);
      ServerRecvAll(buf', r');
    }
  }

  /** So do the server's. */
  lemma {:induction false} ServerReadsAll(s: ServerState, ids: seq<StreamId>)
    requires |s.buf| >= HEADER_LEN
    ensures var s' := ServerReads(s, ids);
            && s'.streams.Keys == s.streams.Keys
            && forall id :: id in s.streams ==>
                 if id in ids then !s'.streams[id].recv.Readable() else s'.streams[id] == s.streams[id]
    decreases |ids|
  {
    if ids != [] {
      ServerRecvAll(s.buf, Lookup(s.streams, ids[0]).recv);
      ServerReadsAll(ServerReadStream(s, ids[0]), ids[1..]);
    }
  }

  /** Reading in an order that names every readable stream leaves nothing to read. */
  lemma ReadsLeaveNothing(streams: map<StreamId, Stream>, ids: seq<StreamId>, streams': map<StreamId, Stream>)
    requires IsReadableOrder(ids, streams) && streams'.Keys == streams.Keys
    requires forall id :: id in streams ==>
               if id in ids then !streams'[id].recv.Readable() else streams'[id] == streams[id]
    ensures NothingToRead(streams')
  {
  }

  predicate AllValid(res: map<StreamId, Cursor>) {
    forall id :: id in res ==> res[id].Valid()
  }

  function Attempted(res: map<StreamId, Cursor>, streams: map<StreamId, Stream>, id: StreamId)
    : (Option<Cursor>, SendSide)
    requires AllValid(res) && id in res
  {
    WriteOne(res[id], Lookup(streams, id).send)
  }

  /** Every pending response gets one attempt; each attempt concerns its own stream only. */
  function Writes(streams: map<StreamId, Stream>, res: map<StreamId, Cursor>)
    : (map<StreamId, Stream>, map<StreamId, Cursor>)
    requires AllValid(res)
  {
    (map id | id in streams :: if id in res then streams[id].(send := Attempted(res, streams, id).1) else streams[id],
     map id | id in res && Attempted(res, streams, id).0.Some? :: Attempted(res, streams, id).0.value)
  }

  /** The loop over the pending responses with the ids `left` still to come. */
  predicate Halfway(res0: map<StreamId, Cursor>, streams0: map<StreamId, Stream>, left: set<StreamId>,
                    completed: set<StreamId>, res: map<StreamId, Cursor>, streams: map<StreamId, Stream>)
    requires AllValid(res0)
  {
    && left <= res0.Keys && res.Keys == res0.Keys && streams.Keys == streams0.Keys && completed <= res0.Keys - left
    && (forall id :: id in left ==> res[id] == res0[id])
    && (forall id :: id in res0.Keys - left - completed ==> Attempted(res0, streams0, id).0 == Some(res[id]))
    && (forall id :: id in completed ==> Attempted(res0, streams0, id).0.None?)
    && (forall id :: id in streams0 ==>
          streams[id] == if id in res0.Keys - left then streams0[id].(send := Attempted(res0, streams0, id).1)
                         else streams0[id])
  }

  lemma HalfwayDone(res0: map<StreamId, Cursor>, streams0: map<StreamId, Stream>,
                    completed: set<StreamId>, res: map<StreamId, Cursor>, streams: map<StreamId, Stream>)
    requires AllValid(res0) && Halfway(res0, streams0, {}, completed, res, streams)
    ensures (streams, res - completed) == Writes(streams0, res0)
  {
    assert streams == Writes(streams0, res0).0;
    assert res - completed == Writes(streams0, res0).1;
  }

  /** Sending the next request: it is pending from then on, even if the send fails. */
  function SendNext(reqs: seq<Request>, req: map<StreamId, Tx>, streams: map<StreamId, Stream>)
    : (seq<Request>, map<StreamId, Tx>, map<StreamId, Stream>, bool)
  {
    if reqs == [] then (reqs, req, streams, true)
    else
      var r := reqs[0];
      var (sent, s') := SendFin(Lookup(streams, r.id).send, ToBytes(r.size, HEADER_LEN), true);
      (reqs[1..], req[r.id := r.tx], Put(streams, r.id, Lookup(streams, r.id).(send := s')), sent.Ok?)
  }

  class Benchmark {
    var reqs: seq<Request>
    var pendingReq: map<StreamId, Tx>
    var pendingRes: map<StreamId, Cursor>
    var signalled: seq<Tx>

    constructor (reqs: seq<Request>)
      ensures this.reqs == reqs && pendingReq == map[] && pendingRes == map[] && signalled == []
    {
      this.reqs, pendingReq, pendingRes, signalled := reqs, map[], map[], [];
    }

    function Client(conn: QuicheConnection): ClientState
      reads this, conn
    {
      ClientState(conn.streams, pendingReq, signalled, true)
    }

    /** The inner read loop, as the server. */
    method ServerReadLoop(conn: QuicheConnection, id: StreamId, buf: array<byte>)
      requires buf.Length >= HEADER_LEN
      modifies this`pendingRes, conn`streams, buf
      ensures ServerState(buf[..], conn.streams, pendingRes) ==
              ServerReadStream(ServerState(old(buf[..]), old(conn.streams), old(pendingRes)), id)
    {
      ghost var st := Lookup(conn.streams, id);
      ghost var whole := ServerRecv(buf[..], st.recv);
      ghost var last: Option<nat> := None;
      assert Put(conn.streams, id, st) == conn.streams;
      while true
        invariant var rest := ServerRecv(buf[..], Lookup(conn.streams, id).recv);
                  whole == (rest.0, rest.1, if rest.2.Some? then rest.2 else last)
        invariant pendingRes == (if last.Some? then old(pendingRes)[id := Cursor(Zeros(last.value), 0)]
                                 else old(pendingRes))
        invariant conn.streams == Put(old(conn.streams), id, st.(recv := Lookup(conn.streams, id).recv))
        decreases |Lookup(conn.streams, id).recv.unread|, if Lookup(conn.streams, id).recv.done then 0 else 1
      {
        var result := conn.StreamRecv(id, buf);
        if result.Err? {
          break;
        }
        var blob := new Blob(buf[..]);
        var bytes := blob.Collect();
        pendingRes := pendingRes[id := Cursor(bytes, 0)];
        last := Some(Requested(buf[..]));
      }
    }

    /** The inner read loop, as the client. */
    method ClientReadLoop(conn: QuicheConnection, id: StreamId, buf: array<byte>) returns (result: Result<()>)
      requires buf.Length > 0
      modifies this`pendingReq, this`signalled, conn`streams, buf
      ensures Client(conn).(ok := result.Ok?) == ClientReadStream(old(Client(conn)), id)
    {
      while true
        invariant ClientReadStream(Client(conn), id) == ClientReadStream(old(Client(conn)), id)
        invariant buf.Length > 0
        decreases |Lookup(conn.streams, id).recv.unread|, if Lookup(conn.streams, id).recv.done then 0 else 1
      {
        ClientOnce(Client(conn), id, buf[..]);
        var received := conn.StreamRecv(id, buf);
        if received.Err? {
          break;
        }
        var (n, done) := received.value;
        if done {
          if id !in pendingReq {
            return Err;
          }
          signalled := signalled + [pendingReq[id]];
          pendingReq := pendingReq - {id};
        }
      }
      result := Ok(());
    }

    /** Reads every readable stream, with one buffer for them all, zeroed at the start of the call. */
    method ProcessReads(conn: QuicheConnection) returns (result: Result<()>, ghost ids: seq<StreamId>)
      modifies this`pendingReq, this`pendingRes, this`signalled, conn`streams
      ensures IsReadableOrder(ids, old(conn.streams))
      ensures result.Ok? ==> NothingToRead(conn.streams)
      ensures conn.isServer ==>
                && result.Ok? && pendingReq == old(pendingReq) && signalled == old(signalled)
                && var s := ServerReads(ServerState(Zeros(BUF), old(conn.streams), old(pendingRes)), ids);
                   conn.streams == s.streams && pendingRes == s.res
      ensures !conn.isServer ==>
                && pendingRes == old(pendingRes)
                && Client(conn).(ok := result.Ok?) == ClientReads(old(Client(conn)), ids)
    {
      var buf := new byte[BUF](_ => 0);
      assert buf[..] == Zeros(BUF);
      var streams := conn.Readable();
      ids := streams;
      for i := 0 to |streams|
        invariant buf.Length == BUF
        invariant if conn.isServer then
                    && pendingReq == old(pendingReq) && signalled == old(signalled)
                    && ServerReads(ServerState(buf[..], conn.streams, pendingRes), ids[i..]) ==
                       ServerReads(ServerState(Zeros(BUF), old(conn.streams), old(pendingRes)), ids)
                  else
                    && pendingRes == old(pendingRes)
                    && ClientReads(Client(conn), ids[i..]) == ClientReads(old(Client(conn)), ids)
      {
        assert ids[i..][0] == ids[i] && ids[i..][1..] == ids[i + 1..];
        if conn.isServer {
          ServerReadLoop(conn, streams[i], buf);
        } else {
          var one := ClientReadLoop(conn, streams[i], buf);
          if one.Err? {
            return Err, ids;
          }
        }
      }
      if conn.isServer {
        ServerReadsAll(ServerState(Zeros(BUF), old(conn.streams), old(pendingRes)), ids);
      } else {
        ClientReadsAll(old(Client(conn)), ids);
      }
      ReadsLeaveNothing(old(conn.streams), ids, conn.streams);
      result := Ok(());
    }

    /** Sends the next request, if one is waiting, then gives every pending response one attempt. */
    method ProcessWrites(conn: QuicheConnection) returns (result: Result<()>)
      requires AllValid(pendingRes)
      modifies this`reqs, this`pendingReq, this`pendingRes, conn`streams
      ensures AllValid(pendingRes)
      ensures var (reqs', req', streams', sent) := SendNext(old(reqs), old(pendingReq), old(conn.streams));
              && reqs == reqs' && pendingReq == req' && (result.Ok? <==> sent)
              && (conn.streams, pendingRes) == (if sent then Writes(streams', old(pendingRes))
                                                else (streams', old(pendingRes)))
    {
      if reqs != [] {
        var req := reqs[0];
        reqs := reqs[1..];
        pendingReq := pendingReq[req.id := req.tx];
        var sent := conn.StreamSend(req.id, ToBytes(req.size, HEADER_LEN), true);
        if sent.Err? {
          return Err;
        }
      }
      var completed := WriteResponses(conn);
      pendingRes := pendingRes - completed;
      result := Ok(());
    }

    /** One attempt; `done` when nothing of this response remains. */
    method WriteResponse(conn: QuicheConnection, id: StreamId) returns (done: bool)
      requires AllValid(pendingRes) && id in pendingRes
      modifies this`pendingRes, conn`streams
      ensures var st := Lookup(old(conn.streams), id);
              var (c, s') := WriteOne(old(pendingRes)[id], st.send);
              && (done <==> c.None?)
              && conn.streams == Put(old(conn.streams), id, st.(send := s'))
              && id in pendingRes && pendingRes == old(pendingRes)[id := pendingRes[id]] && pendingRes[id].Valid()
              && (!done ==> c == Some(pendingRes[id]))
    {
      var res := pendingRes[id];
      var sent := conn.StreamSend(id, res.Chunk(), true);
      done := false;
      if sent.Ok? {
        res := res.Advance(sent.value);
        pendingRes := pendingRes[id := res];
        done := !res.HasRemaining();
      } else {
        assert pendingRes == pendingRes[id := res];
      }
    }

    /** The loop over the pending responses, in whatever order the table yields them. */
    method WriteResponses(conn: QuicheConnection) returns (completed: set<StreamId>)
      requires AllValid(pendingRes)
      modifies this`pendingRes, conn`streams
      ensures AllValid(pendingRes)
      ensures (conn.streams, pendingRes - completed) == Writes(old(conn.streams), old(pendingRes))
    {
      completed := {};
      var left := pendingRes.Keys;
      ghost var res0, streams0 := pendingRes, conn.streams;
      while left != {}
        invariant AllValid(res0) && AllValid(pendingRes)
        invariant Halfway(res0, streams0, left, completed, pendingRes, conn.streams)
        decreases left
      {
        var id :| id in left;
        var done := WriteResponse(conn, id);
        left := left - {id};
        if done {
          completed := completed + {id};
        }
      }
      HalfwayDone(res0, streams0, completed, pendingRes, conn.streams);
    }
  }
}
