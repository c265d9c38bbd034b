/** Every run of the quiche `Benchmark` as the server: what a stream keeps whose request arrives whole,
    whatever arrives on the others, and exactly which ways of cutting a request it survives. */
module QuicheRuns {
  import opened Wrappers
  import opened Codec
  import opened Protocol
  import opened QuicStream
  import opened Quiche

  datatype QSys = QSys(streams: map<StreamId, Stream>, res: map<StreamId, Cursor>)

  datatype QAction =
    | Open(id: StreamId, credit: nat)
    | Deliver(id: StreamId, bytes: seq<byte>, fin: bool)
    | Grant(id: StreamId, more: nat)
    | Withdraw(id: StreamId, less: nat)
    | FailSend(id: StreamId)
    | FailRecv(id: StreamId)
    | Reads(order: seq<StreamId>)
    | WriteAll

  /** What the transport and the peer may do to one open stream. */
  function Perturb(st: Stream, a: QAction): Stream {
    match a
    case Deliver(_, bytes, fin) =>
      if st.recv.fin then st else st.(recv := st.recv.(unread := st.recv.unread + bytes, fin := fin))
    case Grant(_, more) => st.(send := st.send.(credit := st.send.credit + more))
    case Withdraw(_, less) => st.(send := st.send.(credit := st.send.credit - Min(less, st.send.credit)))
    case FailSend(_) => st.(send := st.send.(failed := true))
    case FailRecv(_) => st.(recv := st.recv.(failed := true))
    case _ => st
  }

  function NewStreamWith(credit: nat): Stream {
    Stream(RecvSide([], [], false, false, false), SendSide([], false, credit, false))
  }

  function QStep(s: QSys, a: QAction): QSys {
    match a
    case Open(id, credit) =>
      if id in s.streams then s else s.(streams := s.streams[id := NewStreamWith(credit)])
    case Reads(order) =>
      if !IsReadableOrder(order, s.streams) then s else
        var s' := ServerReads(ServerState(Zeros(BUF), s.streams, s.res), order);
        QSys(s'.streams, s'.res)
    case WriteAll =>
      if !AllValid(s.res) then s else
        var (streams', res') := Writes(s.streams, s.res);
        QSys(streams', res')
    case _ =>
      s.(streams := Put(s.streams, a.id, Perturb(Lookup(s.streams, a.id), a)))
  }

  function QRun(s: QSys, actions: seq<QAction>): QSys
    decreases |actions|
  {
    if actions == [] then s else QStep(QRun(s, actions[..|actions| - 1]), actions[|actions| - 1])
  }

  const Q_START := QSys(map[], map[])

  // ----- whole requests

  /** The request of stream `id` arrives in one piece with FIN, as the client sends it, and fits the read
      buffer. Nothing is asked of other streams. */
  predicate Whole(a: QAction, id: StreamId) {
    a.Deliver? && a.id == id ==> 8 <= |a.bytes| <= 32768 && a.fin
  }

  predicate WholeWaiting(r: RecvSide) {
    r.fin && HEADER_LEN <= |r.unread| <= BUF
  }

  /** Whatever the buffer held, a whole request is parsed from its own bytes. */
  lemma WholeRecv(buf: seq<byte>, r: RecvSide)
    requires |buf| == BUF && r.Live() && WholeWaiting(r)
    ensures var out := ServerRecv(buf, r);
            out.1 == r.Drained() && out.2 == Some(Requested(r.unread))
  {
    var (n, fin, buf', r') := RecvOnce(buf, r);
    assert r.unread[..n] == r.unread;
    assert buf'[..HEADER_LEN] == r.unread[..HEADER_LEN];
    assert r' == r.Drained();
    assert ServerRecv(buf', r') == (buf', r', None);
  }

  function Answer(r: RecvSide): Cursor
    requires WholeWaiting(r)
  {
    Cursor(Zeros(Requested(r.unread)), 0)
  }

  function PendingIn(res: map<StreamId, Cursor>, id: StreamId): Option<Cursor> {
    if id in res then Some(res[id]) else None
  }

  /** One stream read: its own entry is replaced, no other is touched. */
  lemma ReadStreamIsLocal(s: ServerState, i: StreamId, id: StreamId)
    requires |s.buf| >= HEADER_LEN && i in s.streams && AllValid(s.res)
    ensures var s' := ServerReadStream(s, i);
            && s'.streams.Keys == s.streams.Keys && AllValid(s'.res) && s'.res.Keys <= s.res.Keys + {i}
            && (i != id ==> Lookup(s'.streams, id) == Lookup(s.streams, id)
                            && PendingIn(s'.res, id) == PendingIn(s.res, id))
  {
  }

  /** So what reading makes of a whole request does not depend on the order, on the shared buffer, or on
      what arrived on the other streams. */
  lemma {:induction false} WholeReads(s: ServerState, ids: seq<StreamId>, id: StreamId)
    requires |s.buf| == BUF && AllValid(s.res) && id in s.streams
    requires forall i, j :: 0 <= i < j < |ids| ==> ids[i] != ids[j]
    requires forall i :: i in ids ==> i in s.streams
    requires id in ids ==> s.streams[id].recv.Live() && WholeWaiting(s.streams[id].recv)
    ensures var s', st := ServerReads(s, ids), s.streams[id];
            && s'.streams.Keys == s.streams.Keys && AllValid(s'.res) && s'.res.Keys <= s.res.Keys + s.streams.Keys
            && s'.streams[id] == (if id in ids then st.(recv := st.recv.Drained()) else st)
            && PendingIn(s'.res, id) == (if id in ids then Some(Answer(st.recv)) else PendingIn(s.res, id))
    decreases |ids|
  {
    if ids != [] {
      var s1 := ServerReadStream(s, ids[0]);
      assert ids == [ids[0]] + ids[1..];
      assert ids[0] !in ids[1..];
      ReadStreamIsLocal(s, ids[0], id);
      if ids[0] == id {
        WholeRecv(s.buf, s.streams[id].recv);
      }
      WholeReads(s1, ids[1..], id);
    }
  }

  /** Conservation, for one stream: what was accepted and what remains of the response make up N, and
      the response leaves the table exactly when FIN has been sent, at byte N. */
  predicate StreamKept(st: Stream, c: Option<Cursor>) {
    if st.recv.read == [] then
      && !st.recv.done && c == None && st.send.Out() == Output([], false)
      && (if st.recv.fin then WholeWaiting(st.recv) else st.recv.unread == [])
    else
      && |st.recv.read| >= HEADER_LEN && st.recv.unread == [] && st.recv.fin && st.recv.done
      && var n := Requested(st.recv.read);
         && st.send.data == Zeros(|st.send.data|)
         && match c
            case None => st.send.fin && |st.send.data| == n
            case Some(left) => !st.send.fin && left.Valid() && left.bytes == Zeros(n) && left.pos == |st.send.data|
  }

  function PendingOf(s: QSys, id: StreamId): Option<Cursor> {
    PendingIn(s.res, id)
  }

  predicate QInv(s: QSys, id: StreamId) {
    && AllValid(s.res) && s.res.Keys <= s.streams.Keys
    && (id in s.streams ==> StreamKept(s.streams[id], PendingOf(s, id)))
  }

  lemma ReadsKeep(s: QSys, order: seq<StreamId>, id: StreamId)
    requires QInv(s, id) && IsReadableOrder(order, s.streams)
    ensures QInv(QStep(s, Reads(order)), id)
  {
    var start := ServerState(Zeros(BUF), s.streams, s.res);
    if id in s.streams {
      WholeReads(start, order, id);
      if id in order {
        AnswerKept(s.streams[id]);
      }
    } else {
      ReadsKeepShape(start, order);
    }
  }

  lemma {:induction false} ReadsKeepShape(s: ServerState, ids: seq<StreamId>)
    requires |s.buf| >= HEADER_LEN && AllValid(s.res) && forall i :: i in ids ==> i in s.streams
    ensures var s' := ServerReads(s, ids);
            s'.streams.Keys == s.streams.Keys && AllValid(s'.res) && s'.res.Keys <= s.res.Keys + s.streams.Keys
    decreases |ids|
  {
    if ids != [] {
      ReadStreamIsLocal(s, ids[0], ids[0]);
      ReadsKeepShape(ServerReadStream(s, ids[0]), ids[1..]);
    }
  }

  /** A whole request, once read, is pending with nothing sent. */
  lemma AnswerKept(st: Stream)
    requires st.recv.Live() && WholeWaiting(st.recv) && st.recv.read == [] && st.send.Out() == Output([], false)
    ensures StreamKept(st.(recv := st.recv.Drained()), Some(Answer(st.recv)))
  {
    assert st.recv.Arrived() == st.recv.unread;
  }

  /** One attempt keeps the count, and settles the stream. */
  lemma WriteOneKeeps(st: Stream, c: Cursor)
    requires StreamKept(st, Some(c)) && st.recv.read != []
    ensures c.Valid()
    ensures var (c', s') := WriteOne(c, st.send);
            && StreamKept(st.(send := s'), c') && s'.Granted() == st.send.Granted()
            && (!s'.failed ==> s'.data == Zeros(Min(Requested(st.recv.read), s'.Granted()))
                               && (s'.fin <==> s'.Granted() >= Requested(st.recv.read)))
  {
  }

  lemma WritesKeepValid(streams: map<StreamId, Stream>, res: map<StreamId, Cursor>)
    requires AllValid(res)
    ensures AllValid(Writes(streams, res).1)
  {
    var res' := Writes(streams, res).1;
    forall i | i in res' ensures res'[i].Valid() {
      assert Attempted(res, streams, i).0 == Some(res'[i]);
    }
  }

  lemma WritesKeep(s: QSys, id: StreamId)
    requires QInv(s, id)
    ensures QInv(QStep(s, WriteAll), id)
  {
    WritesKeepValid(s.streams, s.res);
    if id in s.res {
      WriteOneKeeps(s.streams[id], s.res[id]);
    }
  }

  lemma PerturbKeeps(st: Stream, c: Option<Cursor>, a: QAction)
    requires StreamKept(st, c) && (a.Deliver? ==> HEADER_LEN <= |a.bytes| <= BUF && a.fin)
    ensures StreamKept(Perturb(st, a), c)
  {
    assert a.Deliver? ==> [] + a.bytes == a.bytes;
  }

  lemma QStepKeeps(s: QSys, a: QAction, id: StreamId)
    requires QInv(s, id) && Whole(a, id)
    ensures QInv(QStep(s, a), id)
  {
    match a
    case Reads(order) =>
      if IsReadableOrder(order, s.streams) {
        ReadsKeep(s, order, id);
      }
    case WriteAll =>
      WritesKeep(s, id);
    case Open(_, _) =>
    case _ =>
      if a.id == id && id in s.streams {
        PerturbKeeps(s.streams[id], PendingOf(s, id), a);
      }
  }

  lemma {:induction false} QRunKeeps(actions: seq<QAction>, id: StreamId)
    requires forall a :: a in actions ==> Whole(a, id)
    ensures QInv(QRun(Q_START, actions), id)
    decreases |actions|
  {
    if actions != [] {
      QRunKeeps(actions[..|actions| - 1], id);
      QStepKeeps(QRun(Q_START, actions[..|actions| - 1]), actions[|actions| - 1], id);
    }
  }

  /** A stream whose request arrives whole, under any interleaving of reads, writes, credit and failures, and
      whatever the other streams do: it sends a prefix of exactly the response asked for, and FIN once, at
      its end. */
  lemma QuicheSafe(actions: seq<QAction>, id: StreamId)
    requires (forall a :: a in actions ==> Whole(a, id)) && id in QRun(Q_START, actions).streams
    ensures var s := QRun(Q_START, actions);
            var st := s.streams[id];
            && Serving(st.recv.Arrived(), st.send.Out())
            && (st.send.fin ==> Served(st.recv.Arrived(), st.send.Out()))
            && (st.recv.done ==>
                  && |st.recv.read| >= HEADER_LEN
                  && (id !in s.res <==> st.send.fin)
                  && (id in s.res ==> |st.send.data| + |s.res[id].bytes| - s.res[id].pos == Requested(st.recv.read)))
  {
    var s := QRun(Q_START, actions);
    QRunKeeps(actions, id);
    var st := s.streams[id];
    assert st.recv.unread == [] ==> st.recv.Arrived() == st.recv.read;
    assert st.recv.read == [] ==> st.recv.Arrived() == st.recv.unread;
  }

  /** After a `process_writes` such a stream, once its request was read, has all its credit allows. */
  lemma QuicheSettles(actions: seq<QAction>, id: StreamId)
    requires (forall a :: a in actions ==> Whole(a, id)) && id in QRun(Q_START, actions).streams
    requires QRun(Q_START, actions).streams[id].recv.done
    ensures var st := QStep(QRun(Q_START, actions), WriteAll).streams[id];
            && st.recv == QRun(Q_START, actions).streams[id].recv
            && (!st.send.failed ==>
              && |st.recv.read| >= HEADER_LEN
              && st.send.data == Zeros(Min(Requested(st.recv.read), st.send.Granted()))
              && (st.send.fin <==> st.send.Granted() >= Requested(st.recv.read)))
  {
    var s := QRun(Q_START, actions);
    QRunKeeps(actions, id);
    if id in s.res {
      WriteOneKeeps(s.streams[id], s.res[id]);
    }
  }

  /** An order names each stream once that has something to tell its reader, and no other. */
  predicate NamesReadable(order: seq<StreamId>, streams: map<StreamId, Stream>) {
    && (forall i, j :: 0 <= i < j < |order| ==> order[i] != order[j])
    && (forall id :: id in order ==> id in streams)
    && forall id :: id in streams ==>
         (id in order <==> !streams[id].recv.failed && !streams[id].recv.done
                           && (streams[id].recv.unread != [] || streams[id].recv.fin))
  }

  /** Reading tells the server everything there is, whatever it was. */
  lemma ServerReadsLeaveNothing(s: QSys, order: seq<StreamId>)
    requires NamesReadable(order, s.streams)
    ensures NothingToRead(QStep(s, Reads(order)).streams)
    ensures QStep(s, Reads(order)).streams.Keys == s.streams.Keys
  {
    var start := ServerState(Zeros(BUF), s.streams, s.res);
    ServerReadsAll(start, order);
    ReadsLeaveNothing(s.streams, order, ServerReads(start, order).streams);
  }

  /** A whole request that has arrived on a live stream is answered by one read and one write, as far as
      its credit goes. */
  lemma ReadAndWriteAnswer(actions: seq<QAction>, order: seq<StreamId>, id: StreamId)
    requires (forall a :: a in actions ==> Whole(a, id)) && id in QRun(Q_START, actions).streams
    requires NamesReadable(order, QRun(Q_START, actions).streams)
    requires var r := QRun(Q_START, actions).streams[id].recv; r.fin && !r.failed
    ensures var r := QRun(Q_START, actions).streams[id].recv;
            var s := QRun(Q_START, actions + [Reads(order), WriteAll]);
            && id in s.streams && |r.Arrived()| >= HEADER_LEN
            && var send, n := s.streams[id].send, Requested(r.Arrived());
               !send.failed ==> send.data == Zeros(Min(n, send.Granted())) && (send.fin <==> send.Granted() >= n)
  {
    var s := QRun(Q_START, actions);
    var read, both := actions + [Reads(order)], actions + [Reads(order), WriteAll];
    assert read[..|actions|] == actions && both[..|actions| + 1] == read;
    assert QRun(Q_START, read) == QStep(s, Reads(order));
    ServerReadsLeaveNothing(s, order);
    QRunKeeps(actions, id);
    ReadKeepsInput(s, order, id);
    QuicheSettles(read, id);
  }

  /** Once FIN has come, a read leaves everything that arrived in the hands of the server. */
  lemma ReadKeepsInput(s: QSys, order: seq<StreamId>, id: StreamId)
    requires QInv(s, id) && id in s.streams && NamesReadable(order, s.streams)
    requires s.streams[id].recv.fin && !s.streams[id].recv.failed
    ensures var s' := QStep(s, Reads(order));
            id in s'.streams && s'.streams[id].recv.done && s'.streams[id].recv.read == s.streams[id].recv.Arrived()
  {
    ReadsAre(s, order, id);
    var r := s.streams[id].recv;
    assert id in order <==> !r.done;
    assert r.unread == [] ==> r.Arrived() == r.read;
  }

  lemma NamedIsReadable(order: seq<StreamId>, streams: map<StreamId, Stream>)
    requires NamesReadable(order, streams)
    ensures IsReadableOrder(order, streams)
  {
  }

  lemma NamedIsWhole(s: QSys, order: seq<StreamId>, id: StreamId)
    requires QInv(s, id) && NamesReadable(order, s.streams) && id in order
    ensures s.streams[id].recv.Live() && WholeWaiting(s.streams[id].recv)
  {
  }

  lemma ReadsAre(s: QSys, order: seq<StreamId>, id: StreamId)
    requires QInv(s, id) && id in s.streams && NamesReadable(order, s.streams)
    ensures var s', st := QStep(s, Reads(order)), s.streams[id];
            && id in s'.streams
            && s'.streams[id] == (if id in order then st.(recv := st.recv.Drained()) else st)
  {
    NamedIsReadable(order, s.streams);
    if id in order {
      NamedIsWhole(s, order, id);
    }
    WholeReads(ServerState(Zeros(BUF), s.streams, s.res), order, id);
  }

  // ----- requests that arrive in pieces

  function Sum(lens: seq<nat>): nat {
    if lens == [] then 0 else lens[0] + Sum(lens[1..])
  }

  /** `bytes` cut into consecutive pieces of the given lengths. */
  function Cut(bytes: seq<byte>, lens: seq<nat>): (pieces: seq<seq<byte>>)
    requires Sum(lens) == |bytes|
    ensures |pieces| == |lens| && forall i :: 0 <= i < |lens| ==> |pieces[i]| == lens[i]
    decreases |lens|
  {
    if lens == [] then [] else [bytes[..lens[0]]] + Cut(bytes[lens[0]..], lens[1..])
  }

  /** A piece arrives and is read, for every piece in turn; FIN comes with the last. */
  function Arrivals(id: StreamId, pieces: seq<seq<byte>>): seq<QAction> {
    if pieces == [] then []
    else [Deliver(id, pieces[0], |pieces| == 1), Reads([id])] + Arrivals(id, pieces[1..])
  }

  /** A fresh stream on which nothing has been sent yet. */
  function OneStream(id: StreamId, credit: nat): QSys {
    QSys(map[id := NewStreamWith(credit)], map[])
  }

  lemma {:induction false} QRunConcat(s: QSys, first: seq<QAction>, second: seq<QAction>)
    ensures QRun(s, first + second) == QRun(QRun(s, first), second)
    decreases |second|
  {
    if second == [] {
      assert first + second == first;
    } else {
      QRunConcat(s, first, second[..|second| - 1]);
      assert (first + second)[..|first + second| - 1] == first + second[..|second| - 1];
    }
  }

  /** A short piece is parsed on top of the zeroed buffer. */
  function Padded(piece: seq<byte>): (p: seq<byte>)
    requires |piece| <= HEADER_LEN
    ensures |p| == HEADER_LEN
  {
    piece + Zeros(HEADER_LEN - |piece|)
  }

  lemma ShortRecv(r: RecvSide)
    requires r.Readable() && |r.unread| <= HEADER_LEN
    ensures var out := ServerRecv(Zeros(BUF), r);
            out.1 == r.Drained() && out.2 == Some(Requested(Padded(r.unread)))
  {
    var (n, fin, buf', r') := RecvOnce(Zeros(BUF), r);
    assert r.unread[..n] == r.unread;
    assert buf'[..HEADER_LEN] == Padded(r.unread)[..HEADER_LEN];
    assert r' == r.Drained();
    assert ServerRecv(buf', r') == (buf', r', None);
  }

  lemma PieceRead(s: QSys, id: StreamId, piece: seq<byte>, fin: bool)
    requires s.streams.Keys == {id} && s.res.Keys <= {id} && |piece| <= HEADER_LEN && (piece != [] || fin)
    requires s.streams[id].recv.unread == [] && !s.streams[id].recv.fin && s.streams[id].recv.Live()
    ensures var s' := QRun(s, [Deliver(id, piece, fin), Reads([id])]);
            && s'.streams.Keys == {id} && s'.streams[id].send == s.streams[id].send
            && s'.streams[id].recv.unread == [] && s'.streams[id].recv.fin == s'.streams[id].recv.done == fin
            && !s'.streams[id].recv.failed
            && s'.res == map[id := Cursor(Zeros(Requested(Padded(piece))), 0)]
  {
    var s1 := QStep(s, Deliver(id, piece, fin));
    QRunTwo(s, Deliver(id, piece, fin), Reads([id]));
    assert [] + piece == piece;
    assert s1.streams[id].recv == s.streams[id].recv.(unread := piece, fin := fin);
    ShortReadStream(s1, id);
  }

  /** Reading the only stream, a short piece waiting on it. */
  lemma ShortReadStream(s: QSys, id: StreamId)
    requires s.streams.Keys == {id}
    requires s.streams[id].recv.Readable() && |s.streams[id].recv.unread| <= HEADER_LEN
    ensures var st := s.streams[id];
            var s' := QStep(s, Reads([id]));
            && s'.streams == s.streams[id := st.(recv := st.recv.Drained())]
            && s'.res == s.res[id := Cursor(Zeros(Requested(Padded(st.recv.unread))), 0)]
  {
    assert IsReadableOrder([id], s.streams);
    ShortRecv(s.streams[id].recv);
    ReadsOne(ServerState(Zeros(BUF), s.streams, s.res), id);
  }

  lemma QRunTwo(s: QSys, a: QAction, b: QAction)
    ensures QRun(s, [a, b]) == QStep(QStep(s, a), b)
  {
    assert [a, b][..1] == [a] && [a][..0] == [];
    assert QRun(s, [a]) == QStep(s, a);
  }

  lemma ReadsOne(s: ServerState, id: StreamId)
    requires |s.buf| >= HEADER_LEN
    ensures ServerReads(s, [id]) == ServerReadStream(s, id)
  {
  }

  predicate Shape(lens: seq<nat>) {
    && lens != [] && Sum(lens) == HEADER_LEN
    && forall i :: 0 <= i < |lens| - 1 ==> lens[i] > 0
  }

  lemma ArrivalsThen(s: QSys, id: StreamId, pieces: seq<seq<byte>>)
    requires pieces != []
    ensures QRun(s, Arrivals(id, pieces)) ==
            QRun(QRun(s, [Deliver(id, pieces[0], |pieces| == 1), Reads([id])]), Arrivals(id, pieces[1..]))
  {
    QRunConcat(s, [Deliver(id, pieces[0], |pieces| == 1), Reads([id])], Arrivals(id, pieces[1..]));
  }

  /** After reading a request cut into pieces, the response is sized by the last piece alone. */
  lemma {:induction false} LastPieceDecides(s: QSys, id: StreamId, pieces: seq<seq<byte>>)
    requires s.streams.Keys == {id} && s.res.Keys <= {id}
    requires s.streams[id].recv.unread == [] && !s.streams[id].recv.fin && s.streams[id].recv.Live()
    requires pieces != [] && forall i :: 0 <= i < |pieces| ==> |pieces[i]| <= HEADER_LEN
    requires forall i :: 0 <= i < |pieces| - 1 ==> pieces[i] != []
    ensures var s' := QRun(s, Arrivals(id, pieces));
            && s'.res == map[id := Cursor(Zeros(Requested(Padded(pieces[|pieces| - 1]))), 0)]
            && s'.streams.Keys == {id} && s'.streams[id].send == s.streams[id].send
    decreases |pieces|
  {
    var next, rest := QRun(s, [Deliver(id, pieces[0], |pieces| == 1), Reads([id])]), pieces[1..];
    PieceRead(s, id, pieces[0], |pieces| == 1);
    ArrivalsThen(s, id, pieces);
    if rest != [] {
      assert forall i :: 0 <= i < |rest| ==> rest[i] == pieces[i + 1];
      LastPieceDecides(next, id, rest);
    }
  }

  lemma {:induction false} LastOfCut(bytes: seq<byte>, lens: seq<nat>)
    requires lens != [] && Sum(lens) == |bytes|
    ensures lens[|lens| - 1] <= |bytes|
    ensures Cut(bytes, lens)[|lens| - 1] == bytes[|bytes| - lens[|lens| - 1]..]
    ensures |lens| > 1 && lens[0] > 0 ==> lens[|lens| - 1] < |bytes|
    decreases |lens|
  {
    if |lens| > 1 {
      LastOfCut(bytes[lens[0]..], lens[1..]);
    } else {
      assert lens[1..] == [];
    }
  }

  lemma {:induction false} SumBounds(lens: seq<nat>, i: nat)
    requires i < |lens|
    ensures lens[i] <= Sum(lens)
  {
    if i > 0 {
      SumBounds(lens[1..], i - 1);
    }
  }

  /** The response in the table after `request` arrived cut into `lens`, nothing being written meanwhile. */
  function ResponseAfter(id: StreamId, credit: nat, request: seq<byte>, lens: seq<nat>): map<StreamId, Cursor>
    requires Sum(lens) == |request|
  {
    QRun(OneStream(id, credit), Arrivals(id, Cut(request, lens))).res
  }

  lemma ResponseAfterIs(id: StreamId, credit: nat, request: seq<byte>, lens: seq<nat>)
    requires Shape(lens) && |request| == HEADER_LEN
    ensures var k := lens[|lens| - 1];
            && k <= HEADER_LEN && (|lens| > 1 ==> k < HEADER_LEN)
            && ResponseAfter(id, credit, request, lens) ==
               map[id := Cursor(Zeros(Requested(Padded(request[HEADER_LEN - k..]))), 0)]
  {
    LastOfCut(request, lens);
    forall i | 0 <= i < |lens| ensures lens[i] <= HEADER_LEN {
      SumBounds(lens, i);
    }
    LastPieceDecides(OneStream(id, credit), id, Cut(request, lens));
  }

  lemma WholeIsSafe(id: StreamId, credit: nat, lens: seq<nat>, request: seq<byte>)
    requires Shape(lens) && |lens| == 1 && |request| == HEADER_LEN
    ensures ResponseAfter(id, credit, request, lens) == map[id := Cursor(Zeros(Requested(request)), 0)]
  {
    assert lens[0] == HEADER_LEN by {
      assert Sum(lens) == lens[0] + Sum(lens[1..]);
      assert Sum(lens[1..]) == 0;
    }
    ResponseAfterIs(id, credit, request, lens);
    assert Padded(request[0..]) == request;
  }

  /** Cut in any other way, a request for one byte is answered with another number of bytes. */
  lemma CutIsUnsafe(id: StreamId, credit: nat, lens: seq<nat>) returns (request: seq<byte>)
    requires Shape(lens) && |lens| > 1
    ensures |request| == HEADER_LEN
    ensures ResponseAfter(id, credit, request, lens) != map[id := Cursor(Zeros(Requested(request)), 0)]
  {
    request := Zeros(7) + [1];
    ResponseAfterIs(id, credit, request, lens);
    var p := Padded(request[HEADER_LEN - lens[|lens| - 1]..]);
    assert p[7] == 0 && request[7] == 1;
    assert p[..HEADER_LEN] == p && request[..HEADER_LEN] == request;
    if Requested(p) == Requested(request) {
      BigEndianInjective(p, request);
    }
    assert |Zeros(Requested(p))| != |Zeros(Requested(request))|;
    assert ResponseAfter(id, credit, request, lens)[id].bytes != Zeros(Requested(request));
  }

  /** Exactly which ways of cutting the 8-byte request are safe: those in one piece. Any other way
      makes the server size some request wrongly. */
  lemma OnlyWholeIsSafe(id: StreamId, credit: nat, lens: seq<nat>)
    requires Shape(lens)
    ensures (forall request: seq<byte> :: |request| == HEADER_LEN ==>
               ResponseAfter(id, credit, request, lens) == map[id := Cursor(Zeros(Requested(request)), 0)])
            <==> |lens| == 1
  {
    if |lens| == 1 {
      forall request: seq<byte> | |request| == HEADER_LEN
        ensures ResponseAfter(id, credit, request, lens) == map[id := Cursor(Zeros(Requested(request)), 0)]
      {
        WholeIsSafe(id, credit, lens, request);
      }
    } else {
      var request := CutIsUnsafe(id, credit, lens);
    }
  }

  /** In particular a FIN that arrives after the header was read replaces the response by an empty one:
      whatever was asked for, the next write sends FIN and no byte. */
  lemma LateFinTruncates(id: StreamId, credit: nat, request: seq<byte>)
    requires |request| == HEADER_LEN
    ensures var s := QRun(OneStream(id, credit), Arrivals(id, [request, []]));
            var s' := QStep(s, WriteAll);
            id in s'.streams && s'.streams[id].send.Out() == Output([], true)
  {
    LastPieceDecides(OneStream(id, credit), id, [request, []]);
    var s := QRun(OneStream(id, credit), Arrivals(id, [request, []]));
    assert Padded([]) == Zeros(HEADER_LEN);
    ZeroValue(HEADER_LEN);
    assert Zeros(HEADER_LEN)[..HEADER_LEN] == Zeros(HEADER_LEN);
    assert s.res[id] == Cursor([], 0) by { assert Zeros(0) == []; }
    assert s.streams[id].send == SendSide([], false, credit, false);
    var c := s.res[id];
    assert SendFin(s.streams[id].send, c.Chunk(), true).1.Out() == Output([], true);
  }

  lemma {:induction false} ZeroValue(k: nat)
    ensures BigEndian(Zeros(k)) == 0
  {
    if k > 0 {
      ZeroValue(k - 1);
      assert Zeros(k)[..k - 1] == Zeros(k - 1);
    }
  }
}
