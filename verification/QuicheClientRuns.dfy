/** Every run of the quiche `Benchmark` as the client: which requests are pending, which are completed. */
module QuicheClientRuns {
  import opened Codec
  import opened Protocol
  import opened QuicStream
  import opened Quiche
  import opened QuicheRuns

  /** `reqs` are the requests still in the channel; `ok` until a call returned an error. */
  datatype CSys = CSys(streams: map<StreamId, Stream>, reqs: seq<Request>, req: map<StreamId, Tx>,
                       signalled: seq<Tx>, ok: bool)

  function CStep(s: CSys, a: QAction): CSys {
    match a
    case Open(id, credit) =>
      if id in s.streams then s else s.(streams := s.streams[id := NewStreamWith(credit)])
    case Reads(order) =>
      if !s.ok || !IsReadableOrder(order, s.streams) then s else
        var c := ClientReads(ClientState(s.streams, s.req, s.signalled, true), order);
        CSys(c.streams, s.reqs, c.req, c.signalled, c.ok)
    case WriteAll =>
      if !s.ok then s else
        var (reqs', req', streams', sent) := SendNext(s.reqs, s.req, s.streams);
        CSys(streams', reqs', req', s.signalled, sent)
    case _ =>
      s.(streams := Put(s.streams, a.id, Perturb(Lookup(s.streams, a.id), a)))
  }

  function CRun(s: CSys, actions: seq<QAction>): CSys
    decreases |actions|
  {
    if actions == [] then s else CStep(CRun(s, actions[..|actions| - 1]), actions[|actions| - 1])
  }

  function CStart(all: seq<Request>): CSys {
    CSys(map[], all, map[], [], true)
  }

  /** Each request has its own stream and its own completion channel. */
  predicate Distinct(all: seq<Request>) {
    forall i, j :: 0 <= i < j < |all| ==> all[i].id != all[j].id && all[i].tx != all[j].tx
  }

  /** The streams on which FIN has been read. */
  function Finished(streams: map<StreamId, Stream>): set<StreamId> {
    set id | id in streams && streams[id].recv.done
  }

  function Ids(sent: seq<Request>): set<StreamId> {
    set q | q in sent :: q.id
  }

  function TxsOf(sent: seq<Request>, fin: set<StreamId>): set<Tx> {
    set q | q in sent && q.id in fin :: q.tx
  }

  /** Exactly the requests in `sent` whose stream is finished have been signalled, once each. */
  predicate Signals(sent: seq<Request>, fin: set<StreamId>, signalled: seq<Tx>) {
    && (forall i, j :: 0 <= i < j < |signalled| ==> signalled[i] != signalled[j])
    && (set t | t in signalled) == TxsOf(sent, fin)
  }

  /** Exactly the others are pending, each with its own completion. */
  predicate Pending(sent: seq<Request>, fin: set<StreamId>, req: map<StreamId, Tx>) {
    && fin <= Ids(sent)
    && req.Keys == Ids(sent) - fin
    && forall q :: q in sent && q.id in req ==> req[q.id] == q.tx
  }

  /** The channel holds the requests not yet taken. */
  predicate Channel(all: seq<Request>, s: CSys) {
    |s.reqs| <= |all| && s.reqs == all[|all| - |s.reqs|..]
  }

  /** The requests taken from the channel. */
  function Taken(all: seq<Request>, s: CSys): seq<Request>
    requires |s.reqs| <= |all|
  {
    all[..|all| - |s.reqs|]
  }

  predicate CInv(all: seq<Request>, s: CSys) {
    && Channel(all, s)
    && Signals(Taken(all, s), Finished(s.streams), s.signalled)
    && (s.ok ==> Pending(Taken(all, s), Finished(s.streams), s.req))
  }

  /** Taking the next request moves it from the channel to those taken. */
  lemma TakeMoves(all: seq<Request>, s: CSys)
    requires Channel(all, s) && s.ok && s.reqs != []
    ensures var s', k := CStep(s, WriteAll), |all| - |s.reqs|;
            && Channel(all, s') && s'.reqs == s.reqs[1..]
            && s.reqs[0] == all[k] && Taken(all, s') == Taken(all, s) + [s.reqs[0]]
  {
    var k := |all| - |s.reqs|;
    assert all[k..][1..] == all[k + 1..] && all[..k + 1] == all[..k] + [all[k]];
  }

  lemma SameRequest(sent: seq<Request>, p: Request, q: Request)
    requires Distinct(sent) && p in sent && q in sent && (p.id == q.id || p.tx == q.tx)
    ensures p == q
  {
  }

  lemma FinishOne(sent: seq<Request>, fin: set<StreamId>, req: map<StreamId, Tx>, signalled: seq<Tx>, id: StreamId)
    requires Distinct(sent) && Signals(sent, fin, signalled) && Pending(sent, fin, req) && id in req
    ensures Signals(sent, fin + {id}, signalled + [req[id]])
    ensures Pending(sent, fin + {id}, req - {id})
  {
    assert id in Ids(sent);
    var q :| q in sent && q.id == id;
    if q.tx in signalled {
      assert q.tx in (set t | t in signalled);
      assert q.tx in TxsOf(sent, fin);
      var p :| p in sent && p.id in fin && p.tx == q.tx;
      SameRequest(sent, p, q);
      assert false;
    }
    forall p | p in sent && p.id == id ensures p == q {
      SameRequest(sent, p, q);
    }
    assert TxsOf(sent, fin + {id}) == TxsOf(sent, fin) + {q.tx};
    assert (set t | t in signalled + [q.tx]) == (set t | t in signalled) + {q.tx};
  }

  /** FIN on a stream without a pending request does not disturb what was signalled. */
  lemma FinishUnknown(sent: seq<Request>, fin: set<StreamId>, req: map<StreamId, Tx>, signalled: seq<Tx>, id: StreamId)
    requires Signals(sent, fin, signalled) && Pending(sent, fin, req) && id !in req && id !in fin
    ensures Signals(sent, fin + {id}, signalled)
  {
  }

  lemma ReadStreamKeeps(sent: seq<Request>, s: ClientState, id: StreamId)
    requires Distinct(sent) && s.ok && id in s.streams
    requires Signals(sent, Finished(s.streams), s.signalled) && Pending(sent, Finished(s.streams), s.req)
    ensures var s' := ClientReadStream(s, id);
            && s'.streams.Keys == s.streams.Keys
            && Signals(sent, Finished(s'.streams), s'.signalled)
            && (s'.ok ==> Pending(sent, Finished(s'.streams), s'.req))
  {
    var s' := ClientReadStream(s, id);
    var r := s.streams[id].recv;
    if r.Readable() && r.fin {
      assert Finished(s'.streams) == Finished(s.streams) + {id};
      if id in s.req {
        FinishOne(sent, Finished(s.streams), s.req, s.signalled, id);
      } else {
        FinishUnknown(sent, Finished(s.streams), s.req, s.signalled, id);
      }
    } else {
      assert Finished(s'.streams) == Finished(s.streams);
    }
  }

  lemma {:induction false} ReadsKeepSignals(sent: seq<Request>, s: ClientState, ids: seq<StreamId>)
    requires Distinct(sent) && Signals(sent, Finished(s.streams), s.signalled)
    requires s.ok ==> Pending(sent, Finished(s.streams), s.req)
    requires forall id :: id in ids ==> id in s.streams
    ensures var s' := ClientReads(s, ids);
            && Signals(sent, Finished(s'.streams), s'.signalled)
            && (s'.ok ==> Pending(sent, Finished(s'.streams), s'.req))
    decreases |ids|
  {
    if ids != [] && s.ok {
      ReadStreamKeeps(sent, s, ids[0]);
      ReadsKeepSignals(sent, ClientReadStream(s, ids[0]), ids[1..]);
    }
  }

  lemma TakeOne(sent: seq<Request>, fin: set<StreamId>, req: map<StreamId, Tx>, signalled: seq<Tx>, q: Request)
    requires Distinct(sent + [q]) && Signals(sent, fin, signalled) && Pending(sent, fin, req)
    ensures Signals(sent + [q], fin, signalled) && Pending(sent + [q], fin, req[q.id := q.tx])
  {
    var more := sent + [q];
    assert more[|sent|] == q;
    forall p | p in sent ensures p.id != q.id {
      var i :| 0 <= i < |sent| && sent[i] == p;
      assert more[i] == p;
    }
    assert Ids(more) == Ids(sent) + {q.id};
    assert q.id !in Ids(sent);
    assert TxsOf(more, fin) == TxsOf(sent, fin);
  }

  lemma SendNextKeeps(all: seq<Request>, s: CSys)
    requires Distinct(all) && CInv(all, s) && s.ok && s.reqs != []
    ensures CInv(all, CStep(s, WriteAll))
  {
    TakeMoves(all, s);
    assert Finished(CStep(s, WriteAll).streams) == Finished(s.streams);
    DistinctPart(all, |all| - |s.reqs| + 1);
    TakeOne(Taken(all, s), Finished(s.streams), s.req, s.signalled, s.reqs[0]);
  }

  lemma DistinctPart(all: seq<Request>, k: nat)
    requires Distinct(all) && k <= |all|
    ensures Distinct(all[..k])
  {
  }

  lemma CStepKeeps(all: seq<Request>, s: CSys, a: QAction)
    requires Distinct(all) && CInv(all, s)
    ensures CInv(all, CStep(s, a))
  {
    if a.Reads? {
      if s.ok && IsReadableOrder(a.order, s.streams) {
        ReadsKeepSignals(Taken(all, s), ClientState(s.streams, s.req, s.signalled, true), a.order);
      }
    } else if a.WriteAll? {
      if s.ok && s.reqs != [] {
        SendNextKeeps(all, s);
      }
    } else {
      assert Finished(CStep(s, a).streams) == Finished(s.streams);
    }
  }

  lemma {:induction false} CRunKeeps(all: seq<Request>, actions: seq<QAction>)
    requires Distinct(all)
    ensures CInv(all, CRun(CStart(all), actions))
    decreases |actions|
  {
    if actions != [] {
      CRunKeeps(all, actions[..|actions| - 1]);
      CStepKeeps(all, CRun(CStart(all), actions[..|actions| - 1]), actions[|actions| - 1]);
    }
  }

  /** In every run: a completion is signalled at most once, and exactly for the requests taken from the
      channel whose own stream has delivered FIN; and until an error ends the connection, the pending
      table holds exactly the other requests taken, each with its own completion. */
  lemma CompletionsAreRight(all: seq<Request>, actions: seq<QAction>, q: Request)
    requires Distinct(all) && q in all
    ensures var s := CRun(CStart(all), actions);
            && |s.reqs| <= |all|
            && var sent, fin := Taken(all, s), Finished(s.streams);
               && (q.tx in s.signalled <==> q in sent && q.id in fin)
               && (forall i, j :: 0 <= i < j < |s.signalled| ==> s.signalled[i] != s.signalled[j])
               && (s.ok ==> (q.id in s.req <==> q in sent && q.id !in fin))
               && (s.ok && q.id in s.req ==> s.req[q.id] == q.tx)
  {
    CRunKeeps(all, actions);
    var s := CRun(CStart(all), actions);
    Membership(all, Taken(all, s), Finished(s.streams), q);
    assert q.tx in s.signalled <==> q.tx in (set t | t in s.signalled);
  }

  /** Reads that end in an error met FIN on a stream without a pending request. */
  lemma {:induction false} ReadsErrOnUnknown(s: ClientState, ids: seq<StreamId>) returns (id: StreamId)
    requires s.ok && !ClientReads(s, ids).ok
    requires forall i, j :: 0 <= i < j < |ids| ==> ids[i] != ids[j]
    requires forall i :: i in ids ==> i in s.streams
    ensures id in ids && s.streams[id].recv.Readable() && s.streams[id].recv.fin && id !in s.req
    decreases |ids|
  {
    var s1 := ClientReadStream(s, ids[0]);
    assert ids == [ids[0]] + ids[1..];
    if !s1.ok {
      id := ids[0];
    } else {
      assert ids[0] !in ids[1..];
      id := ReadsErrOnUnknown(s1, ids[1..]);
    }
  }

  lemma {:induction false} ReadsKeepFin(s: ClientState, ids: seq<StreamId>)
    requires forall i :: i in ids ==> i in s.streams
    ensures var s' := ClientReads(s, ids);
            && s'.streams.Keys == s.streams.Keys
            && forall id :: id in s.streams ==>
                 && s'.streams[id].recv.fin == s.streams[id].recv.fin
                 && s'.streams[id].recv.failed == s.streams[id].recv.failed
                 && (s.streams[id].recv.done ==> s'.streams[id].recv.done)
    decreases |ids|
  {
    if ids != [] && s.ok {
      ReadsKeepFin(ClientReadStream(s, ids[0]), ids[1..]);
    }
  }

  /** Every stream on which FIN has come, and that has not failed, belongs to a request taken. */
  predicate Owned(all: seq<Request>, s: CSys)
    requires |s.reqs| <= |all|
  {
    forall id :: id in s.streams && s.streams[id].recv.fin && !s.streams[id].recv.failed ==> id in Ids(Taken(all, s))
  }

  /** Every request taken whose whole response has come on a live stream has been signalled. */
  predicate Complete(all: seq<Request>, s: CSys)
    requires |s.reqs| <= |all|
  {
    forall q :: q in Taken(all, s) && q.id in s.streams
                && s.streams[q.id].recv.fin && !s.streams[q.id].recv.failed ==>
                  q.tx in s.signalled
  }

  lemma OkLeavesNothing(s: CSys, order: seq<StreamId>)
    requires s.ok && NamesReadable(order, s.streams) && CStep(s, Reads(order)).ok
    ensures NothingToRead(CStep(s, Reads(order)).streams)
  {
    var c := ClientState(s.streams, s.req, s.signalled, true);
    ClientReadsAll(c, order);
    ReadsLeaveNothing(s.streams, order, ClientReads(c, order).streams);
  }

  lemma NothingLeftIsComplete(all: seq<Request>, s: CSys)
    requires CInv(all, s) && s.ok && NothingToRead(s.streams)
    ensures Owned(all, s) && Complete(all, s)
  {
    assert forall id :: id in s.streams && s.streams[id].recv.fin && !s.streams[id].recv.failed ==>
                          id in Finished(s.streams);
    forall q | q in Taken(all, s) && q.id in Finished(s.streams) ensures q.tx in s.signalled {
      assert q.tx in TxsOf(Taken(all, s), Finished(s.streams));
    }
  }

  lemma ErrIsUnowned(all: seq<Request>, s: CSys, order: seq<StreamId>)
    requires CInv(all, s) && s.ok && NamesReadable(order, s.streams) && !CStep(s, Reads(order)).ok
    ensures !Owned(all, CStep(s, Reads(order)))
  {
    var c := ClientState(s.streams, s.req, s.signalled, true);
    var id := ReadsErrOnUnknown(c, order);
    ReadsKeepFin(c, order);
    assert id !in Finished(s.streams);
    assert CStep(s, Reads(order)).streams[id].recv.fin;
  }

  /** Reading makes progress, in every run. Unless FIN has come on a stream that no taken request belongs to,
      which is the one thing that makes it an error, it leaves nothing to read; and every request taken whose
      response has arrived, FIN included, on a live stream has been signalled. */
  lemma ReadsComplete(all: seq<Request>, actions: seq<QAction>, order: seq<StreamId>)
    requires Distinct(all)
    requires var s := CRun(CStart(all), actions); s.ok && NamesReadable(order, s.streams)
    ensures var s := CRun(CStart(all), actions + [Reads(order)]);
            && |s.reqs| <= |all|
            && (s.ok <==> Owned(all, s))
            && (s.ok ==> NothingToRead(s.streams) && Complete(all, s))
  {
    var s := CRun(CStart(all), actions);
    assert (actions + [Reads(order)])[..|actions|] == actions;
    CRunKeeps(all, actions);
    CStepKeeps(all, s, Reads(order));
    var s' := CStep(s, Reads(order));
    assert CRun(CStart(all), actions + [Reads(order)]) == s';
    if s'.ok {
      OkLeavesNothing(s, order);
      NothingLeftIsComplete(all, s');
    } else {
      ErrIsUnowned(all, s, order);
    }
  }

  lemma Membership(all: seq<Request>, sent: seq<Request>, fin: set<StreamId>, q: Request)
    requires Distinct(all) && q in all && sent <= all
    ensures q.tx in TxsOf(sent, fin) <==> q in sent && q.id in fin
    ensures q.id in Ids(sent) <==> q in sent
  {
  }

  // ----- what goes out

  function Header(q: Request): seq<byte> {
    ToBytes(q.size, HEADER_LEN)
  }

  /** A part of the header, with FIN if and only if it is all of it. */
  predicate HeaderPart(q: Request, out: Output) {
    out.data <= Header(q) && (out.fin <==> out.data == Header(q))
  }

  /** What each request's stream has been given to send. */
  predicate Sends(taken: seq<Request>, waiting: seq<Request>, streams: map<StreamId, Stream>) {
    && (forall q :: q in waiting && q.id in streams ==> streams[q.id].send.Out() == Output([], false))
    && (forall q :: q in taken && q.id in streams ==> HeaderPart(q, streams[q.id].send.Out()))
  }

  /** Reading leaves every sending side alone. */
  lemma {:induction false} ReadsSendNothing(s: ClientState, ids: seq<StreamId>)
    ensures var s' := ClientReads(s, ids);
            && s'.streams.Keys == s.streams.Keys
            && forall id :: id in s.streams ==> s'.streams[id].send == s.streams[id].send
    decreases |ids|
  {
    if ids != [] && s.ok {
      ReadsSendNothing(ClientReadStream(s, ids[0]), ids[1..]);
    }
  }

  /** A step changes what is sent on a stream only by taking that stream's request. */
  lemma StepSends(s: CSys, a: QAction, id: StreamId)
    requires id in s.streams
    ensures var s' := CStep(s, a);
            && id in s'.streams
            && (!(a.WriteAll? && s.ok && s.reqs != [] && s.reqs[0].id == id) ==>
                  s'.streams[id].send.Out() == s.streams[id].send.Out())
  {
    if a.Reads? {
      ReadsSendNothing(ClientState(s.streams, s.req, s.signalled, true), a.order);
    }
  }

  lemma StepOpens(s: CSys, a: QAction, id: StreamId)
    requires id !in s.streams && id in CStep(s, a).streams
    ensures CStep(s, a).streams[id].send.Out() == Output([], false)
  {
    if a.Reads? {
      ReadsSendNothing(ClientState(s.streams, s.req, s.signalled, true), a.order);
    }
  }

  /** Sending on a fresh stream puts out a part of the header. */
  lemma TakesPart(q: Request, send: SendSide)
    requires send.Out() == Output([], false)
    ensures var s' := SendFin(send, Header(q), true).1;
            HeaderPart(q, s'.Out()) && (!send.failed ==> (s'.fin <==> send.credit >= HEADER_LEN))
  {
    var n := Min(HEADER_LEN, send.credit);
    assert [] + Header(q)[..n] == Header(q)[..n];
    assert n == HEADER_LEN ==> Header(q)[..n] == Header(q);
  }

  predicate HeaderInv(all: seq<Request>, s: CSys) {
    && Channel(all, s)
    && Sends(Taken(all, s), s.reqs, s.streams)
  }

  /** A request is taken or waiting, not both. */
  lemma TakenWaiting(all: seq<Request>, s: CSys, p: Request, q: Request)
    requires Distinct(all) && Channel(all, s) && p in Taken(all, s) && q in s.reqs
    ensures p.id != q.id
  {
    var k := |all| - |s.reqs|;
    var i :| 0 <= i < k && all[i] == p;
    var j :| 0 <= j < |s.reqs| && s.reqs[j] == q;
    assert all[k + j] == q;
  }

  lemma TakeSends(all: seq<Request>, s: CSys)
    requires Distinct(all) && HeaderInv(all, s) && s.ok && s.reqs != []
    ensures HeaderInv(all, CStep(s, WriteAll))
  {
    var k := |all| - |s.reqs|;
    var s', q := CStep(s, WriteAll), s.reqs[0];
    TakeMoves(all, s);
    forall p | p in s'.reqs && p.id in s'.streams ensures s'.streams[p.id].send.Out() == Output([], false) {
      assert p in s.reqs;
      TakenWaiting(all, s', q, p);
      StepSends(s, WriteAll, p.id);
    }
    forall p | p in Taken(all, s') && p.id in s'.streams ensures HeaderPart(p, s'.streams[p.id].send.Out()) {
      if p in Taken(all, s) {
        TakenWaiting(all, s, p, q);
        StepSends(s, WriteAll, p.id);
      } else {
        TakesPart(q, s.streams[q.id].send);
      }
    }
  }

  lemma HeaderStep(all: seq<Request>, s: CSys, a: QAction)
    requires Distinct(all) && HeaderInv(all, s)
    ensures HeaderInv(all, CStep(s, a))
  {
    if a.WriteAll? && s.ok && s.reqs != [] {
      TakeSends(all, s);
    } else {
      var s' := CStep(s, a);
      forall q: Request | q.id in s'.streams
        ensures s'.streams[q.id].send.Out() ==
                if q.id in s.streams then s.streams[q.id].send.Out() else Output([], false)
      {
        if q.id in s.streams {
          StepSends(s, a, q.id);
        } else {
          StepOpens(s, a, q.id);
        }
      }
    }
  }

  lemma {:induction false} HeaderKeeps(all: seq<Request>, actions: seq<QAction>)
    requires Distinct(all)
    ensures HeaderInv(all, CRun(CStart(all), actions))
    decreases |actions|
  {
    if actions != [] {
      HeaderKeeps(all, actions[..|actions| - 1]);
      HeaderStep(all, CRun(CStart(all), actions[..|actions| - 1]), actions[|actions| - 1]);
    }
  }

  /** In every run: a request still in the channel has nothing on its stream; one that was taken has a part
      of its header there, with FIN if and only if that is all of it. */
  lemma HeaderOrPart(all: seq<Request>, actions: seq<QAction>, q: Request)
    requires Distinct(all) && q in all && q.id in CRun(CStart(all), actions).streams
    ensures var s := CRun(CStart(all), actions);
            && |s.reqs| <= |all|
            && var out := s.streams[q.id].send.Out();
               if q in Taken(all, s) then HeaderPart(q, out) else out == Output([], false)
  {
    var s := CRun(CStart(all), actions);
    HeaderKeeps(all, actions);
    TakenOrWaiting(all, s, q);
  }

  lemma TakenOrWaiting(all: seq<Request>, s: CSys, q: Request)
    requires Channel(all, s) && q in all
    ensures q in Taken(all, s) || q in s.reqs
  {
    assert all == Taken(all, s) + s.reqs;
  }

  lemma {:induction false} CRunConcat(s: CSys, first: seq<QAction>, second: seq<QAction>)
    ensures CRun(s, first + second) == CRun(CRun(s, first), second)
    decreases |second|
  {
    if second == [] {
      assert first + second == first;
    } else {
      CRunConcat(s, first, second[..|second| - 1]);
      assert (first + second)[..|first + second| - 1] == first + second[..|second| - 1];
    }
  }

  /** A taken request, and what its stream has been given. */
  predicate Out(all: seq<Request>, s: CSys, q: Request, out: Output) {
    && Channel(all, s) && q in Taken(all, s)
    && q.id in s.streams && s.streams[q.id].send.Out() == out
  }

  lemma OutStep(all: seq<Request>, s: CSys, a: QAction, q: Request, out: Output)
    requires Distinct(all) && Out(all, s, q, out)
    ensures Out(all, CStep(s, a), q, out)
  {
    if a.WriteAll? && s.ok && s.reqs != [] {
      TakeMoves(all, s);
      TakenWaiting(all, s, q, s.reqs[0]);
    } else {
      assert CStep(s, a).reqs == s.reqs;
    }
    StepSends(s, a, q.id);
  }

  /** What a taken request's stream has been given is final: no continuation sends more of it. */
  lemma {:induction false} TakenIsFinal(all: seq<Request>, s: CSys, more: seq<QAction>, q: Request, out: Output)
    requires Distinct(all) && Out(all, s, q, out)
    ensures Out(all, CRun(s, more), q, out)
    decreases |more|
  {
    if more != [] {
      TakenIsFinal(all, s, more[..|more| - 1], q, out);
      OutStep(all, CRun(s, more[..|more| - 1]), more[|more| - 1], q, out);
    }
  }

  /** The client does not look at how much of the header was taken. When the next request of any run is
      taken on a live stream, its header is out, with FIN, after every continuation if there was credit for
      8 bytes, and after none if there was less. */
  lemma HeaderNeedsCredit(all: seq<Request>, actions: seq<QAction>, more: seq<QAction>)
    requires Distinct(all)
    requires var s := CRun(CStart(all), actions);
             s.ok && s.reqs != [] && s.reqs[0].id in s.streams && !s.streams[s.reqs[0].id].send.failed
    ensures var s := CRun(CStart(all), actions);
            var q, s' := s.reqs[0], CRun(CStart(all), actions + ([WriteAll] + more));
            && q.id in s'.streams
            && (s'.streams[q.id].send.Out() == Output(Header(q), true)
                <==> s.streams[q.id].send.credit >= HEADER_LEN)
  {
    var s := CRun(CStart(all), actions);
    var s1 := CStep(s, WriteAll);
    HeaderKeeps(all, actions);
    TakeNext(all, s);
    TakenIsFinal(all, s1, more, s.reqs[0], s1.streams[s.reqs[0].id].send.Out());
    CRunConcat(CStart(all), actions, [WriteAll] + more);
    CRunConcat(s, [WriteAll], more);
    assert [WriteAll][..0] == [];
    assert CRun(s, [WriteAll]) == s1;
  }

  /** A request that the connection refuses ends the run: writing succeeds exactly when the stream of the next
      request is open and takes a byte. Either way the request is pending from then on. */
  lemma RefusedRequestEnds(all: seq<Request>, actions: seq<QAction>, more: seq<QAction>)
    requires Distinct(all)
    requires var s := CRun(CStart(all), actions); s.ok && s.reqs != []
    ensures var s, s' := CRun(CStart(all), actions), CRun(CStart(all), actions + [WriteAll]);
            var q := s.reqs[0];
            && (s'.ok <==> q.id in s.streams && !s.streams[q.id].send.failed && s.streams[q.id].send.credit > 0)
            && s'.reqs == s.reqs[1..] && q.id in s'.req && s'.req[q.id] == q.tx
            && (!s'.ok ==> var end := CRun(s', more); !end.ok && end.req == s'.req && end.signalled == s'.signalled)
  {
    var s := CRun(CStart(all), actions);
    HeaderKeeps(all, actions);
    assert s.reqs[0] in s.reqs;
    assert (actions + [WriteAll])[..|actions|] == actions;
    var s' := CRun(CStart(all), actions + [WriteAll]);
    assert s' == CStep(s, WriteAll);
    if !s'.ok {
      EndedStays(s', more);
    }
  }

  lemma {:induction false} EndedStays(s: CSys, more: seq<QAction>)
    requires !s.ok
    ensures var end := CRun(s, more); !end.ok && end.req == s.req && end.signalled == s.signalled
    decreases |more|
  {
    if more != [] {
      EndedStays(s, more[..|more| - 1]);
    }
  }

  lemma TakeNext(all: seq<Request>, s: CSys)
    requires HeaderInv(all, s) && s.ok && s.reqs != []
    requires s.reqs[0].id in s.streams && !s.streams[s.reqs[0].id].send.failed
    ensures var q, s1 := s.reqs[0], CStep(s, WriteAll);
            && q.id in s1.streams
            && var out := s1.streams[q.id].send.Out();
               && Out(all, s1, q, out)
               && (out == Output(Header(q), true) <==> s.streams[q.id].send.credit >= HEADER_LEN)
  {
    TakeMoves(all, s);
    TakesPart(s.reqs[0], s.streams[s.reqs[0].id].send);
  }

  /** Such runs are reached: with credit for only some of the header the call succeeds, the request counts
      as sent and stays pending, and no continuation sends FIN. */
  lemma PartOfHeaderStays(q: Request, credit: nat, more: seq<QAction>)
    requires 0 < credit < HEADER_LEN
    ensures var s := CRun(CStart([q]), [Open(q.id, credit), WriteAll]);
            && s.ok && s.reqs == [] && q.id in s.req && q.id in s.streams
            && s.streams[q.id].send.Out() == Output(Header(q)[..credit], false)
    ensures var s' := CRun(CStart([q]), [Open(q.id, credit), WriteAll] + more);
            q.id in s'.streams && s'.streams[q.id].send.Out() == Output(Header(q)[..credit], false)
  {
    var acts := [Open(q.id, credit), WriteAll];
    assert acts[..1] == [acts[0]] && acts[..1][..0] == [];
    var s1 := CStep(CStart([q]), acts[0]);
    assert CRun(CStart([q]), acts[..1]) == s1;
    var s := CRun(CStart([q]), acts);
    assert s == CStep(s1, WriteAll);
    assert [] + Header(q)[..credit] == Header(q)[..credit];
    assert Taken([q], s) == [q];
    TakenIsFinal([q], s, more, q, Output(Header(q)[..credit], false));
    CRunConcat(CStart([q]), acts, more);
  }
}
