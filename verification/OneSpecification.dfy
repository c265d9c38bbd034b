/** The three servers refine one specification: given the same header, each completed exchange is the same. */
module OneSpecification {
  import opened Codec
  import opened Protocol
  import QS = QuicStream
  import N = NeqoRuns
  import NS = NeqoServer
  import Q = QuicheRuns
  import M = Msquic

  /** A neqo stream whose events are all handled. */
  lemma NeqoServes(n: nat, leftover: NS.Table, actions: seq<N.Action>, id: QS.StreamId)
    requires n < U64 && id % 4 == 0
    requires var s := N.Run(N.Start(leftover), actions);
             && s.queue == [] && id in s.streams
             && s.streams[id].recv.Arrived() == ToBytes(n, HEADER_LEN)
             && !s.streams[id].recv.failed && !s.streams[id].send.failed && s.streams[id].send.Granted() >= n
    ensures N.Run(N.Start(leftover), actions).streams[id].send.Out() == Output(Zeros(n), true)
  {
    N.RunKeeps(leftover, actions);
    N.QuietIsSettled(N.Run(N.Start(leftover), actions), id);
    HeaderOf(n);
  }

  /** A quiche stream after a write, its whole request read. */
  lemma QuicheServes(n: nat, actions: seq<Q.QAction>, id: QS.StreamId)
    requires n < U64 && forall a :: a in actions ==> Q.Whole(a, id)
    requires var s := Q.QRun(Q.Q_START, actions);
             id in s.streams && s.streams[id].recv.done && s.streams[id].recv.read == ToBytes(n, HEADER_LEN)
    requires var s := Q.QStep(Q.QRun(Q.Q_START, actions), Q.WriteAll);
             id in s.streams && !s.streams[id].send.failed && s.streams[id].send.Granted() >= n
    ensures Q.QStep(Q.QRun(Q.Q_START, actions), Q.WriteAll).streams[id].send.Out() == Output(Zeros(n), true)
  {
    Q.QuicheSettles(actions, id);
    HeaderOf(n);
  }

  /** An msquic stream after the end of the request, for sizes of 32 bits. */
  lemma MsquicServes(n: nat, events: seq<M.Event>)
    requires n < U32
    requires (forall ev :: ev in events ==> !ev.PeerSendShutdown?) && M.Input(events) == ToBytes(n, HEADER_LEN)
    ensures M.Run(events + [M.PeerSendShutdown(true)]).out == Output(Zeros(n), true)
  {
    M.OneShot(events, true);
    HeaderOf(n);
  }
}
