/** One neqo client and the neqo server, joined by a network that cuts, delays and withholds as it likes. */
module EndToEnd {
  import opened Wrappers
  import opened Codec
  import opened Protocol
  import opened QuicStream
  import opened NeqoServer
  import opened NeqoRuns
  import opened NeqoClient

  /** `n` is the size asked for on stream `id`; `recv`, `events` and `progress` are the client's side. */
  datatype World = World(n: nat, id: StreamId, server: Sys, recv: RecvSide, events: seq<Event>,
                         progress: Progress, phase: Phase)
  {
    function Header(): seq<byte> {
      ToBytes(n, HEADER_LEN)
    }

    /** The server's end of the client's stream. */
    function Far(): Stream {
      Lookup(server.streams, id)
    }
  }

  datatype Act =
    | Serverside(action: Action)        // any step of the server, its other peers, or its credit
    | Up(more: nat, fin: bool)          // some of the header reaches the server
    | Down(more: nat, fin: bool)        // some of the response reaches the client
    | FailDown                          // the client's receiving side fails
    | Raise(event: Event)               // an extra event at the client
    | Poll                              // the client handles its events

  /** What a piece of `from` still on its way looks like on arrival: at most `more` bytes, and FIN only last. */
  function Arrive(from: Output, r: RecvSide, more: nat, fin: bool): (seq<byte>, bool) {
    var sent := Min(|r.Arrived()|, |from.data|);
    var k := Min(sent + more, |from.data|);
    (from.data[sent..k], fin && from.fin && k == |from.data|)
  }

  function Next(w: World, a: Act): (w': World)
    ensures w'.n == w.n && w'.id == w.id
  {
    match a
    case Serverside(action) =>
      if action.Deliver? && action.id == w.id then w else w.(server := Step(w.server, action))
    case Up(more, fin) =>
      if w.id !in w.server.streams then w else
        var (bytes, last) := Arrive(Output(w.Header(), true), w.Far().recv, more, fin);
        w.(server := Step(w.server, Deliver(w.id, bytes, last)))
    case Down(more, fin) =>
      if w.id !in w.server.streams || w.recv.fin then w else
        var (bytes, last) := Arrive(w.Far().send.Out(), w.recv, more, fin);
        var r := w.recv.(unread := w.recv.unread + bytes, fin := last);
        w.(recv := r,
           events := w.events + if r.Readable() && !w.recv.Readable() then [RecvStreamReadable(w.id)] else [])
    case FailDown => w.(recv := w.recv.(failed := true))
    case Raise(event) => w.(events := w.events + [event])
    case Poll =>
      if w.phase != Waiting then w else
        var o := PollSpec(w.events, w.id, w.progress, w.recv);
        w.(recv := o.recv, events := o.rest, progress := o.progress,
           phase := PhaseAfter(o, w.n))
  }

  /** What is at each end of the stream came from the other end. */
  predicate Joined(n: nat, far: Option<Stream>, recv: RecvSide) {
    match far
    case None => recv.Arrived() == [] && !recv.fin
    case Some(st) =>
      && st.recv.Arrived() <= ToBytes(n, HEADER_LEN)
      && (st.recv.fin ==> st.recv.Arrived() == ToBytes(n, HEADER_LEN))
      && recv.Arrived() <= st.send.data
      && (recv.fin ==> st.send.fin && recv.Arrived() == st.send.data)
  }

  function FarOf(s: Sys, id: StreamId): Option<Stream> {
    if id in s.streams then Some(s.streams[id]) else None
  }

  predicate ClientOk(n: nat, id: StreamId, recv: RecvSide, events: seq<Event>, p: Progress, phase: Phase) {
    && Faithful(p, recv)
    && (phase == Waiting ==> !p.done && (recv.Readable() ==> RecvStreamReadable(id) in events))
    && (phase == Succeeded ==> p == Progress(n, true))
    && phase != Mismatch
  }

  ghost predicate Sound(w: World) {
    && w.n < U64
    && ClientBidi(w.id)
    && Inv(w.server)
    && Joined(w.n, FarOf(w.server, w.id), w.recv)
    && ClientOk(w.n, w.id, w.recv, w.events, w.progress, w.phase)
  }

  function Begin(n: nat, id: StreamId, leftover: Table): World {
    World(n, id, Start(leftover), RecvSide([], [], false, false, false), [], Progress(0, false), Waiting)
  }

  /** The server sends at most what was asked for, and FIN only with all of it. */
  lemma FarSends(n: nat, q: seq<Event>, id: StreamId, l: Lane)
    requires n < U64 && StreamOk(q, id, l) && l.stream.recv.Arrived() <= ToBytes(n, HEADER_LEN)
    ensures var out := l.stream.send.Out();
            |out.data| <= n && out.data == Zeros(|out.data|) && (out.fin ==> |out.data| == n)
  {
    HeaderOf(n);
    var up := l.stream.recv;
    if |up.read| >= HEADER_LEN {
      assert up.read == ToBytes(n, HEADER_LEN) by {
        assert up.read <= up.Arrived();
      }
      assert up.read[..HEADER_LEN] == up.read;
    }
  }

  /** A step of the server's side, other than a delivery to the stream, takes nothing back. */
  lemma ServerStep(s: Sys, action: Action, id: StreamId)
    requires id in s.streams
    requires action.Deliver? ==> action.id != id
    ensures var s' := Step(s, action);
            && id in s'.streams
            && s'.streams[id].recv.Arrived() == s.streams[id].recv.Arrived()
            && s'.streams[id].recv.fin == s.streams[id].recv.fin
            && Extends(s.streams[id].send.Out(), s'.streams[id].send.Out())
  {
    if action.Process? && s.queue != [] {
      HandleIsLocal(s.queue[0], s.streams, s.table, id);
      var l := s.Lane(id);
      assert l.stream.recv.Drained().Arrived() == l.stream.recv.Arrived();
      assert Extends(l.stream.send.Out(), OnEvent(s.queue[0], l).stream.send.Out());
      assert Step(s, action).Lane(id).stream == Step(s, action).streams[id];
    }
  }

  lemma ServerStepOpens(s: Sys, action: Action, id: StreamId)
    requires id !in s.streams && id in Step(s, action).streams
    ensures action.Open? && action.id == id
  {
  }

  lemma JoinedArrives(n: nat, st: Stream, recv: RecvSide, more: nat, fin: bool)
    requires Joined(n, Some(st), recv)
    ensures var (bytes, last) := Arrive(Output(ToBytes(n, HEADER_LEN), true), st.recv, more, fin);
            Joined(n, Some(st.(recv := st.recv.(unread := st.recv.unread + bytes, fin := last))), recv)
  {
    var r := st.recv;
    var (bytes, last) := Arrive(Output(ToBytes(n, HEADER_LEN), true), r, more, fin);
    assert r.read + (r.unread + bytes) == r.Arrived() + bytes;
  }

  lemma JoinedUp(w: World, more: nat, fin: bool)
    requires w.id in w.server.streams && Joined(w.n, FarOf(w.server, w.id), w.recv)
    ensures Joined(w.n, FarOf(Next(w, Up(more, fin)).server, w.id), w.recv)
  {
    var r := w.Far().recv;
    var (bytes, last) := Arrive(Output(w.Header(), true), r, more, fin);
    JoinedArrives(w.n, w.Far(), w.recv, more, fin);
    assert Next(w, Up(more, fin)).server.streams[w.id] ==
           if r.fin then w.Far() else w.Far().(recv := r.(unread := r.unread + bytes, fin := last));
  }

  lemma JoinedDown(w: World, more: nat, fin: bool)
    requires Joined(w.n, FarOf(w.server, w.id), w.recv)
    requires ClientOk(w.n, w.id, w.recv, w.events, w.progress, w.phase)
    ensures var w' := Next(w, Down(more, fin));
            Joined(w.n, FarOf(w.server, w.id), w'.recv) && ClientOk(w.n, w.id, w'.recv, w'.events, w.progress, w.phase)
  {
    var w' := Next(w, Down(more, fin));
    if w' != w {
      var (bytes, last) := Arrive(w.Far().send.Out(), w.recv, more, fin);
      assert w.recv.read + (w.recv.unread + bytes) == w.recv.Arrived() + bytes;
    }
  }

  lemma PollKeeps(w: World)
    requires Sound(w) && w.phase == Waiting
    ensures Sound(Next(w, Poll))
  {
    var w' := Next(w, Poll);
    PollReads(w.events, w.id, w.progress, w.recv);
    if w'.recv.done {
      FarSends(w.n, w.server.queue, w.id, w.server.Lane(w.id));
      assert w'.recv.Arrived() == w'.recv.read;
    }
  }

  lemma NextSound(w: World, a: Act)
    requires Sound(w)
    ensures Sound(Next(w, a))
  {
    match a
    case Serverside(action) =>
      StepKeeps(w.server, action);
      if w.id in w.server.streams {
        if !(action.Deliver? && action.id == w.id) {
          ServerStep(w.server, action, w.id);
        }
      } else if w.id in Step(w.server, action).streams {
        ServerStepOpens(w.server, action, w.id);
      }
    case Up(more, fin) =>
      if w.id in w.server.streams {
        var (bytes, last) := Arrive(Output(w.Header(), true), w.Far().recv, more, fin);
        StepKeeps(w.server, Deliver(w.id, bytes, last));
        JoinedUp(w, more, fin);
      }
    case Down(more, fin) =>
      JoinedDown(w, more, fin);
    case FailDown =>
    case Raise(_) =>
    case Poll =>
      if w.phase == Waiting {
        PollKeeps(w);
      }
  }

  function RunWorld(w: World, acts: seq<Act>): (w': World)
    ensures w'.n == w.n && w'.id == w.id
    decreases |acts|
  {
    if acts == [] then w else Next(RunWorld(w, acts[..|acts| - 1]), acts[|acts| - 1])
  }

  lemma {:induction false} RunSound(w: World, acts: seq<Act>)
    requires Sound(w)
    ensures Sound(RunWorld(w, acts))
    decreases |acts|
  {
    if acts != [] {
      RunSound(w, acts[..|acts| - 1]);
      NextSound(RunWorld(w, acts[..|acts| - 1]), acts[|acts| - 1]);
    }
  }

  /** A world one run of the benchmark can reach. */
  function Reached(n: nat, id: StreamId, leftover: Table, acts: seq<Act>): World {
    RunWorld(Begin(n, id, leftover), acts)
  }

  lemma ReachedSound(n: nat, id: StreamId, leftover: Table, acts: seq<Act>)
    requires n < U64 && id % 4 == 0
    ensures Sound(Reached(n, id, leftover, acts))
  {
    RunSound(Begin(n, id, leftover), acts);
  }

  /** End to end, safety: whatever the request, the fragmentation, the credit and the interleaving, at
      every moment received <= accepted <= N; once the client has seen FIN it has all N bytes, so the
      length check never rejects a finished response. */
  lemma ReceivedAcceptedRequested(n: nat, id: StreamId, leftover: Table, acts: seq<Act>)
    requires n < U64 && id % 4 == 0
    ensures var w := Reached(n, id, leftover, acts);
            var out := w.Far().send.Out();
            && w.progress.received <= |out.data| <= n
            && w.recv.read <= out.data == Zeros(|out.data|)
            && (w.progress.done ==> w.progress.received == n && out == Output(Zeros(n), true))
            && w.phase != Mismatch
            && (w.phase == Succeeded ==> w.progress == Progress(n, true))
  {
    var w := Reached(n, id, leftover, acts);
    ReachedSound(n, id, leftover, acts);
    if id in w.server.streams {
      FarSends(n, w.server.queue, id, w.server.Lane(id));
      assert w.recv.read <= w.recv.Arrived();
      assert w.progress.done ==> w.recv.Arrived() == w.recv.read;
    }
  }

  // ----- and it gets there

  /** Nothing is under way: no event waits on either side, and all that was sent has arrived. */
  predicate Quiet(w: World) {
    && w.server.queue == [] && w.events == []
    && w.Far().recv.Arrived() == w.Header()
    && w.recv.Arrived() == w.Far().send.data
    && w.recv.fin == w.Far().send.fin
  }

  predicate NothingFailed(w: World) {
    && !w.Far().recv.failed && !w.Far().send.failed
    && !w.recv.failed && w.phase != Errored
  }

  /** A server without waiting events that has the whole header and enough credit has served it. */
  lemma SuppliedIsServed(w: World)
    requires Sound(w) && w.server.queue == []
    requires w.Far().recv.Arrived() == w.Header() && !w.Far().recv.failed && !w.Far().send.failed
    requires w.Far().send.Granted() >= w.n
    ensures w.Far().send.Out() == Output(Zeros(w.n), true)
  {
    QuietIsSettled(w.server, w.id);
    HeaderOf(w.n);
  }

  /** End to end, no lost wake-up: when nothing is under way, nothing failed and the credit granted
      covers the request, the client has succeeded. */
  lemma QuietHasSucceeded(w: World)
    requires Sound(w) && Quiet(w) && NothingFailed(w) && w.Far().send.Granted() >= w.n
    ensures w.phase == Succeeded
  {
    SuppliedIsServed(w);
    assert !w.recv.Readable() ==> w.recv.done;
  }

  /** The client's events are as the transport raises them: at most one readable event waits, and only
      while there is something to read. */
  predicate Tidy(w: World) {
    && Closed(true) !in w.events
    && CountReadable(w.events, w.id) <= 1
    && (CountReadable(w.events, w.id) == 1 ==> w.recv.Readable())
    && !w.recv.failed && w.phase != Errored
  }

  predicate Orderly(a: Act, id: StreamId) {
    a != FailDown && a != Raise(Closed(true)) && a != Raise(RecvStreamReadable(id))
  }

  lemma {:induction false} CountAppend(events: seq<Event>, ev: Event, id: StreamId)
    ensures CountReadable(events + [ev], id) ==
            CountReadable(events, id) + if ev == RecvStreamReadable(id) then 1 else 0
  {
    if events == [] {
      assert events + [ev] == [ev];
    } else {
      CountAppend(events[1..], ev, id);
      assert (events + [ev])[1..] == events[1..] + [ev];
    }
  }

  lemma NextTidy(w: World, a: Act)
    requires Sound(w) && Tidy(w) && Orderly(a, w.id)
    ensures Tidy(Next(w, a))
  {
    match a
    case Serverside(_) =>
    case Up(_, _) =>
    case Down(_, _) =>
      CountAppend(w.events, RecvStreamReadable(w.id), w.id);
      assert w.events + [] == w.events;
      CountPositive(w.events, w.id);
    case FailDown =>
    case Raise(event) =>
      CountAppend(w.events, event, w.id);
    case Poll =>
      if w.phase == Waiting {
        PollFailsExactlyWhen(w.events, w.id, w.progress, w.recv);
        PollReads(w.events, w.id, w.progress, w.recv);
      }
  }

  lemma {:induction false} CountPositive(events: seq<Event>, id: StreamId)
    ensures CountReadable(events, id) > 0 <==> RecvStreamReadable(id) in events
  {
    if events != [] {
      CountPositive(events[1..], id);
    }
  }

  /** As long as the connection is not closed with an error, the receiving side does not fail and no
      readable event is repeated, the client never gives up. */
  lemma {:induction false} OrderlyNeverErrs(w: World, acts: seq<Act>)
    requires Sound(w) && Tidy(w) && forall a :: a in acts ==> Orderly(a, w.id)
    ensures Tidy(RunWorld(w, acts))
    decreases |acts|
  {
    if acts != [] {
      var init := acts[..|acts| - 1];
      OrderlyNeverErrs(w, init);
      RunSound(w, init);
      assert acts[|acts| - 1] in acts;
      NextTidy(RunWorld(w, init), acts[|acts| - 1]);
    }
  }

  // ----- no dead end

  lemma {:induction false} RunWorldConcat(w: World, first: seq<Act>, second: seq<Act>)
    ensures RunWorld(w, first + second) == RunWorld(RunWorld(w, first), second)
    decreases |second|
  {
    if second == [] {
      assert first + second == first;
    } else {
      var init := second[..|second| - 1];
      RunWorldConcat(w, first, init);
      assert (first + second)[..|first + second| - 1] == first + init;
    }
  }

  lemma Then(w: World, acts: seq<Act>, a: Act)
    ensures RunWorld(w, acts + [a]) == Next(RunWorld(w, acts), a)
  {
  }

  /** A stream that was only served in between: nothing arrived, failed, or was granted. */
  predicate Kept(s: Sys, s': Sys, id: StreamId) {
    id in s.streams ==>
      && id in s'.streams
      && var st, st' := s.streams[id], s'.streams[id];
         && st'.recv.Arrived() == st.recv.Arrived() && st'.recv.failed == st.recv.failed
         && st'.send.failed == st.send.failed && st'.send.Granted() == st.send.Granted()
  }

  lemma ProcessKept(s: Sys, id: StreamId)
    ensures Kept(s, Step(s, Process), id)
  {
    if id in s.streams && s.queue != [] {
      ServerStep(s, Process, id);
      HandleIsLocal(s.queue[0], s.streams, s.table, id);
      assert Step(s, Process).Lane(id).stream == Step(s, Process).streams[id];
    }
  }

  function ServerProcesses(k: nat): (acts: seq<Act>)
    ensures |acts| == k && forall a :: a in acts ==> a == Serverside(Process)
  {
    seq(k, _ => Serverside(Process))
  }

  lemma FirstProcess(w: World, k: nat)
    requires k > 0
    ensures RunWorld(w, ServerProcesses(k)) == RunWorld(Next(w, Serverside(Process)), ServerProcesses(k - 1))
  {
    Then(w, [], Serverside(Process));
    assert [] + [Serverside(Process)] == [Serverside(Process)];
    RunWorldConcat(w, [Serverside(Process)], ServerProcesses(k - 1));
    assert ServerProcesses(k) == [Serverside(Process)] + ServerProcesses(k - 1);
  }

  /** The server can always empty its queue; nothing outside it changes meanwhile. */
  lemma {:induction false} DrainServer(w: World)
    ensures var w' := RunWorld(w, ServerProcesses(|w.server.queue|));
            && w'.server.queue == [] && w' == w.(server := w'.server) && Kept(w.server, w'.server, w.id)
    decreases |w.server.queue|
  {
    var k := |w.server.queue|;
    if k > 0 {
      FirstProcess(w, k);
      ProcessKept(w.server, w.id);
      DrainServer(Next(w, Serverside(Process)));
    }
  }

  predicate Unfailed(w: World) {
    w.id in w.server.streams ==> !w.Far().recv.failed && !w.Far().send.failed
  }

  predicate Supplied(w: World) {
    && w.id in w.server.streams && Unfailed(w)
    && w.Far().recv.Arrived() == w.Header() && w.Far().send.Granted() >= w.n
  }

  lemma GrantEnough(w: World)
    requires Unfailed(w)
    ensures var s := Step(Step(w.server, Open(w.id, 0)), Grant(w.id, w.n));
            && w.id in s.streams
            && !s.streams[w.id].recv.failed && !s.streams[w.id].send.failed
            && s.streams[w.id].send.Granted() >= w.n
  {
  }

  lemma HeaderUp(w: World)
    requires w.id in w.server.streams && Joined(w.n, FarOf(w.server, w.id), w.recv)
    requires Unfailed(w) && w.Far().send.Granted() >= w.n
    ensures Supplied(Next(w, Up(HEADER_LEN, true)))
    ensures Next(w, Up(HEADER_LEN, true)).phase == w.phase
  {
    var r := w.Far().recv;
    var (bytes, last) := Arrive(Output(w.Header(), true), r, HEADER_LEN, true);
    assert r.read + (r.unread + bytes) == r.Arrived() + bytes == w.Header();
  }

  lemma OneAct(w: World, a: Act)
    ensures RunWorld(w, [a]) == Next(w, a)
  {
    assert [a][..0] == [];
  }

  lemma ThreeActs(w: World, a: Act, b: Act, c: Act)
    ensures RunWorld(w, [a, b, c]) == Next(Next(Next(w, a), b), c)
  {
    OneAct(w, a);
    Then(w, [a], b);
    Then(w, [a] + [b], c);
    assert [a, b, c] == [a] + [b] + [c];
  }

  /** The whole header, and credit for the whole response, can always be brought to the server. */
  lemma BringHeader(w: World) returns (acts: seq<Act>)
    requires Sound(w) && Unfailed(w)
    ensures forall a :: a in acts ==> Orderly(a, w.id)
    ensures Supplied(RunWorld(w, acts)) && RunWorld(w, acts).phase == w.phase
  {
    var open, grant, up := Serverside(Open(w.id, 0)), Serverside(Grant(w.id, w.n)), Up(HEADER_LEN, true);
    acts := [open, grant, up];
    ThreeActs(w, open, grant, up);
    GrantEnough(w);
    NextSound(w, open);
    NextSound(Next(w, open), grant);
    HeaderUp(Next(Next(w, open), grant));
  }

  /** And the whole of what was sent can always be brought to the client. */
  lemma BringResponse(w: World)
    requires w.id in w.server.streams && Joined(w.n, FarOf(w.server, w.id), w.recv)
    requires |w.Far().send.data| <= w.n
    ensures var w' := Next(w, Down(w.n, true));
            && w'.recv.Arrived() == w.Far().send.data && w'.recv.fin == w.Far().send.fin
            && w' == w.(recv := w'.recv, events := w'.events)
  {
    if !w.recv.fin {
      var (bytes, last) := Arrive(w.Far().send.Out(), w.recv, w.n, true);
      assert w.recv.read + (w.recv.unread + bytes) == w.recv.Arrived() + bytes;
    }
  }

  /** Everything the server could send has been sent and has arrived; only a poll is missing. */
  predicate Brought(w: World) {
    && Supplied(w) && w.server.queue == []
    && w.recv.Arrived() == w.Far().send.data && w.recv.fin == w.Far().send.fin
  }

  lemma DownBrings(w: World)
    requires Sound(w) && Supplied(w) && w.server.queue == []
    ensures Brought(Next(w, Down(w.n, true))) && Next(w, Down(w.n, true)).phase == w.phase
  {
    FarSends(w.n, w.server.queue, w.id, w.server.Lane(w.id));
    BringResponse(w);
  }

  lemma KeptSupplied(w: World, w': World)
    requires Supplied(w) && Kept(w.server, w'.server, w.id) && w' == w.(server := w'.server)
    ensures Supplied(w')
  {
  }

  lemma DrainSupplies(w: World)
    requires Sound(w) && Supplied(w)
    ensures var w' := RunWorld(w, ServerProcesses(|w.server.queue|));
            Sound(w') && Supplied(w') && w'.server.queue == [] && w'.phase == w.phase && w'.n == w.n
  {
    var drain := ServerProcesses(|w.server.queue|);
    DrainServer(w);
    RunSound(w, drain);
    KeptSupplied(w, RunWorld(w, drain));
  }

  /** The server handles its events, and then everything it sent crosses the network. */
  function Back(w: World): (acts: seq<Act>)
    ensures forall a :: a in acts ==> Orderly(a, w.id)
  {
    ServerProcesses(|w.server.queue|) + [Down(w.n, true)]
  }

  lemma BackBrings(w: World)
    requires Sound(w) && Supplied(w)
    ensures Brought(RunWorld(w, Back(w))) && RunWorld(w, Back(w)).phase == w.phase
  {
    var drain := ServerProcesses(|w.server.queue|);
    DrainSupplies(w);
    DownBrings(RunWorld(w, drain));
    Then(w, drain, Down(w.n, true));
  }

  /** From any moment without failures, everything can be brought to where only a poll is missing. */
  lemma Bring(w: World) returns (acts: seq<Act>)
    requires Sound(w) && Unfailed(w)
    ensures forall a :: a in acts ==> Orderly(a, w.id)
    ensures Brought(RunWorld(w, acts)) && RunWorld(w, acts).phase == w.phase
  {
    acts := BringHeader(w);
    RunSound(w, acts);
    BackBrings(RunWorld(w, acts));
    var back := Back(RunWorld(w, acts));
    RunWorldConcat(w, acts, back);
    acts := acts + back;
  }

  /** A poll then completes the exchange. */
  lemma PollSucceeds(w: World)
    requires Sound(w) && Brought(w) && w.phase == Waiting && Tidy(w)
    ensures Next(w, Poll).phase == Succeeded
  {
    PollReads(w.events, w.id, w.progress, w.recv);
    PollKeeps(w);
    NextTidy(w, Poll);
    QuietHasSucceeded(Next(w, Poll));
  }

  /** No dead end: from every orderly moment of every run the exchange can still be completed. */
  lemma NoDeadEnd(w: World) returns (acts: seq<Act>)
    requires Sound(w) && Tidy(w) && Unfailed(w)
    ensures RunWorld(w, acts).phase == Succeeded
  {
    if w.phase == Waiting {
      acts := Bring(w);
      RunSound(w, acts);
      OrderlyNeverErrs(w, acts);
      PollSucceeds(RunWorld(w, acts));
      Then(w, acts, Poll);
      acts := acts + [Poll];
    } else {
      acts := [];
    }
  }

  /** So any run without failures, of any request, can be continued to success. */
  lemma EveryRequestCanComplete(n: nat, id: StreamId, leftover: Table, acts: seq<Act>) returns (more: seq<Act>)
    requires n < U64 && id % 4 == 0
    requires (forall a :: a in acts ==> Orderly(a, id)) && Unfailed(Reached(n, id, leftover, acts))
    ensures Reached(n, id, leftover, acts + more).phase == Succeeded
  {
    ReachedSound(n, id, leftover, acts);
    OrderlyNeverErrs(Begin(n, id, leftover), acts);
    more := NoDeadEnd(Reached(n, id, leftover, acts));
    RunWorldConcat(Begin(n, id, leftover), acts, more);
  }

  // ----- a repeated event

  /** Raising the readable event once more, before the poll, fails a run that has received everything. */
  lemma RepeatErrs(w: World)
    requires Sound(w) && Brought(w) && w.phase == Waiting && Tidy(w)
    ensures var w' := Next(Next(w, Raise(RecvStreamReadable(w.id))), Poll);
            w'.phase == Errored && w'.progress == Progress(w.n, true)
  {
    var events := w.events + [RecvStreamReadable(w.id)];
    SuppliedIsServed(w);
    assert w.recv.Readable();
    CountPositive(w.events, w.id);
    CountAppend(w.events, RecvStreamReadable(w.id), w.id);
    PollFailsExactlyWhen(events, w.id, w.progress, w.recv);
    PollReads(events, w.id, w.progress, w.recv);
    var o := PollSpec(events, w.id, w.progress, w.recv);
    assert o.recv.unread == [] ==> o.recv.Arrived() == o.recv.read;
  }

  /** So for every request there is a run that ends in an error although the client has received it all,
      if the transport may repeat a readable event. */
  lemma RepeatedEventErrs(n: nat, id: StreamId, leftover: Table) returns (acts: seq<Act>)
    requires n < U64 && id % 4 == 0
    ensures var w := Reached(n, id, leftover, acts);
            w.phase == Errored && w.progress == Progress(n, true) && Unfailed(w)
    ensures forall a :: a in acts ==> Orderly(a, id) || a == Raise(RecvStreamReadable(id))
  {
    var w0 := Begin(n, id, leftover);
    ReachedSound(n, id, leftover, []);
    acts := Bring(w0);
    RunSound(w0, acts);
    OrderlyNeverErrs(w0, acts);
    RepeatErrs(RunWorld(w0, acts));
    Then(w0, acts, Raise(RecvStreamReadable(id)));
    Then(w0, acts + [Raise(RecvStreamReadable(id))], Poll);
    acts := acts + [Raise(RecvStreamReadable(id))] + [Poll];
  }
}
