/** Every run of the neqo server against every behaviour of its peer and of the network. */
module NeqoRuns {
  import opened Wrappers
  import opened Codec
  import opened Protocol
  import opened QuicStream
  import opened NeqoServer

  /** A connection, the server's table, and the events not yet handled. */
  datatype Sys = Sys(streams: map<StreamId, Stream>, table: Table, queue: seq<Event>) {
    function Lane(id: StreamId): NeqoServer.Lane {
      LaneOf(streams, table, id)
    }
  }

  datatype Action =
    | Open(id: StreamId, credit: nat)
    | Deliver(id: StreamId, bytes: seq<byte>, fin: bool)
    | Grant(id: StreamId, more: nat)
    | Withdraw(id: StreamId, less: nat)  // credit of the connection used up by other streams
    | FailSend(id: StreamId)
    | FailRecv(id: StreamId)
    | Announce(event: Event)
    | Process

  /** Events must be raised for a stream that becomes readable, and for one that regains credit;
      they may be raised at any other time too (`Announce`), but a stream is new only once. */
  function Step(s: Sys, a: Action): Sys {
    match a
    case Open(id, credit) =>
      if id in s.streams then s else
        Sys(s.streams[id := Stream(RecvSide([], [], false, false, false), SendSide([], false, credit, false))],
            s.table, s.queue + [NewStream(id)])
    case Deliver(id, bytes, fin) =>
      if id !in s.streams || s.streams[id].recv.fin then s else
        var r := s.streams[id].recv;
        var r' := r.(unread := r.unread + bytes, fin := fin);
        s.(streams := s.streams[id := s.streams[id].(recv := r')],
           queue := s.queue + if r'.Readable() && !r.Readable() then [RecvStreamReadable(id)] else [])
    case Grant(id, more) =>
      if id !in s.streams then s else
        var c := s.streams[id].send.credit;
        s.(streams := s.streams[id := s.streams[id].(send := s.streams[id].send.(credit := c + more))],
           queue := s.queue + if c == 0 && more > 0 then [SendStreamWritable(id)] else [])
    case Withdraw(id, less) =>
      if id !in s.streams then s else
        var c := s.streams[id].send.credit;
        s.(streams := s.streams[id := s.streams[id].(send := s.streams[id].send.(credit := c - Min(less, c)))])
    case FailSend(id) =>
      if id !in s.streams then s else
        s.(streams := s.streams[id := s.streams[id].(send := s.streams[id].send.(failed := true))])
    case FailRecv(id) =>
      if id !in s.streams then s else
        s.(streams := s.streams[id := s.streams[id].(recv := s.streams[id].recv.(failed := true))])
    case Announce(event) =>
      if event.NewStream? || (event.OfStream() && event.id !in s.streams)
      then s else s.(queue := s.queue + [event])
    case Process =>
      if s.queue == [] then s else
        var (streams', table') := Handle(s.queue[0], s.streams, s.table);
        Sys(streams', table', s.queue[1..])
  }

  function Run(s: Sys, actions: seq<Action>): Sys
    decreases |actions|
  {
    if actions == [] then s else Step(Run(s, actions[..|actions| - 1]), actions[|actions| - 1])
  }

  /** A new connection, with whatever earlier connections left in the table. */
  function Start(leftover: Table): Sys {
    Sys(map[], leftover, [])
  }

  // ----- the invariant

  /** Where a stream that the server knows of stands. */
  predicate LaneOk(l: Lane) {
    && l.entry.Some?
    && var e, r, s := l.entry.value, l.stream.recv, l.stream.send;
       && e.readBuf == r.read
       && Serving(r.read, s.Out())
       && match e.writeRemaining
          case None => |r.read| >= HEADER_LEN ==> !s.Open()
          case Some(left) =>
            && |r.read| >= HEADER_LEN && !s.fin && left > 0
            && |s.data| + left == Requested(r.read)
  }

  /** Nothing that would let the server go on is left without an event that will wake it. */
  predicate NoLostWakeup(q: seq<Event>, id: StreamId, l: Lane) {
    ClientBidi(id) ==>
      && (l.stream.recv.Readable() ==> RecvStreamReadable(id) in q)
      && (l.entry.Some? && l.entry.value.writeRemaining.Some? && !l.stream.send.failed && l.stream.send.credit > 0
          ==> SendStreamWritable(id) in q)
  }

  predicate StreamOk(q: seq<Event>, id: StreamId, l: Lane) {
    && (l.stream.recv.done ==> l.stream.recv.fin && l.stream.recv.unread == [])
    && if NewStream(id) in q then
      && l.stream.recv.read == [] && !l.stream.recv.done
      && l.stream.send.data == [] && !l.stream.send.fin
      && (ClientBidi(id) && l.stream.recv.Readable() ==> RecvStreamReadable(id) in q)
    else
      LaneOk(l) && NoLostWakeup(q, id, l)
  }

  predicate QueueOk(q: seq<Event>, streams: map<StreamId, Stream>) {
    && (forall ev :: ev in q && ev.OfStream() ==> ev.id in streams)
    && forall i, j :: 0 <= i < j < |q| && q[j].NewStream? ==> !q[i].About(q[j].id)
  }

  predicate Inv(s: Sys) {
    && QueueOk(s.queue, s.streams)
    && forall id :: id in s.streams ==> StreamOk(s.queue, id, s.Lane(id))
  }

  lemma AttemptKeeps(l: Lane, e: Entry, s: SendSide)
    requires LaneOk(l)
    requires (e, s) == Attempt(l.entry.value, l.stream.send)
    ensures LaneOk(Lane(l.stream.(send := s), Some(e)))
    ensures e.writeRemaining.Some? && !s.failed ==> s.credit == 0
  {
  }

  lemma ReadableKeeps(id: StreamId, l: Lane)
    requires LaneOk(l)
    ensures var l' := OnEvent(RecvStreamReadable(id), l);
            && LaneOk(l')
            && (ClientBidi(id) ==>
                  && !l'.stream.recv.Readable()
                  && (l' == l || (l'.entry.value.writeRemaining.Some? && !l'.stream.send.failed
                                  ==> l'.stream.send.credit == 0)))
  {
    var l' := OnEvent(RecvStreamReadable(id), l);
    if l' != l {
      var e := l.entry.value;
      var r, s := l.stream.recv, l.stream.send;
      var e1 := e.(readBuf := e.readBuf + r.unread);
      var mid := Lane(Stream(r.Drained(), s), Some(e1));
      if |r.read| >= HEADER_LEN {
        RequestedStable(r.read, r.unread);
      }
      if e.writeRemaining.None? && |e1.readBuf| >= HEADER_LEN {
        var n := Requested(e1.readBuf);
        var k := if n <= s.credit then n else s.credit;
        assert s.Open() ==> s.data == [] && s.data + Zeros(k) == Zeros(k);
      } else {
        AttemptKeeps(mid, l'.entry.value, l'.stream.send);
      }
    }
  }

  /** Handling the oldest event of a stream, on that stream. */
  lemma EventKeeps(ev: Event, rest: seq<Event>, id: StreamId, l: Lane)
    requires ev.About(id) && StreamOk([ev] + rest, id, l)
    requires NewStream(id) !in rest
    ensures StreamOk(rest, id, OnEvent(ev, l))
  {
    assert forall e :: e in [ev] + rest <==> e == ev || e in rest;
    match ev
    case NewStream(_) =>
    case RecvStreamReadable(_) =>
      ReadableKeeps(id, l);
    case SendStreamWritable(_) =>
      var (e', s') := Attempt(l.entry.value, l.stream.send);
      AttemptKeeps(l, e', s');
  }

  /** Handling the oldest event keeps every stream as it should be. */
  lemma ProcessOrders(s: Sys)
    requires QueueOk(s.queue, s.streams) && s.queue != []
    ensures QueueOk(Step(s, Process).queue, s.streams) && Step(s, Process).streams.Keys == s.streams.Keys
  {
    HandleIsLocal(s.queue[0], s.streams, s.table, 0);
    var rest := s.queue[1..];
    forall i, j | 0 <= i < j < |rest| && rest[j].NewStream? ensures !rest[i].About(rest[j].id) {
      assert rest[i] == s.queue[i + 1] && rest[j] == s.queue[j + 1];
    }
  }

  lemma ProcessKeeps(s: Sys)
    requires Inv(s) && s.queue != []
    ensures Inv(Step(s, Process))
  {
    var s', ev := Step(s, Process), s.queue[0];
    ProcessOrders(s);
    assert s.queue == [ev] + s'.queue;
    forall id | id in s'.streams ensures StreamOk(s'.queue, id, s'.Lane(id)) {
      HandleIsLocal(ev, s.streams, s.table, id);
      if ev.About(id) {
        NewOnce(s.queue, s.streams, id);
        EventKeeps(ev, s'.queue, id, s.Lane(id));
      } else {
        OtherEventKeeps(ev, s'.queue, id, s.Lane(id));
      }
    }
  }

  lemma OtherEventKeeps(ev: Event, rest: seq<Event>, id: StreamId, l: Lane)
    requires !ev.About(id) && StreamOk([ev] + rest, id, l)
    ensures StreamOk(rest, id, l)
  {
  }

  lemma NewOnce(q: seq<Event>, streams: map<StreamId, Stream>, id: StreamId)
    requires QueueOk(q, streams) && q != [] && q[0].About(id)
    ensures NewStream(id) !in q[1..]
  {
  }

  /** More events in the queue cannot hurt a stream, unless they announce it anew. */
  lemma MoreEvents(q: seq<Event>, more: seq<Event>, id: StreamId, l: Lane)
    requires StreamOk(q, id, l) && NewStream(id) !in more
    ensures StreamOk(q + more, id, l)
  {
  }

  lemma QueueGrows(q: seq<Event>, more: seq<Event>, streams: map<StreamId, Stream>)
    requires QueueOk(q, streams)
    requires forall ev :: ev in more ==> !ev.NewStream? && (ev.OfStream() ==> ev.id in streams)
    ensures QueueOk(q + more, streams)
  {
  }

  lemma OpenKeeps(s: Sys, id: StreamId, credit: nat)
    requires Inv(s) && id !in s.streams
    ensures Inv(Step(s, Open(id, credit)))
  {
    var s' := Step(s, Open(id, credit));
    forall i, j | 0 <= i < j < |s'.queue| && s'.queue[j].NewStream?
      ensures !s'.queue[i].About(s'.queue[j].id)
    {
      assert s'.queue[i] in s.queue;
    }
    assert NewStream(id) in s'.queue;
    forall i | i in s'.streams ensures StreamOk(s'.queue, i, s'.Lane(i)) {
      if i != id {
        assert s'.Lane(i) == s.Lane(i);
        MoreEvents(s.queue, [NewStream(id)], i, s.Lane(i));
      }
    }
  }

  /** An environment step on one open stream: its sides may change, but nothing read or sent does. */
  lemma EnvironmentKeeps(s: Sys, id: StreamId, st: Stream, more: seq<Event>)
    requires Inv(s) && id in s.streams
    requires forall ev :: ev in more ==> ev.OfStream() && !ev.NewStream? && ev.id in s.streams
    requires var o := s.streams[id];
             && st.recv.read == o.recv.read && st.recv.done == o.recv.done
             && (st.recv.done ==> st.recv.fin && st.recv.unread == [])
             && st.send.Out() == o.send.Out() && (o.send.failed ==> st.send.failed)
             && (st.recv.Readable() ==> o.recv.Readable() || RecvStreamReadable(id) in more)
             && (st.send.credit > 0 ==> o.send.credit > 0 || SendStreamWritable(id) in more)
    ensures Inv(Sys(s.streams[id := st], s.table, s.queue + more))
  {
    var s' := Sys(s.streams[id := st], s.table, s.queue + more);
    QueueGrows(s.queue, more, s.streams);
    forall i | i in s'.streams ensures StreamOk(s'.queue, i, s'.Lane(i)) {
      if i != id {
        assert s'.Lane(i) == s.Lane(i);
        MoreEvents(s.queue, more, i, s.Lane(i));
      } else {
        assert StreamOk(s.queue, id, s.Lane(id));
      }
    }
  }

  lemma AnnounceKeeps(s: Sys, event: Event)
    requires Inv(s) && !event.NewStream? && (event.OfStream() ==> event.id in s.streams)
    ensures Inv(s.(queue := s.queue + [event]))
  {
    QueueGrows(s.queue, [event], s.streams);
    forall i | i in s.streams ensures StreamOk(s.queue + [event], i, s.Lane(i)) {
      MoreEvents(s.queue, [event], i, s.Lane(i));
    }
  }

  /** The events a step other than handling one adds. */
  function Added(s: Sys, a: Action): seq<Event>
    requires a != Process
  {
    Step(s, a).queue[|s.queue|..]
  }

  /** A step other than handling an event: the table stays, events are only added, and a stream is new
      exactly with its announcement. */
  lemma QuietStep(s: Sys, a: Action)
    requires a != Process
    ensures var s' := Step(s, a);
            && s'.table == s.table && s'.queue == s.queue + Added(s, a)
            && s.streams.Keys <= s'.streams.Keys
            && (forall id :: id in s'.streams && id !in s.streams ==> NewStream(id) in s'.queue)
            && (!a.Open? ==>
                  s'.streams.Keys == s.streams.Keys &&
                  forall ev :: ev in Added(s, a) ==> !ev.NewStream? && (ev.OfStream() ==> ev.id in s.streams))
  {
  }

  lemma StepKeeps(s: Sys, a: Action)
    requires Inv(s)
    ensures Inv(Step(s, a))
  {
    match a
    case Open(id, credit) =>
      if id !in s.streams {
        OpenKeeps(s, id, credit);
      }
    case Process =>
      if s.queue != [] {
        ProcessKeeps(s);
      }
    case Announce(event) =>
      if Step(s, a) != s {
        AnnounceKeeps(s, event);
      }
    case _ =>
      if a.id in s.streams {
        TouchKeeps(s, a);
      }
  }

  lemma TouchKeeps(s: Sys, a: Action)
    requires Inv(s) && (a.Deliver? || a.Grant? || a.Withdraw? || a.FailSend? || a.FailRecv?) && a.id in s.streams
    ensures Inv(Step(s, a))
  {
    QuietStep(s, a);
    if Step(s, a) != s {
      assert StreamOk(s.queue, a.id, s.Lane(a.id));
      EnvironmentKeeps(s, a.id, Step(s, a).streams[a.id], Added(s, a));
    }
  }

  lemma {:induction false} RunKeeps(leftover: Table, actions: seq<Action>)
    ensures Inv(Run(Start(leftover), actions))
  {
    if actions != [] {
      RunKeeps(leftover, actions[..|actions| - 1]);
      StepKeeps(Run(Start(leftover), actions[..|actions| - 1]), actions[|actions| - 1]);
    }
  }

  // ----- the environment's own account

  /** What the peer put on a stream, all the credit it was given, and all that may have been taken back,
      counted from the steps alone. */
  datatype Ledger = Ledger(open: bool, input: seq<byte>, fin: bool, given: nat, taken: nat)

  function LedgerOf(actions: seq<Action>, id: StreamId): Ledger
    decreases |actions|
  {
    if actions == [] then
      Ledger(false, [], false, 0, 0)
    else
      var l, last := LedgerOf(actions[..|actions| - 1], id), actions[|actions| - 1];
      match last
      case Open(i, credit) => if i == id && !l.open then Ledger(true, [], false, credit, 0) else l
      case Deliver(i, bytes, fin) => if i == id && l.open && !l.fin then l.(input := l.input + bytes, fin := fin) else l
      case Grant(i, more) => if i == id && l.open then l.(given := l.given + more) else l
      case Withdraw(i, less) => if i == id && l.open then l.(taken := l.taken + less) else l
      case _ => l
  }

  /** A stream agrees with its account: nothing that arrived is lost or reordered, no credit is invented,
      and none is lost but what was taken back. */
  predicate Agrees(st: Stream, l: Ledger) {
    && st.recv.Arrived() == l.input && st.recv.fin == l.fin
    && st.send.Granted() <= l.given <= st.send.Granted() + l.taken
  }

  lemma StepAgrees(s: Sys, a: Action, id: StreamId)
    requires id in s.streams && (a.Deliver? ==> a.id != id)
    ensures var s' := Step(s, a);
            && id in s'.streams
            && var st, st' := s.streams[id], s'.streams[id];
               && st'.recv.Arrived() == st.recv.Arrived() && st'.recv.fin == st.recv.fin
               && (if a.Grant? && a.id == id then st'.send.Granted() == st.send.Granted() + a.more
                   else if a.Withdraw? && a.id == id then
                     st'.send.Granted() <= st.send.Granted() <= st'.send.Granted() + a.less
                   else st'.send.Granted() == st.send.Granted())
  {
    if a.Process? && s.queue != [] {
      HandleIsLocal(s.queue[0], s.streams, s.table, id);
      var l := s.Lane(id);
      assert l.stream.recv.Drained().Arrived() == l.stream.recv.Arrived();
      assert Step(s, a).Lane(id).stream == Step(s, a).streams[id];
    }
  }

  lemma {:induction false} LedgerIsKept(leftover: Table, actions: seq<Action>, id: StreamId)
    ensures var s, l := Run(Start(leftover), actions), LedgerOf(actions, id);
            && (id in s.streams <==> l.open)
            && (l.open ==> Agrees(s.streams[id], l))
    decreases |actions|
  {
    if actions != [] {
      var init, last := actions[..|actions| - 1], actions[|actions| - 1];
      LedgerIsKept(leftover, init, id);
      var s := Run(Start(leftover), init);
      if id !in s.streams {
        HandleKeepsIds(s);
      } else if last.Deliver? && last.id == id {
        var r := s.streams[id].recv;
        assert r.read + (r.unread + last.bytes) == r.Arrived() + last.bytes;
      } else {
        StepAgrees(s, last, id);
      }
    }
  }

  lemma HandleKeepsIds(s: Sys)
    ensures Step(s, Process).streams.Keys == s.streams.Keys
  {
    if s.queue != [] {
      HandleIsLocal(s.queue[0], s.streams, s.table, 0);
    }
  }

  // ----- what follows for every run

  /** Safety: at every moment of every run, each stream has sent a prefix of exactly the response asked
      for by the bytes that arrived on it, and FIN only at its end. */
  lemma RunSafe(leftover: Table, actions: seq<Action>, id: StreamId)
    requires id in Run(Start(leftover), actions).streams
    ensures var st := Run(Start(leftover), actions).streams[id];
            && Serving(st.recv.Arrived(), st.send.Out())
            && (st.send.fin ==> Served(st.recv.Arrived(), st.send.Out()))
  {
    var s := Run(Start(leftover), actions);
    RunKeeps(leftover, actions);
    assert StreamOk(s.queue, id, s.Lane(id));
    var r := s.streams[id].recv;
    if |r.read| >= HEADER_LEN {
      RequestedStable(r.read, r.unread);
    }
  }

  lemma {:induction false} OthersAreNotRead(leftover: Table, actions: seq<Action>, id: StreamId)
    requires id % 4 != 0
    ensures var s := Run(Start(leftover), actions);
            id in s.streams ==> s.streams[id].recv.read == []
    decreases |actions|
  {
    if actions != [] {
      var init := actions[..|actions| - 1];
      OthersAreNotRead(leftover, init, id);
      var s := Run(Start(leftover), init);
      if actions[|actions| - 1].Process? && s.queue != [] {
        HandleIsLocal(s.queue[0], s.streams, s.table, id);
      }
    }
  }

  /** Only streams that a client opened in both directions are requests: whatever arrives on any other, none
      of it is read, and nothing is ever sent. */
  lemma OthersStaySilent(leftover: Table, actions: seq<Action>, id: StreamId)
    requires id % 4 != 0 && id in Run(Start(leftover), actions).streams
    ensures var st := Run(Start(leftover), actions).streams[id];
            st.recv.read == [] && st.send.Out() == Output([], false)
  {
    var s := Run(Start(leftover), actions);
    OthersAreNotRead(leftover, actions, id);
    RunKeeps(leftover, actions);
    assert StreamOk(s.queue, id, s.Lane(id));
  }

  /** While a response is under way, what was accepted and what remains make up the size asked for. */
  lemma AcceptedPlusRemaining(leftover: Table, actions: seq<Action>, id: StreamId)
    requires var s := Run(Start(leftover), actions);
             id in s.streams && NewStream(id) !in s.queue
    ensures var s := Run(Start(leftover), actions);
            var st := s.streams[id];
            && id in s.table && s.table[id].readBuf == st.recv.read
            && match s.table[id].writeRemaining
               case None => |st.recv.read| >= HEADER_LEN ==> st.send.fin || st.send.failed
               case Some(left) =>
                 && |st.recv.read| >= HEADER_LEN && !st.send.fin
                 && left > 0 && |st.send.data| + left == Requested(st.recv.read)
  {
    var s := Run(Start(leftover), actions);
    RunKeeps(leftover, actions);
    assert StreamOk(s.queue, id, s.Lane(id));
  }

  /** A stream that has everything the credit allows, and FIN as soon as that is everything. What arrived
      but was not read before the receiving side failed is out of reach. */
  predicate Settled(st: Stream) {
    var (input, s) := (if st.recv.failed then st.recv.read else st.recv.Arrived(), st.send);
    |input| >= HEADER_LEN && !s.failed ==>
      && s.data == Zeros(Min(Requested(input), s.Granted()))
      && (s.fin <==> s.Granted() >= Requested(input))
  }

  /** Maximal progress: when no event is waiting, every live stream whose header arrived is settled. */
  lemma QuietIsSettled(s: Sys, id: StreamId)
    requires Inv(s) && s.queue == [] && id in s.streams && id % 4 == 0
    ensures Settled(s.streams[id])
    ensures !s.streams[id].recv.failed ==> s.streams[id].recv.unread == []
  {
    var l := s.Lane(id);
    assert LaneOk(l) && NoLostWakeup(s.queue, id, l);
    assert l.stream.recv.unread == [] ==> l.stream.recv.Arrived() == l.stream.recv.read;
  }

  function Processes(k: nat): seq<Action> {
    seq(k, _ => Process)
  }

  lemma FirstProcess(s: Sys, k: nat)
    requires k > 0
    ensures Run(s, Processes(k)) == Run(Step(s, Process), Processes(k - 1))
  {
    assert Processes(k) == [Process] + Processes(k - 1);
    RunConcat(s, [Process], Processes(k - 1));
    assert [Process][..0] == [];
    assert Run(s, [Process]) == Step(s, Process);
  }

  /** The whole queue handled. */
  function Drained(s: Sys): Sys {
    var (streams', table') := HandleAll(s.queue, s.streams, s.table);
    Sys(streams', table', [])
  }

  lemma DrainedStep(s: Sys)
    requires s.queue != []
    ensures Drained(Step(s, Process)) == Drained(s)
  {
  }

  /** Handling the whole queue is `|queue|` steps of a run. */
  lemma {:induction false} DrainIsRun(s: Sys)
    ensures Run(s, Processes(|s.queue|)) == Drained(s)
    decreases |s.queue|
  {
    if s.queue != [] {
      var s' := Step(s, Process);
      FirstProcess(s, |s.queue|);
      DrainedStep(s);
      assert |s'.queue| == |s.queue| - 1;
      DrainIsRun(s');
    }
  }

  lemma {:induction false} RunConcat(s: Sys, first: seq<Action>, second: seq<Action>)
    ensures Run(s, first + second) == Run(Run(s, first), second)
    decreases |second|
  {
    if second == [] {
      assert first + second == first;
    } else {
      var init := second[..|second| - 1];
      RunConcat(s, first, init);
      assert (first + second)[..|first + second| - 1] == first + init;
    }
  }

  /** After any run, `process_all_events` leaves every live stream with all it can be given. */
  lemma ProcessEventsSettles(leftover: Table, actions: seq<Action>, id: StreamId)
    requires var s := Run(Start(leftover), actions); id in s.streams && id % 4 == 0
    ensures var s := Run(Start(leftover), actions);
            id in Drained(s).streams && Settled(Drained(s).streams[id])
  {
    var s := Run(Start(leftover), actions);
    DrainIsRun(s);
    var more := Processes(|s.queue|);
    RunConcat(Start(leftover), actions, more);
    RunKeeps(leftover, actions + more);
    OutputGrows(s, more, id);
    QuietIsSettled(Run(s, more), id);
  }

  /** What was sent stays sent; after FIN nothing is ever added. */
  predicate Extends(before: Output, after: Output) {
    before.data <= after.data && (before.fin ==> before == after)
  }

  lemma {:induction false} OutputGrows(s: Sys, actions: seq<Action>, id: StreamId)
    requires id in s.streams
    ensures id in Run(s, actions).streams
    ensures Extends(s.streams[id].send.Out(), Run(s, actions).streams[id].send.Out())
    decreases |actions|
  {
    if actions != [] {
      var init := actions[..|actions| - 1];
      OutputGrows(s, init, id);
      var s1 := Run(s, init);
      if actions[|actions| - 1].Process? && s1.queue != [] {
        HandleIsLocal(s1.queue[0], s1.streams, s1.table, id);
      }
    }
  }

  // ----- entries left in the table

  /** Two systems that differ at most in table entries of streams not yet announced. */
  predicate SameButStale(a: Sys, b: Sys) {
    && a.streams == b.streams && a.queue == b.queue
    && forall id :: id in a.streams && NewStream(id) !in a.queue ==> a.Lane(id) == b.Lane(id)
  }

  lemma StaleStep(a: Sys, b: Sys, act: Action)
    requires QueueOk(a.queue, a.streams) && SameButStale(a, b)
    ensures SameButStale(Step(a, act), Step(b, act))
  {
    if act.Process? {
      if a.queue != [] {
        StaleProcess(a, b);
      }
    } else {
      SameQuietStep(a, b, act);
      QuietStep(a, act);
      QuietStep(b, act);
    }
  }

  /** What such a step does to streams and events does not depend on the table. */
  lemma SameQuietStep(a: Sys, b: Sys, act: Action)
    requires act != Process && a.streams == b.streams && a.queue == b.queue
    ensures Step(a, act).streams == Step(b, act).streams && Step(a, act).queue == Step(b, act).queue
  {
  }

  lemma StaleProcess(a: Sys, b: Sys)
    requires QueueOk(a.queue, a.streams) && SameButStale(a, b) && a.queue != []
    ensures SameButStale(Step(a, Process), Step(b, Process))
  {
    var a', b', ev := Step(a, Process), Step(b, Process), a.queue[0];
    HandleIsLocal(ev, a.streams, a.table, 0);
    HandleIsLocal(ev, b.streams, b.table, 0);
    assert a.queue == [ev] + a'.queue;
    forall id | id in a.streams
      ensures a'.streams[id] == b'.streams[id]
      ensures NewStream(id) !in a'.queue ==> a'.Lane(id) == b'.Lane(id)
    {
      StaleLane(a, b, ev, a'.queue, id);
      assert a'.Lane(id).stream == a'.streams[id] && b'.Lane(id).stream == b'.streams[id];
    }
  }

  lemma StaleLane(a: Sys, b: Sys, ev: Event, rest: seq<Event>, id: StreamId)
    requires a.streams == b.streams && a.queue == b.queue && QueueOk(a.queue, a.streams)
    requires a.queue == [ev] + rest && id in a.streams
    requires NewStream(id) !in a.queue ==> a.Lane(id) == b.Lane(id)
    ensures var (sa, ta) := Handle(ev, a.streams, a.table);
            var (sb, tb) := Handle(ev, b.streams, b.table);
            && LaneOf(sa, ta, id).stream == LaneOf(sb, tb, id).stream
            && (NewStream(id) !in rest ==> LaneOf(sa, ta, id) == LaneOf(sb, tb, id))
  {
    HandleIsLocal(ev, a.streams, a.table, id);
    HandleIsLocal(ev, b.streams, b.table, id);
    assert a.queue[1..] == rest;
    if ev.About(id) {
      NewOnce(a.queue, a.streams, id);
    }
    assert NewStream(id) in a.queue <==> ev == NewStream(id) || NewStream(id) in rest;
  }

  /** Stale entries are harmless: whatever earlier connections left in the table, every run has the
      same streams and the same events. */
  lemma {:induction false} StaleHarmless(left1: Table, left2: Table, actions: seq<Action>)
    ensures var a, b := Run(Start(left1), actions), Run(Start(left2), actions);
            SameButStale(a, b)
    decreases |actions|
  {
    if actions != [] {
      var init := actions[..|actions| - 1];
      StaleHarmless(left1, left2, init);
      RunKeeps(left1, init);
      RunKeeps(left2, init);
      StaleStep(Run(Start(left1), init), Run(Start(left2), init), actions[|actions| - 1]);
    }
  }
}
