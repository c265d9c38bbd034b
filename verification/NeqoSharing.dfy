/** Several live connections: the server keeps one table for all of them, keyed by stream id alone. */
module NeqoSharing {
  import opened Wrappers
  import opened Codec
  import opened Protocol
  import opened QuicStream
  import opened NeqoServer
  import opened NeqoRuns

  datatype Multi = Multi(conns: seq<Conn>, table: Table)

  /** What one connection and the shared table look like together. */
  function View(m: Multi, c: nat): Sys
    requires c < |m.conns|
  {
    Sys(m.conns[c].streams, m.table, m.conns[c].queue)
  }

  function ConnOf(s: Sys): Conn {
    Conn(s.streams, s.queue)
  }

  /** A step names the connection it happens on. */
  datatype At = At(conn: nat, action: Action)

  function MStep(m: Multi, a: At): (m': Multi)
    ensures |m'.conns| == |m.conns|
  {
    if a.conn >= |m.conns| then m else
      var s := Step(View(m, a.conn), a.action);
      Multi(m.conns[a.conn := ConnOf(s)], s.table)
  }

  function MRun(m: Multi, sched: seq<At>): (m': Multi)
    ensures |m'.conns| == |m.conns|
    decreases |sched|
  {
    if sched == [] then m else MStep(MRun(m, sched[..|sched| - 1]), sched[|sched| - 1])
  }

  function MStart(n: nat): Multi {
    Multi(seq(n, _ => Conn(map[], [])), map[])
  }

  /** The steps of one connection. */
  function Own(sched: seq<At>, c: nat): seq<Action>
    decreases |sched|
  {
    if sched == [] then []
    else
      var last := sched[|sched| - 1];
      Own(sched[..|sched| - 1], c) + if last.conn == c then [last.action] else []
  }

  /** A connection on its own. */
  function Alone(sched: seq<At>, c: nat): Sys {
    Run(Start(map[]), Own(sched, c))
  }

  /** Every connection has the streams and events it would have had alone. */
  ghost predicate Isolated(n: nat, sched: seq<At>) {
    forall c: nat :: c < n ==> MRun(MStart(n), sched).conns[c] == ConnOf(Alone(sched, c))
  }

  /** Connection `c` opens only streams in `ids[c]`. */
  predicate Respects(sched: seq<At>, ids: seq<set<StreamId>>) {
    forall k :: 0 <= k < |sched| && sched[k].action.Open? && sched[k].conn < |ids| ==>
                  sched[k].action.id in ids[sched[k].conn]
  }

  /** No two connections share the id of a stream that carries a request. */
  ghost predicate Apart(ids: seq<set<StreamId>>) {
    forall c, d, i :: 0 <= c < d < |ids| && i in ids[c] && i in ids[d] ==> i % 4 != 0
  }

  // ----- apart is enough

  /** Entries of streams that carry no request never have anything to send. */
  predicate Idle(table: Table) {
    forall id :: id in table && !ClientBidi(id) ==> table[id].writeRemaining.None?
  }

  ghost predicate Agree(a: Sys, b: Sys) {
    && ConnOf(a) == ConnOf(b) && QueueOk(a.queue, a.streams)
    && Idle(a.table) && Idle(b.table)
    && forall id :: id in a.streams && ClientBidi(id) && NewStream(id) !in a.queue ==> a.Lane(id) == b.Lane(id)
  }

  lemma IdleHandle(ev: Event, streams: map<StreamId, Stream>, table: Table)
    requires Idle(table)
    ensures Idle(Handle(ev, streams, table).1)
  {
  }

  lemma IdleLane(ev: Event, s: Sys, id: StreamId)
    requires Idle(s.table) && !ClientBidi(id)
    ensures LaneOf(Handle(ev, s.streams, s.table).0, Handle(ev, s.streams, s.table).1, id).stream == s.Lane(id).stream
  {
  }

  lemma AgreeProcess(a: Sys, b: Sys)
    requires Agree(a, b) && a.queue != []
    ensures Agree(Step(a, Process), Step(b, Process))
  {
    var a', b', ev := Step(a, Process), Step(b, Process), a.queue[0];
    assert a.queue == [ev] + a'.queue;
    HandleIsLocal(ev, a.streams, a.table, 0);
    HandleIsLocal(ev, b.streams, b.table, 0);
    IdleHandle(ev, a.streams, a.table);
    IdleHandle(ev, b.streams, b.table);
    forall id | id in a.streams
      ensures a'.streams[id] == b'.streams[id]
      ensures ClientBidi(id) && NewStream(id) !in a'.queue ==> a'.Lane(id) == b'.Lane(id)
    {
      assert a'.Lane(id).stream == a'.streams[id] && b'.Lane(id).stream == b'.streams[id];
      if ClientBidi(id) {
        StaleLane(a, b, ev, a'.queue, id);
      } else {
        IdleLane(ev, a, id);
        IdleLane(ev, b, id);
      }
    }
    QueueShrinks(a.queue, a.streams);
  }

  lemma QueueShrinks(q: seq<Event>, streams: map<StreamId, Stream>)
    requires QueueOk(q, streams) && q != []
    ensures QueueOk(q[1..], streams)
  {
  }

  lemma StepQueueOk(s: Sys, a: Action)
    requires QueueOk(s.queue, s.streams) && a != Process
    ensures QueueOk(Step(s, a).queue, Step(s, a).streams)
  {
    QuietStep(s, a);
    if a.Open? {
      OpenQueueOk(s, a.id, a.credit);
    } else {
      QueueGrows(s.queue, Added(s, a), s.streams);
    }
  }

  lemma OpenQueueOk(s: Sys, id: StreamId, credit: nat)
    requires QueueOk(s.queue, s.streams)
    ensures QueueOk(Step(s, Open(id, credit)).queue, Step(s, Open(id, credit)).streams)
  {
    var s' := Step(s, Open(id, credit));
    forall i, j | 0 <= i < j < |s'.queue| && s'.queue[j].NewStream?
      ensures !s'.queue[i].About(s'.queue[j].id)
    {
      assert s'.queue[i] in s.queue;
    }
  }

  /** A connection's own step keeps it as it would be alone. */
  lemma AgreeStep(a: Sys, b: Sys, act: Action)
    requires Agree(a, b)
    ensures Agree(Step(a, act), Step(b, act))
  {
    if act == Process {
      if a.queue != [] {
        AgreeProcess(a, b);
      }
    } else {
      StepQueueOk(a, act);
      SameQuietStep(a, b, act);
      QuietStep(a, act);
      QuietStep(b, act);
    }
  }

  /** A step of another connection touches only entries of that connection's streams. */
  lemma OtherStep(a: Sys, b: Sys, other: Sys, act: Action)
    requires Agree(a, b) && a.table == other.table && QueueOk(other.queue, other.streams)
    requires forall id :: id in a.streams && id in other.streams ==> !ClientBidi(id)
    ensures Agree(a.(table := Step(other, act).table), b)
  {
  }

  ghost predicate AllAgree(m: Multi, sched: seq<At>, ids: seq<set<StreamId>>) {
    && |m.conns| == |ids|
    && forall c: nat :: c < |ids| ==>
         Agree(View(m, c), Alone(sched, c)) && m.conns[c].streams.Keys <= ids[c]
  }

  lemma StepIds(s: Sys, a: Action)
    ensures Step(s, a).streams.Keys <= s.streams.Keys + if a.Open? then {a.id} else {}
  {
  }

  lemma {:induction false} ApartAgrees(ids: seq<set<StreamId>>, sched: seq<At>)
    requires Apart(ids) && Respects(sched, ids)
    ensures AllAgree(MRun(MStart(|ids|), sched), sched, ids)
    decreases |sched|
  {
    if sched != [] {
      var init, last := sched[..|sched| - 1], sched[|sched| - 1];
      assert Respects(init, ids) by {
        assert forall k :: 0 <= k < |init| ==> init[k] == sched[k];
      }
      ApartAgrees(ids, init);
      var m := MRun(MStart(|ids|), init);
      if last.conn < |ids| {
        AgreeAll(ids, m, init, last);
      }
      forall c: nat | c < |ids| ensures Alone(sched, c) ==
        if last.conn == c then Step(Alone(init, c), last.action) else Alone(init, c)
      {
        if last.conn == c {
          assert Own(sched, c)[..|Own(sched, c)| - 1] == Own(init, c);
        } else {
          assert Own(sched, c) == Own(init, c);
        }
      }
    }
  }

  /** One step, seen by every connection. */
  lemma AgreeAll(ids: seq<set<StreamId>>, m: Multi, init: seq<At>, last: At)
    requires Apart(ids) && AllAgree(m, init, ids) && last.conn < |ids|
    requires last.action.Open? ==> last.action.id in ids[last.conn]
    ensures var m' := MStep(m, last);
            forall c: nat :: c < |ids| ==>
              && m'.conns[c].streams.Keys <= ids[c]
              && Agree(View(m', c), if last.conn == c then Step(Alone(init, c), last.action) else Alone(init, c))
  {
    var m', d := MStep(m, last), last.conn;
    forall c: nat | c < |ids|
      ensures m'.conns[c].streams.Keys <= ids[c]
      ensures Agree(View(m', c), if d == c then Step(Alone(init, c), last.action) else Alone(init, c))
    {
      if c == d {
        AgreeStep(View(m, c), Alone(init, c), last.action);
        StepIds(View(m, c), last.action);
        assert View(m', c) == Step(View(m, c), last.action);
      } else {
        OtherStep(View(m, c), Alone(init, c), View(m, d), last.action);
        assert View(m', c) == View(m, c).(table := m'.table);
      }
    }
  }

  // ----- and sharing an id breaks it

  /** A one-byte request. */
  const ONE: seq<byte> := ToBytes(1, HEADER_LEN)

  /** Connection `c` is waiting for credit when `d` opens a stream with the same id. */
  function Clash(c: nat, d: nat, i: StreamId): seq<At> {
    [At(c, Open(i, 0)), At(c, Deliver(i, ONE, false)), At(c, Process), At(c, Process),
     At(d, Open(i, 0)), At(d, Process), At(c, Grant(i, 1)), At(c, Process)]
  }

  lemma MThen(m: Multi, sched: seq<At>, a: At)
    ensures MRun(m, sched + [a]) == MStep(MRun(m, sched), a)
  {
  }

  lemma FirstTwo(s: Sys, i: StreamId)
    requires s.streams == map[] && s.queue == []
    ensures Step(Step(s, Open(i, 0)), Deliver(i, ONE, false)) ==
            Sys(map[i := Stream(RecvSide([], ONE, false, false, false), SendSide([], false, 0, false))],
                s.table, [NewStream(i), RecvStreamReadable(i)])
  {
    assert [] + ONE == ONE;
  }

  lemma ParsesAndWaits()
    ensures Serve(Entry(ONE, None), SendSide([], false, 0, false)) ==
            (Entry(ONE, Some(1)), SendSide([], false, 0, false))
  {
    HeaderOf(1);
    assert [] + Zeros(0) == [];
  }

  /** A fresh entry whose header is readable parses it and waits for credit. */
  lemma ReadsAndWaits(s: Sys, i: StreamId)
    requires s.streams == map[i := Stream(RecvSide([], ONE, false, false, false), SendSide([], false, 0, false))]
    requires i in s.table && s.table[i] == FRESH && s.queue == [RecvStreamReadable(i)] && ClientBidi(i)
    ensures Step(s, Process) ==
            Sys(map[i := Stream(RecvSide(ONE, [], false, false, false), SendSide([], false, 0, false))],
                s.table[i := Entry(ONE, Some(1))], [])
  {
    ParsesAndWaits();
    assert [] + ONE == ONE;
  }

  /** After its first four steps a connection has parsed the request and waits for credit. */
  lemma FirstFour(s: Sys, i: StreamId)
    requires s.streams == map[] && s.queue == [] && ClientBidi(i)
    ensures var s4 := Step(Step(Step(Step(s, Open(i, 0)), Deliver(i, ONE, false)), Process), Process);
            s4 == Sys(map[i := Stream(RecvSide(ONE, [], false, false, false), SendSide([], false, 0, false))],
                      s.table[i := Entry(ONE, Some(1))], [])
  {
    var s2 := Step(Step(s, Open(i, 0)), Deliver(i, ONE, false));
    FirstTwo(s, i);
    var s3 := Step(s2, Process);
    assert s3 == Sys(s2.streams, s.table[i := FRESH], [RecvStreamReadable(i)]);
    ReadsAndWaits(s3, i);
    assert s3.table[i := Entry(ONE, Some(1))] == s.table[i := Entry(ONE, Some(1))];
  }

  /** With credit for the byte, the entry decides whether it is sent. */
  lemma LastTwo(s: Sys, i: StreamId)
    requires i in s.streams && i in s.table && s.queue == []
    requires s.streams[i].send == SendSide([], false, 0, false)
    ensures var s2 := Step(Step(s, Grant(i, 1)), Process);
            && i in s2.streams
            && (s.table[i] == FRESH ==> s2.streams[i].send.data == [])
            && (s.table[i].writeRemaining == Some(1) ==> s2.streams[i].send.data == Zeros(1))
  {
  }

  lemma NewcomerResets(s: Sys, i: StreamId)
    requires s.streams == map[] && s.queue == []
    ensures Step(Step(s, Open(i, 0)), Process).table == s.table[i := FRESH]
  {
  }

  lemma ClashAlone(c: nat, d: nat, i: StreamId)
    requires c != d && ClientBidi(i)
    ensures i in Alone(Clash(c, d, i), c).streams
    ensures Alone(Clash(c, d, i), c).streams[i].send.data == Zeros(1)
  {
    var own := [Open(i, 0), Deliver(i, ONE, false), Process, Process, Grant(i, 1), Process];
    OwnOfClash(c, d, i);
    var s := Start(map[]);
    FirstFour(s, i);
    RunSix(s, own);
    var s4 := Step(Step(Step(Step(s, own[0]), own[1]), own[2]), own[3]);
    LastTwo(s4, i);
  }

  /** The last step of a prefix. */
  lemma RunPrefix(s: Sys, a: seq<Action>, k: nat)
    requires k < |a|
    ensures Run(s, a[..k + 1]) == Step(Run(s, a[..k]), a[k])
  {
    assert a[..k + 1][..k] == a[..k];
  }

  lemma RunSix(s: Sys, a: seq<Action>)
    requires |a| == 6
    ensures Run(s, a) == Step(Step(Step(Step(Step(Step(s, a[0]), a[1]), a[2]), a[3]), a[4]), a[5])
  {
    forall k | 0 <= k < 6 ensures Run(s, a[..k + 1]) == Step(Run(s, a[..k]), a[k]) {
      RunPrefix(s, a, k);
    }
    assert a[..6] == a && a[..0] == [];
    assert Run(s, a[..0 + 1]) == Step(s, a[0]);
    assert Run(s, a[..1 + 1]) == Step(Step(s, a[0]), a[1]);
    assert Run(s, a[..2 + 1]) == Step(Step(Step(s, a[0]), a[1]), a[2]);
  }

  lemma OwnPrefix(sched: seq<At>, c: nat, k: nat)
    requires k < |sched|
    ensures Own(sched[..k + 1], c) == Own(sched[..k], c) + if sched[k].conn == c then [sched[k].action] else []
  {
    assert sched[..k + 1][..k] == sched[..k];
  }

  lemma OwnOfFour(c: nat, d: nat, i: StreamId)
    ensures Own(Clash(c, d, i)[..4], c) == [Open(i, 0), Deliver(i, ONE, false), Process, Process]
  {
    var s := Clash(c, d, i);
    assert s[..0] == [];
    OwnPrefix(s, c, 0);
    OwnPrefix(s, c, 1);
    OwnPrefix(s, c, 2);
    OwnPrefix(s, c, 3);
  }

  lemma OwnOfClash(c: nat, d: nat, i: StreamId)
    requires c != d
    ensures Own(Clash(c, d, i), c) ==
            [Open(i, 0), Deliver(i, ONE, false), Process, Process, Grant(i, 1), Process]
  {
    var s := Clash(c, d, i);
    OwnOfFour(c, d, i);
    OwnPrefix(s, c, 4);
    OwnPrefix(s, c, 5);
    OwnPrefix(s, c, 6);
    OwnPrefix(s, c, 7);
    assert s[..8] == s;
  }

  /** After six steps of the clash, the older connection waits for credit, but its entry is fresh. */
  lemma ClashSix(n: nat, c: nat, d: nat, i: StreamId)
    requires c < n && d < n && c != d && ClientBidi(i)
    ensures var m := MRun(MStart(n), Clash(c, d, i)[..6]);
            && i in m.table && m.table[i] == FRESH && m.conns[c].queue == []
            && i in m.conns[c].streams && m.conns[c].streams[i].send == SendSide([], false, 0, false)
  {
    var m0, s := MStart(n), Clash(c, d, i);
    var m4 := MRun(m0, s[..4]);
    MFour(m0, s[..4]);
    FirstFour(View(m0, c), i);
    assert View(m4, c) == Step(Step(Step(Step(View(m0, c), Open(i, 0)), Deliver(i, ONE, false)), Process), Process);
    assert m4.conns[d] == m0.conns[d];
    assert s[..6] == s[..4] + [s[4]] + [s[5]];
    MThen(m0, s[..4], s[4]);
    MThen(m0, s[..4] + [s[4]], s[5]);
    NewcomerResets(View(m4, d), i);
  }

  lemma ClashTogether(n: nat, c: nat, d: nat, i: StreamId)
    requires c < n && d < n && c != d && ClientBidi(i)
    ensures var m := MRun(MStart(n), Clash(c, d, i));
            i in m.conns[c].streams && m.conns[c].streams[i].send.data == []
  {
    var m0, s := MStart(n), Clash(c, d, i);
    ClashSix(n, c, d, i);
    assert s == s[..6] + [s[6]] + [s[7]];
    MThen(m0, s[..6], s[6]);
    MThen(m0, s[..6] + [s[6]], s[7]);
    LastTwo(View(MRun(m0, s[..6]), c), i);
  }

  lemma MFour(m: Multi, a: seq<At>)
    requires |a| == 4
    ensures MRun(m, a) == MStep(MStep(MStep(MStep(m, a[0]), a[1]), a[2]), a[3])
  {
    assert a == [] + [a[0]] + [a[1]] + [a[2]] + [a[3]];
    MThen(m, [], a[0]);
    MThen(m, [] + [a[0]], a[1]);
    MThen(m, [] + [a[0]] + [a[1]], a[2]);
    MThen(m, [] + [a[0]] + [a[1]] + [a[2]], a[3]);
  }

  lemma ApartIsolates(ids: seq<set<StreamId>>, sched: seq<At>)
    requires Apart(ids) && Respects(sched, ids)
    ensures Isolated(|ids|, sched)
  {
    ApartAgrees(ids, sched);
    forall c: nat | c < |ids|
      ensures MRun(MStart(|ids|), sched).conns[c] == ConnOf(Alone(sched, c))
    {
      assert Agree(View(MRun(MStart(|ids|), sched), c), Alone(sched, c));
    }
  }

  lemma ClashBreaks(ids: seq<set<StreamId>>, c: nat, d: nat, i: StreamId)
    requires c < d < |ids| && i in ids[c] && i in ids[d] && i % 4 == 0
    ensures Respects(Clash(c, d, i), ids) && !Isolated(|ids|, Clash(c, d, i))
  {
    ClashTogether(|ids|, c, d, i);
    ClashAlone(c, d, i);
    assert |Zeros(1)| == 1;
  }

  /** Exactly when live connections are isolated from each other: when no two of them ever use the same
      id for a stream that carries a request. */
  lemma IsolatedExactlyWhenApart(ids: seq<set<StreamId>>)
    ensures (forall sched :: Respects(sched, ids) ==> Isolated(|ids|, sched)) <==> Apart(ids)
  {
    if Apart(ids) {
      forall sched | Respects(sched, ids) ensures Isolated(|ids|, sched) {
        ApartIsolates(ids, sched);
      }
    } else {
      var c: nat, d: nat, i :| 0 <= c < d < |ids| && i in ids[c] && i in ids[d] && i % 4 == 0;
      ClashBreaks(ids, c, d, i);
    }
  }
}
