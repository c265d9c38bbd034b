/** The event aggregation behind the line protocol: volumes per syscall, drained into lines. */
module Metrics {
  import opened Wrappers
  import opened Codec
  import opened Tags

  /** A decoded event: a syscall code and a 32-bit length. */
  datatype Event = Event(code: nat, len: nat)

  type Volumes = map<string, seq<nat>>

  datatype Line = Line(count: nat, sum: nat)

  function Sum(xs: seq<nat>): nat
    decreases |xs|
  {
    if xs == [] then 0 else Sum(xs[..|xs| - 1]) + xs[|xs| - 1]
  }

  /** The entry of a name, empty if there is none. */
  function Held(v: Volumes, name: string): seq<nat> {
    if name in v then v[name] else []
  }

  /** Lengths are 32 bits wide, and no syscall has more than 2^32 of them waiting. */
  predicate Bounded(xs: seq<nat>) {
    |xs| <= U32 && forall i :: 0 <= i < |xs| ==> xs[i] < U32
  }

  lemma {:induction false} SumBound(xs: seq<nat>)
    requires forall i :: 0 <= i < |xs| ==> xs[i] < U32
    ensures Sum(xs) <= |xs| * (U32 - 1)
    decreases |xs|
  {
    if xs != [] {
      SumBound(xs[..|xs| - 1]);
    }
  }

  /** What one drain reports, per syscall. */
  function Report(v: Volumes): map<string, Line> {
    map name | name in v :: Line(|v[name]|, Sum(v[name]))
  }

  /** `rest` is still held, and each syscall gone from `before` has exactly one line. */
  ghost predicate Drains(before: Volumes, rest: Volumes, lines: seq<(string, Line)>) {
    && (rest.Keys <= before.Keys && forall name :: name in rest ==> rest[name] == before[name])
    && (forall i, j :: 0 <= i < j < |lines| ==> lines[i].0 != lines[j].0)
    && (forall l :: l in lines ==> l.0 in before && l.0 !in rest && l.1 == Report(before)[l.0])
    && (forall name :: name in before && name !in rest ==> (name, Report(before)[name]) in lines)
  }

  lemma DrainOne(before: Volumes, rest: Volumes, lines: seq<(string, Line)>, name: string)
    requires Drains(before, rest, lines) && name in rest
    ensures Drains(before, rest - {name}, lines + [(name, Line(|rest[name]|, Sum(rest[name])))])
  {
    var line := (name, Line(|rest[name]|, Sum(rest[name])));
    assert forall i :: 0 <= i < |lines| ==> lines[i] in lines;
    assert forall l :: l in lines + [line] ==> l in lines || l == line;
  }

  class Collector {
    var volumes: Volumes

    constructor ()
      ensures volumes == map[]
    {
      volumes := map[];
    }

    /** An event that does not decode is refused; a code beyond the table would abort the program. */
    method Process(ev: Option<Event>) returns (status: int)
      requires ev.Some? ==> ev.value.code < |SYSCALLS|
      modifies this
      ensures ev.None? ==> status == -1 && volumes == old(volumes)
      ensures ev.Some? ==>
                status == 0 &&
                var name := SYSCALLS[ev.value.code];
                volumes == old(volumes)[name := Held(old(volumes), name) + [ev.value.len]]
    {
      if ev.None? {
        return -1;
      }
      var name := SYSCALLS[ev.value.code];
      volumes := volumes[name := Held(volumes, name) + [ev.value.len]];
      status := 0;
    }

    /** The checked fold; it stays within 64 bits. */
    method Fold(data: seq<nat>) returns (acc: nat)
      requires Bounded(data)
      ensures acc == Sum(data) < U64
    {
      acc := 0;
      for i := 0 to |data|
        invariant acc == Sum(data[..i])
      {
        assert data[..i + 1][..i] == data[..i];
        SumBound(data[..i + 1]);
        acc := acc + data[i];
        assert acc < U64;
      }
      assert data[..|data|] == data;
      SumBound(data);
    }

    /** Drains every syscall, in the map's order, into one line each; an error if there is nothing to say. */
    method CollectLineProtocol(hasThroughput: bool) returns (result: Result<seq<(string, Line)>>)
      requires forall name :: name in volumes ==> Bounded(volumes[name])
      modifies this
      ensures volumes == map[]
      ensures result.Err? <==> !hasThroughput && old(volumes) == map[]
      ensures result.Ok? ==>
                var lines := result.value;
                && (forall i, j :: 0 <= i < j < |lines| ==> lines[i].0 != lines[j].0)
                && (forall l :: l in lines ==> l.0 in old(volumes) && l.1 == Report(old(volumes))[l.0])
                && (forall name :: name in old(volumes) ==> (name, Report(old(volumes))[name]) in lines)
    {
      ghost var before := volumes;
      var lines: seq<(string, Line)> := [];
      while volumes != map[]
        invariant Drains(before, volumes, lines)
        decreases volumes.Keys
      {
        var name :| name in volumes;
        var data := volumes[name];
        var sum := Fold(data);
        DrainOne(before, volumes, lines, name);
        lines := lines + [(name, Line(|data|, sum))];
        volumes := volumes - {name};
      }
      assert lines != [] ==> lines[0] in lines;
      if lines == [] && !hasThroughput {
        return Err;
      }
      result := Ok(lines);
    }
  }

  // ----- over a whole run

  datatype Op = Take(ev: Option<Event>) | Drain

  /** Volumes held, every report made so far, and whether processing has panicked: a code beyond the table
      panics before anything is counted, and after that no event is. */
  datatype State = State(volumes: Volumes, reports: seq<map<string, Line>>, panicked: bool)

  function Apply(s: State, op: Op): State {
    match op
    case Take(ev) =>
      if s.panicked || ev.None? then s
      else if ev.value.code >= |SYSCALLS| then s.(panicked := true)
      else
        var name := SYSCALLS[ev.value.code];
        s.(volumes := s.volumes[name := Held(s.volumes, name) + [ev.value.len]])
    case Drain =>
      s.(volumes := map[], reports := s.reports + [Report(s.volumes)])
  }

  function Run(ops: seq<Op>): State
    decreases |ops|
  {
    if ops == [] then State(map[], [], false) else Apply(Run(ops[..|ops| - 1]), ops[|ops| - 1])
  }

  /** The lengths taken for one syscall, in order, up to a panic. */
  function Taken(ops: seq<Op>, name: string): seq<nat>
    decreases |ops|
  {
    if ops == [] then []
    else
      var init, last := ops[..|ops| - 1], ops[|ops| - 1];
      Taken(init, name) +
      if !Run(init).panicked && last.Take? && last.ev.Some? && last.ev.value.code < |SYSCALLS| &&
         SYSCALLS[last.ev.value.code] == name
      then [last.ev.value.len] else []
  }

  /** Everything reported for one syscall. */
  function Reported(reports: seq<map<string, Line>>, name: string): Line
    decreases |reports|
  {
    if reports == [] then Line(0, 0)
    else
      var before, last := Reported(reports[..|reports| - 1], name), reports[|reports| - 1];
      if name in last then Line(before.count + last[name].count, before.sum + last[name].sum) else before
  }

  lemma SumAppend(xs: seq<nat>, x: nat)
    ensures Sum(xs + [x]) == Sum(xs) + x
  {
  }

  /** Conservation: over any run of events and drains, for every syscall, what was reported and what is
      still held make up what was taken, in number and in bytes. A panic loses nothing taken before it. */
  lemma {:induction false} Conserved(ops: seq<Op>, name: string)
    ensures var s := Run(ops);
            && Reported(s.reports, name).count + |Held(s.volumes, name)| == |Taken(ops, name)|
            && Reported(s.reports, name).sum + Sum(Held(s.volumes, name)) == Sum(Taken(ops, name))
    decreases |ops|
  {
    if ops != [] {
      var init, last := ops[..|ops| - 1], ops[|ops| - 1];
      Conserved(init, name);
      var s := Run(init);
      if last.Drain? {
        assert (s.reports + [Report(s.volumes)])[..|s.reports|] == s.reports;
        assert Taken(ops, name) == Taken(init, name);
      } else if !s.panicked && last.ev.Some? && last.ev.value.code < |SYSCALLS| &&
                SYSCALLS[last.ev.value.code] == name {
        SumAppend(Held(s.volumes, name), last.ev.value.len);
        SumAppend(Taken(init, name), last.ev.value.len);
      } else {
        assert Taken(ops, name) == Taken(init, name);
      }
    }
  }

  // ----- the probes

  /** The system calls with a probe. */
  datatype Probe = Write | Writev | Sendto | Sendmsg | Sendmmsg | Read | Readv | Recvfrom | Recvmsg | Recvmmsg

  /** The code a probe puts into its events. */
  function Code(p: Probe): nat {
    match p
    case Write => 0
    case Writev => 1
    case Sendto => 3
    case Sendmsg => 4
    case Sendmmsg => 5
    case Read => 6
    case Readv => 7
    case Recvfrom => 9
    case Recvmsg => 10
    case Recvmmsg => 11
  }

  function NameOf(p: Probe): string {
    match p
    case Write => "write"
    case Writev => "writev"
    case Sendto => "sendto"
    case Sendmsg => "sendmsg"
    case Sendmmsg => "sendmmsg"
    case Read => "read"
    case Readv => "readv"
    case Recvfrom => "recvfrom"
    case Recvmsg => "recvmsg"
    case Recvmmsg => "recvmmsg"
  }

  /** The numbering of the probes and the table of names agree. */
  lemma CodesAgree(p: Probe)
    ensures Code(p) < |SYSCALLS| == 12 && SYSCALLS[Code(p)] == NameOf(p)
  {
  }

  /** At any point of any run that has not panicked, what a probe counted is added to what is held under the
      name of its own system call, and under no other. */
  lemma CountedUnderOwnName(ops: seq<Op>, p: Probe, len: nat, name: string)
    requires !Run(ops).panicked
    ensures var s, s' := Run(ops), Run(ops + [Take(Some(Event(Code(p), len)))]);
            && !s'.panicked && s'.reports == s.reports
            && Held(s'.volumes, name) == Held(s.volumes, name) + if name == NameOf(p) then [len] else []
  {
    CodesAgree(p);
    var op := Take(Some(Event(Code(p), len)));
    assert (ops + [op])[..|ops|] == ops;
  }
}
