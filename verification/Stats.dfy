/** The measurement record of utils/src/perf.rs, with time as a parameter and without the floating-point part. */
module Stats {
  import opened Wrappers

  /** The value of a record; `open` is the start time of the measurement under way. */
  datatype Record = Record(deltas: seq<nat>, open: Option<nat>, numBytes: seq<nat>)

  datatype Op = Start(at: nat) | Add(bytes: nat) | Stop(at: nat)

  /** A step on values. Adding before any start, and stopping while not measuring, are errors that change
      nothing. */
  function Apply(r: Record, op: Op): Record {
    match op
    case Start(at) => Record(r.deltas, Some(at), r.numBytes + [0])
    case Add(n) =>
      if r.numBytes == [] then r
      else r.(numBytes := r.numBytes[|r.numBytes| - 1 := r.numBytes[|r.numBytes| - 1] + n])
    case Stop(at) =>
      if r.open.None? then r
      else r.(deltas := r.deltas + [if at >= r.open.value then at - r.open.value else 0], open := None)
  }

  class Stats {
    var deltas: seq<nat>
    var start: Option<nat>
    var numBytes: seq<nat>

    constructor ()
      ensures Value() == Record([], None, []) && Valid()
    {
      deltas, start, numBytes := [], None, [];
    }

    function Value(): Record
      reads this
    {
      Record(deltas, start, numBytes)
    }

    /** While measuring there is a byte count, and there are never more durations than counts. */
    predicate Valid()
      reads this
    {
      |deltas| + (if start.Some? then 1 else 0) <= |numBytes|
    }

    method StartMeasurement(now: nat)
      requires Valid()
      modifies this
      ensures Valid() && Value() == Apply(old(Value()), Start(now))
    {
      start := Some(now);
      numBytes := numBytes + [0];
    }

    method AddBytes(n: nat) returns (result: Result<nat>)
      requires Valid()
      modifies this
      ensures Valid() && Value() == Apply(old(Value()), Add(n))
      ensures result == if numBytes == [] then Err else Ok(numBytes[|numBytes| - 1])
    {
      if numBytes == [] {
        return Err;
      }
      numBytes := numBytes[|numBytes| - 1 := numBytes[|numBytes| - 1] + n];
      result := Ok(numBytes[|numBytes| - 1]);
    }

    /** The byte count it reports with the duration is the latest one; it is there. */
    method StopMeasurement(now: nat) returns (result: Result<(nat, nat)>)
      requires Valid()
      modifies this
      ensures Valid() && Value() == Apply(old(Value()), Stop(now))
      ensures result.Ok? <==> old(start).Some?
      ensures result.Ok? ==> numBytes != [] && result.value == (deltas[|deltas| - 1], numBytes[|numBytes| - 1])
    {
      if start.None? {
        return Err;
      }
      var t := if now >= start.value then now - start.value else 0;
      deltas := deltas + [t];
      start := None;
      result := Ok((t, numBytes[|numBytes| - 1]));
    }
  }

  function Run(ops: seq<Op>): Record
    decreases |ops|
  {
    if ops == [] then Record([], None, []) else Apply(Run(ops[..|ops| - 1]), ops[|ops| - 1])
  }

  function SumOf(xs: seq<nat>): nat
    decreases |xs|
  {
    if xs == [] then 0 else SumOf(xs[..|xs| - 1]) + xs[|xs| - 1]
  }

  /** The bytes added once a measurement has been started. */
  function Added(ops: seq<Op>): nat
    decreases |ops|
  {
    if ops == [] then 0
    else
      var init, last := ops[..|ops| - 1], ops[|ops| - 1];
      Added(init) + if last.Add? && Run(init).numBytes != [] then last.bytes else 0
  }

  /** For each duration, which start (counting from 0) it was measured from: the index of its byte count. */
  function StartOf(ops: seq<Op>): seq<int>
    decreases |ops|
  {
    if ops == [] then []
    else
      var init, last := ops[..|ops| - 1], ops[|ops| - 1];
      StartOf(init) + if last.Stop? && Run(init).open.Some? then [|Run(init).numBytes| - 1] else []
  }

  /** How often a measurement was started while one was under way. */
  function Restarts(ops: seq<Op>): nat
    decreases |ops|
  {
    if ops == [] then 0
    else
      var init, last := ops[..|ops| - 1], ops[|ops| - 1];
      Restarts(init) + if last.Start? && Run(init).open.Some? then 1 else 0
  }

  /** No measurement had been started over by the time of any successful stop. */
  predicate NeverStartedOver(ops: seq<Op>) {
    forall k :: 0 <= k < |ops| && ops[k].Stop? && Run(ops[..k]).open.Some? ==> Restarts(ops[..k]) == 0
  }

  /** Over every run: there is a byte count while measuring, durations never outnumber byte counts, the
      byte counts add up to all the bytes accepted, and the surplus of counts is the number of restarts. */
  lemma {:induction false} RunCounts(ops: seq<Op>)
    ensures var r := Run(ops);
            && |r.numBytes| == |r.deltas| + (if r.open.Some? then 1 else 0) + Restarts(ops)
            && SumOf(r.numBytes) == Added(ops)
            && |StartOf(ops)| == |r.deltas|
    decreases |ops|
  {
    if ops != [] {
      var init, last := ops[..|ops| - 1], ops[|ops| - 1];
      RunCounts(init);
      var before, after := Run(init).numBytes, Run(ops).numBytes;
      if last.Start? {
        assert after[..|after| - 1] == before;
      } else if last.Add? && before != [] {
        assert after[..|after| - 1] == before[..|before| - 1];
      }
    }
  }

  function AddsIn(ops: seq<Op>): nat
    decreases |ops|
  {
    if ops == [] then 0
    else
      var last := ops[|ops| - 1];
      AddsIn(ops[..|ops| - 1]) + if last.Add? then last.bytes else 0
  }

  /** Until the next start, all bytes added go to the count that the latest start opened, and to no other. */
  lemma {:induction false} AddsGoToLatest(ops: seq<Op>, a: nat, mid: seq<Op>)
    requires forall op :: op in mid ==> !op.Start?
    ensures Run(ops + [Start(a)] + mid).numBytes == Run(ops).numBytes + [AddsIn(mid)]
    decreases |mid|
  {
    var begun := ops + [Start(a)];
    if mid == [] {
      assert begun + mid == begun && begun[..|ops|] == ops;
    } else {
      var init := mid[..|mid| - 1];
      AddsGoToLatest(ops, a, init);
      assert (begun + mid)[..|begun + mid| - 1] == begun + init;
      assert mid[|mid| - 1] in mid;
    }
  }

  lemma {:induction false} AddsLeaveTimes(ops: seq<Op>, a: nat, adds: seq<Op>)
    requires forall op :: op in adds ==> op.Add?
    ensures Run(ops + [Start(a)] + adds) == Record(Run(ops).deltas, Some(a), Run(ops).numBytes + [AddsIn(adds)])
    decreases |adds|
  {
    AddsGoToLatest(ops, a, adds);
    var begun := ops + [Start(a)];
    if adds == [] {
      assert begun + adds == begun && begun[..|ops|] == ops;
    } else {
      var init := adds[..|adds| - 1];
      AddsLeaveTimes(ops, a, init);
      assert (begun + adds)[..|begun + adds| - 1] == begun + init;
      assert adds[|adds| - 1] in adds;
    }
  }

  lemma Then(ops: seq<Op>, op: Op)
    ensures Run(ops + [op]) == Apply(Run(ops), op)
  {
  }

  lemma StopTwice(ops: seq<Op>, a: nat, b: nat, c: nat)
    requires Run(ops).open == Some(a)
    ensures Run(ops + [Stop(b)]) == Record(Run(ops).deltas + [if b >= a then b - a else 0], None, Run(ops).numBytes)
    ensures Run(ops + [Stop(b)] + [Stop(c)]) == Run(ops + [Stop(b)])
  {
    Then(ops, Stop(b));
    Then(ops + [Stop(b)], Stop(c));
  }

  /** One measurement, at any point of any run: it lasts from its start to its stop, and counts the bytes added
      in between. A second stop changes nothing. */
  lemma OneMeasurement(ops: seq<Op>, a: nat, adds: seq<Op>, b: nat, c: nat)
    requires forall op :: op in adds ==> op.Add?
    ensures var r, r' := Run(ops), Run(ops + [Start(a)] + adds + [Stop(b)]);
            && r' == Record(r.deltas + [if b >= a then b - a else 0], None, r.numBytes + [AddsIn(adds)])
            && Run(ops + [Start(a)] + adds + [Stop(b)] + [Stop(c)]) == r'
  {
    AddsLeaveTimes(ops, a, adds);
    StopTwice(ops + [Start(a)] + adds, a, b, c);
  }

  /** Before the first start nothing is recorded. */
  lemma {:induction false} NothingBeforeStart(ops: seq<Op>)
    requires forall op :: op in ops ==> !op.Start?
    ensures Run(ops) == Record([], None, [])
    decreases |ops|
  {
    if ops != [] {
      NothingBeforeStart(ops[..|ops| - 1]);
      assert ops[|ops| - 1] in ops;
    }
  }

  predicate Paired(starts: seq<int>) {
    forall i :: 0 <= i < |starts| ==> starts[i] == i
  }

  lemma PairedAppend(starts: seq<int>, next: int)
    ensures Paired(starts + [next]) <==> Paired(starts) && next == |starts|
  {
    assert (starts + [next])[|starts|] == next;
    assert forall i :: 0 <= i < |starts| ==> (starts + [next])[i] == starts[i];
  }

  lemma NeverAppend(ops: seq<Op>)
    requires ops != []
    ensures var init, last := ops[..|ops| - 1], ops[|ops| - 1];
            NeverStartedOver(ops) <==>
            NeverStartedOver(init) && (last.Stop? && Run(init).open.Some? ==> Restarts(init) == 0)
  {
    assert forall k :: 0 <= k < |ops| - 1 ==> ops[..|ops| - 1][..k] == ops[..k];
  }

  /** The summary pairs duration i with byte count i. That is the measurement it was taken in exactly when
      no measurement had been started over before a successful stop. */
  lemma {:induction false} PairingExactlyWhen(ops: seq<Op>)
    ensures Paired(StartOf(ops)) <==> NeverStartedOver(ops)
    decreases |ops|
  {
    if ops != [] {
      var init := ops[..|ops| - 1];
      PairingExactlyWhen(init);
      RunCounts(init);
      NeverAppend(ops);
      PairedAppend(StartOf(init), |Run(init).numBytes| - 1);
      assert StartOf(init) + [] == StartOf(init);
    }
  }
}
