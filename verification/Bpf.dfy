/** The byte counters of the eBPF probes: 32-bit sums over iovecs read from user memory. */
module Bpf {
  import opened Wrappers
  import opened Codec

  /** An iovec array as the probe sees it: each entry's length, or nothing if it cannot be read. */
  type Iovecs = seq<Option<nat>>

  predicate AllReadable(vec: Iovecs) {
    forall i :: 0 <= i < |vec| ==> vec[i].Some?
  }

  /** The true number of bytes. */
  function Total(vec: Iovecs): nat
    decreases |vec|
  {
    if vec == [] then 0
    else
      var last := vec[|vec| - 1];
      Total(vec[..|vec| - 1]) + if last.Some? then last.value else 0
  }

  /** Total, in terms of its entries: each length once. */
  lemma {:induction false} TotalIs(a: Iovecs, b: Iovecs, n: nat)
    ensures Total([]) == 0 && Total([Some(n)]) == n && Total([None]) == 0
    ensures Total(a + b) == Total(a) + Total(b)
  {
    if b == [] {
      assert a + b == a;
    } else {
      TotalIs(a, b[..|b| - 1], n);
      assert (a + b)[..|a + b| - 1] == a + b[..|b| - 1];
    }
  }

  lemma ModAddRight(a: nat, b: nat)
    ensures (a % U32 + b) % U32 == (a + b) % U32
  {
  }

  /** Sums the lengths; a failed read makes the whole count 0. */
  method CountIovecLen(vec: Iovecs) returns (k: nat)
    ensures k == if forall i :: 0 <= i < |vec| ==> vec[i].Some? then Total(vec) % 0x1_0000_0000 else 0
  {
    k := 0;
    for i := 0 to |vec|
      invariant AllReadable(vec[..i]) && k == Total(vec[..i]) % U32
    {
      if vec[i].None? {
        return 0;
      }
      assert vec[..i + 1][..i] == vec[..i];
      ModAddRight(Total(vec[..i]), vec[i].value);
      k := (k + vec[i].value) % U32;
    }
    assert vec[..|vec|] == vec;
  }

  lemma ModTimesStep(i: nat, s: nat)
    ensures (i * s % U32 + s % U32) % U32 == (i + 1) * s % U32
  {
    ModAddRight(i * s, s % U32);
    ModAddRight(s, i * s);
    assert (i + 1) * s == i * s + s;
  }

  /** One message: the full sum is added once per iovec, so the event carries count times sum. That is the
      message's length modulo 2^32 exactly when (count - 1) times the length vanishes modulo 2^32: for messages
      whose surplus is below 2^32, exactly when there is one iovec or no byte. An unreadable message header
      submits nothing. */
  method SubmitEventUserMsghdr(msg: Option<Iovecs>) returns (event: Option<nat>)
    ensures event.Some? <==> msg.Some?
    ensures msg.Some? ==>
              var vec := msg.value;
              event.value == if AllReadable(vec) then |vec| * Total(vec) % U32 else 0
    ensures msg.Some? && AllReadable(msg.value) ==>
              var vec := msg.value;
              event.value == Total(vec) % U32 <==> vec == [] || (|vec| - 1) * Total(vec) % U32 == 0
    ensures msg.Some? && AllReadable(msg.value) && msg.value != [] && (|msg.value| - 1) * Total(msg.value) < U32 ==>
              var vec := msg.value;
              event.value == Total(vec) % U32 <==> |vec| == 1 || Total(vec) == 0
  {
    if msg.None? {
      return None;
    }
    var vec := msg.value;
    var k: nat := 0;
    ghost var each := if AllReadable(vec) then Total(vec) else 0;
    for i := 0 to |vec|
      invariant k == i * each % U32
    {
      var c := CountIovecLen(vec);
      ModTimesStep(i, each);
      k := (k + c) % U32;
    }
    if AllReadable(vec) && vec != [] {
      PlainExactlyWhen(|vec|, Total(vec));
      SmallSurplus(|vec|, Total(vec));
    }
    event := Some(k);
  }

  lemma PlainExactlyWhen(count: nat, s: nat)
    requires count > 0
    ensures count * s % U32 == s % U32 <==> (count - 1) * s % U32 == 0
  {
    assert count * s == (count - 1) * s + s;
    ModShift((count - 1) * s, s);
  }

  lemma ModShift(x: nat, s: nat)
    ensures (x + s) % U32 == s % U32 <==> x % U32 == 0
  {
    ModAddRight(x, s);
  }

  lemma SmallSurplus(count: nat, s: nat)
    requires count > 0
    ensures (count - 1) * s < U32 ==> ((count - 1) * s % U32 == 0 <==> count == 1 || s == 0)
  {
    if count > 1 && s > 0 {
      assert (count - 1) * s >= s;
    }
  }

  /** In particular one iovec is counted right, and two of 1 byte each are counted as 4. */
  lemma OneIsRightTwoIsNot(vec: Iovecs)
    requires |vec| <= 1
    ensures |vec| * Total(vec) % U32 == Total(vec) % U32
    ensures var two: Iovecs := [Some(1), Some(1)]; |two| * Total(two) % U32 == 4 && Total(two) % U32 == 2
  {
  }

  function TotalAll(msgs: seq<Option<Iovecs>>): nat
    decreases |msgs|
  {
    if msgs == [] then 0
    else
      var last := msgs[|msgs| - 1];
      TotalAll(msgs[..|msgs| - 1]) + if last.Some? && AllReadable(last.value) then Total(last.value) else 0
  }

  /** TotalAll, in terms of its messages: the bytes of each whose iovecs can all be read. */
  lemma {:induction false} TotalAllIs(a: seq<Option<Iovecs>>, b: seq<Option<Iovecs>>, vec: Iovecs)
    ensures TotalAll([]) == 0 && TotalAll([None]) == 0
    ensures TotalAll([Some(vec)]) == if forall i :: 0 <= i < |vec| ==> vec[i].Some? then Total(vec) else 0
    ensures TotalAll(a + b) == TotalAll(a) + TotalAll(b)
  {
    var one: seq<Option<Iovecs>> := [Some(vec)];
    assert one[..0] == [];
    if b == [] {
      assert a + b == a;
    } else {
      TotalAllIs(a, b[..|b| - 1], vec);
      assert (a + b)[..|a + b| - 1] == a + b[..|b| - 1];
    }
  }

  /** Many messages: each is counted once; one with an unreadable iovec counts 0, and an unreadable header
      submits nothing at all. */
  method SubmitEventMsghdr(msgs: seq<Option<Iovecs>>) returns (event: Option<nat>)
    ensures event == if forall i :: 0 <= i < |msgs| ==> msgs[i].Some? then Some(TotalAll(msgs) % U32) else None
  {
    var k: nat := 0;
    for i := 0 to |msgs|
      invariant forall j :: 0 <= j < i ==> msgs[j].Some?
      invariant k == TotalAll(msgs[..i]) % U32
    {
      if msgs[i].None? {
        return None;
      }
      var c := CountIovecLen(msgs[i].value);
      assert msgs[..i + 1][..i] == msgs[..i];
      ghost var each := if AllReadable(msgs[i].value) then Total(msgs[i].value) else 0;
      ModAddRight(TotalAll(msgs[..i]), each % U32);
      ModAddRight(each, TotalAll(msgs[..i]));
      k := (k + c) % U32;
    }
    assert msgs[..|msgs|] == msgs;
    event := Some(k);
  }
}
