/** The msquic server and client: callbacks that collect the header, answer in one send, and count. */
module Msquic {
  import opened Codec
  import opened Protocol

  /** One buffer list after another, flattened. */
  function Concat(buffers: seq<seq<byte>>): seq<byte> {
    if buffers == [] then [] else buffers[0] + Concat(buffers[1..])
  }

  /** The buffers are joined in order, nothing added. */
  lemma {:induction false} ConcatIs(a: seq<seq<byte>>, b: seq<seq<byte>>, buf: seq<byte>)
    ensures Concat(a + b) == Concat(a) + Concat(b)
    ensures Concat([buf]) == buf && Concat([]) == []
  {
    if a == [] {
      assert a + b == b;
      assert [buf][1..] == [];
    } else {
      ConcatIs(a[1..], b, buf);
      assert (a + b)[1..] == a[1..] + b;
    }
  }

  /** Stream events at the server; whether a send is accepted is up to the library. */
  datatype Event =
    | Receive(buffers: seq<seq<byte>>)
    | PeerSendShutdown(sendAccepted: bool)
    | Other

  /** The leading 8 bytes. */
  function Leading(s: seq<byte>): seq<byte> {
    s[..Min(HEADER_LEN, |s|)]
  }

  /** The longest byte vector on a 64-bit target; asking for a longer one throws. */
  const MAX_VECTOR: nat := 0x7FFF_FFFF_FFFF_FFFF

  /** The server's side of a stream: the header so far, what was sent, whether it was aborted, and whether
      the callback threw, after which it does nothing more. */
  datatype Lane = Lane(header: seq<byte>, out: Output, aborted: bool, threw: bool)

  /** The 32-bit buffer length that a response of `n` bytes is sent with. */
  function Length32(n: nat): nat {
    n % U32
  }

  function OnEvent(l: Lane, ev: Event): Lane {
    if l.threw then l else
    match ev
    case Receive(buffers) => l.(header := Leading(l.header + Concat(buffers)))
    case PeerSendShutdown(accepted) =>
      if |l.header| < HEADER_LEN then
        l.(aborted := true)
      else if Requested(l.header) > MAX_VECTOR then
        l.(threw := true)
      else if !accepted || l.out.fin || l.aborted then
        l.(aborted := true)
      else
        l.(out := Output(l.out.data + Zeros(Length32(Requested(l.header))), true))
    case Other => l
  }

  /** The sending half of a stream: a send is taken whole and carries FIN; a finished or aborted stream
      refuses. */
  class Stream {
    var out: Output
    var aborted: bool

    constructor ()
      ensures out == Output([], false) && !aborted
    {
      out, aborted := Output([], false), false;
    }

    method StreamSend(bytes: seq<byte>, accepted: bool) returns (failed: bool)
      modifies this
      ensures failed <==> !accepted || old(out.fin) || old(aborted)
      ensures out == if failed then old(out) else Output(old(out.data) + bytes, true)
      ensures aborted == old(aborted)
    {
      failed := !accepted || out.fin || aborted;
      if !failed {
        out := Output(out.data + bytes, true);
      }
    }

    method Abort()
      modifies this`aborted
      ensures aborted
    {
      aborted := true;
    }
  }

  class StreamState {
    const request: array<byte>
    var requestLen: nat
    var response: seq<byte>
    var threw: bool

    constructor ()
      ensures Valid() && requestLen == 0 && !threw && fresh(request)
    {
      request := new byte[8];
      requestLen, response, threw := 0, [], false;
    }

    predicate Valid() {
      request.Length == 8
    }

    /** The bytes of the header collected so far. */
    function Header(): seq<byte>
      requires Valid() && requestLen <= 8
      reads this, request
    {
      request[..requestLen]
    }

    /** RECEIVE: copies from each buffer what still fits, until 8 bytes are there. */
    method Collect(buffers: seq<seq<byte>>)
      requires Valid() && requestLen <= 8
      modifies this`requestLen, request
      ensures requestLen <= 8
      ensures Header() == Leading(old(Header()) + Concat(buffers))
    {
      var i := 0;
      assert Header() == Leading(Header());
      while i < |buffers| && requestLen < 8
        invariant i <= |buffers| && requestLen <= 8
        invariant Leading(Header() + Concat(buffers[i..])) == Leading(old(Header()) + Concat(buffers))
      {
        ghost var before := Header();
        var buf := buffers[i];
        var take := |buf|;
        if requestLen + take > 8 {
          take := 8 - requestLen;
        }
        forall k | 0 <= k < take {
          request[requestLen + k] := buf[k];
        }
        requestLen := requestLen + take;
        assert Header() == before + buf[..take];
        assert buffers[i..][0] == buf && buffers[i..][1..] == buffers[i + 1..];
        TakeFits(before, buf, take, Concat(buffers[i + 1..]));
        i := i + 1;
      }
      assert i == |buffers| ==> buffers[i..] == [];
      assert Leading(Header() + Concat(buffers[i..])) == Header();
    }

    method StreamCallback(stream: Stream, ev: Event)
      requires Valid() && requestLen <= 8
      modifies this, request, stream
      ensures requestLen <= 8
      ensures Lane(Header(), stream.out, stream.aborted, threw) ==
              OnEvent(Lane(old(Header()), old(stream.out), old(stream.aborted), old(threw)), ev)
    {
      if threw {
        return;
      }
      match ev {
        case Receive(buffers) =>
          Collect(buffers);
        case PeerSendShutdown(accepted) =>
          if requestLen < 8 {
            stream.Abort();
          } else {
            var size := RequestFromBytes(request[..]);
            assert request[..] == Header() == Header()[..HEADER_LEN];
            if size > MAX_VECTOR {
              threw := true;
              return;
            }
            response := Zeros(size);
            var length := |response| % U32;
            assert response[..length] == Zeros(length);
            var failed := stream.StreamSend(response[..length], accepted);
            if failed {
              stream.Abort();
            }
          }
        case Other =>
      }
    }
  }

  lemma TakeFits(header: seq<byte>, buf: seq<byte>, take: nat, rest: seq<byte>)
    requires |header| <= HEADER_LEN && take == Min(|buf|, HEADER_LEN - |header|)
    ensures Leading(header + buf[..take] + rest) == Leading(header + (buf + rest))
  {
  }

  // ----- runs of the server

  const L_START := Lane([], Output([], false), false, false)

  function Run(events: seq<Event>): Lane
    decreases |events|
  {
    if events == [] then L_START else OnEvent(Run(events[..|events| - 1]), events[|events| - 1])
  }

  /** Everything received over a run. */
  function Input(events: seq<Event>): seq<byte>
    decreases |events|
  {
    if events == [] then []
    else
      var last := events[|events| - 1];
      Input(events[..|events| - 1]) + if last.Receive? then Concat(last.buffers) else []
  }

  lemma LeadingLeading(a: seq<byte>, b: seq<byte>)
    ensures Leading(Leading(a) + b) == Leading(a + b)
  {
  }

  /** Accumulation: until the callback throws, after any events with any buffer lists, the header is the
      leading bytes of the input. */
  lemma {:induction false} HeaderIsLeading(events: seq<Event>)
    requires !Run(events).threw
    ensures Run(events).header == Leading(Input(events))
    decreases |events|
  {
    if events != [] {
      var init, last := events[..|events| - 1], events[|events| - 1];
      HeaderIsLeading(init);
      if last.Receive? {
        LeadingLeading(Input(init), Concat(last.buffers));
      } else {
        assert Input(init) + [] == Input(init);
      }
    }
  }

  lemma {:induction false} NothingSentBefore(events: seq<Event>)
    requires forall ev :: ev in events ==> !ev.PeerSendShutdown?
    ensures Run(events).out == Output([], false) && !Run(events).aborted && !Run(events).threw
    decreases |events|
  {
    if events != [] {
      NothingSentBefore(events[..|events| - 1]);
      assert events[|events| - 1] in events;
    }
  }

  /** A completed exchange: the input, cut in any way, then the end of the peer's side. Short input is
      aborted and answered with nothing; a size no vector can have throws; a refused send is aborted; otherwise
      the answer has the requested size modulo 2^32. It is the protocol's answer exactly when the send is
      accepted and the size fits the 32-bit length. */
  lemma OneShot(events: seq<Event>, accepted: bool)
    requires forall ev :: ev in events ==> !ev.PeerSendShutdown?
    ensures var input, l := Input(events), Run(events + [PeerSendShutdown(accepted)]);
            if |input| < 8 then
              l.aborted && !l.threw && l.out == Output([], false)
            else
              && (l.threw <==> Requested(input) >= 0x8000_0000_0000_0000)
              && (l.aborted <==> !l.threw && !accepted)
              && l.out == (if l.threw || l.aborted then Output([], false)
                           else Output(Zeros(Requested(input) % 0x1_0000_0000), true))
              && (Served(input, l.out) <==> accepted && Requested(input) < 0x1_0000_0000)
  {
    var all := events + [PeerSendShutdown(accepted)];
    assert all[..|events|] == events;
    NothingSentBefore(events);
    HeaderIsLeading(events);
    var input := Input(events);
    if |input| >= HEADER_LEN {
      assert Leading(input)[..HEADER_LEN] == input[..HEADER_LEN];
      var n := Requested(input);
      assert [] + Zeros(n % U32) == Zeros(n % U32);
      assert |Zeros(n % U32)| == n % U32 && |Zeros(n)| == n;
    }
  }

  // ----- the client

  datatype ClientEvent =
    | Received(totalBufferLength: nat)
    | PeerSendShutdownEvent
    | StreamShutdownComplete
    | ConnectionShutdownComplete

  class ClientState {
    const requested: nat
    var received: nat
    var ok: bool
    var done: bool

    constructor (requested: nat)
      ensures this.requested == requested && received == 0 && !ok && !done
    {
      this.requested := requested;
      received, ok, done := 0, false, false;
    }

    function Value(): ClientValue
      reads this
    {
      ClientValue(received, ok, done)
    }

    /** The stream and connection callbacks; the byte counter is 64 bits wide. */
    method Callback(ev: ClientEvent)
      modifies this
      ensures Value() == OnClientEvent(requested, old(Value()), ev)
    {
      match ev {
        case Received(n) => received := (received + n) % U64;
        case PeerSendShutdownEvent => ok := received == requested;
        case StreamShutdownComplete =>
        case ConnectionShutdownComplete => done := true;
      }
    }
  }

  datatype ClientValue = ClientValue(received: nat, ok: bool, done: bool)

  function OnClientEvent(requested: nat, c: ClientValue, ev: ClientEvent): ClientValue {
    match ev
    case Received(n) => c.(received := (c.received + n) % U64)
    case PeerSendShutdownEvent => c.(ok := c.received == requested)
    case StreamShutdownComplete => c
    case ConnectionShutdownComplete => c.(done := true)
  }

  function ClientRun(requested: nat, events: seq<ClientEvent>): ClientValue
    decreases |events|
  {
    if events == [] then ClientValue(0, false, false)
    else OnClientEvent(requested, ClientRun(requested, events[..|events| - 1]), events[|events| - 1])
  }

  function TotalReceived(events: seq<ClientEvent>): nat
    decreases |events|
  {
    if events == [] then 0
    else
      var last := events[|events| - 1];
      TotalReceived(events[..|events| - 1]) + if last.Received? then last.totalBufferLength else 0
  }

  lemma {:induction false} ReceivedIsTotal(requested: nat, events: seq<ClientEvent>)
    ensures ClientRun(requested, events).received == TotalReceived(events) % U64
    decreases |events|
  {
    if events != [] {
      ReceivedIsTotal(requested, events[..|events| - 1]);
    }
  }

  lemma Narrowing(n: nat)
    requires n < U64
    ensures n % U32 % U64 == n % U32
    ensures n % U32 == n <==> n < U32
  {
  }

  /** The verdict is the comparison at the latest end of the peer's side, whatever comes after that; without
      one there is none. */
  lemma {:induction false} VerdictStands(requested: nat, down: seq<ClientEvent>, tail: seq<ClientEvent>)
    requires PeerSendShutdownEvent !in tail
    ensures ClientRun(requested, down + [PeerSendShutdownEvent] + tail).ok <==>
            TotalReceived(down) % 0x1_0000_0000_0000_0000 == requested
    ensures !ClientRun(requested, tail).ok
    decreases |tail|
  {
    var end := down + [PeerSendShutdownEvent];
    if tail == [] {
      ReceivedIsTotal(requested, down);
      assert end + tail == end && end[..|down|] == down;
    } else {
      var init := tail[..|tail| - 1];
      VerdictStands(requested, down, init);
      assert (end + tail)[..|end + tail| - 1] == end + init;
      assert tail[|tail| - 1] in tail;
    }
  }

  /** The client waits for exactly one event: the end of the connection. */
  lemma {:induction false} DoneExactlyAfterClose(requested: nat, events: seq<ClientEvent>)
    ensures ClientRun(requested, events).done <==> ConnectionShutdownComplete in events
    decreases |events|
  {
    if events != [] {
      DoneExactlyAfterClose(requested, events[..|events| - 1]);
      assert events == events[..|events| - 1] + [events[|events| - 1]];
    }
  }

  /** msquic against msquic, for every size and every fragmentation in both directions: once the connection
      has ended, and whatever ended it after the response, the verdict the client reports is positive exactly
      when the size fits the server's 32-bit length. */
  lemma VerdictExactlyWhen32Bit(n: nat, up: seq<Event>, down: seq<ClientEvent>, tail: seq<ClientEvent>)
    requires n < 0x1_0000_0000_0000_0000
    requires (forall ev :: ev in up ==> !ev.PeerSendShutdown?) && Input(up) == ToBytes(n, HEADER_LEN)
    requires TotalReceived(down) == |Run(up + [PeerSendShutdown(true)]).out.data|
    requires PeerSendShutdownEvent !in tail
    ensures ClientRun(n, down + [PeerSendShutdownEvent] + tail).ok <==> n < 0x1_0000_0000
  {
    HeaderOf(n);
    OneShot(up, true);
    var out := Run(up + [PeerSendShutdown(true)]).out;
    assert |out.data| == if n > MAX_VECTOR then 0 else n % U32;
    Narrowing(n);
    VerdictStands(n, down, tail);
  }
}
