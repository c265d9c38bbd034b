# nesquic, verified

nesquic measures QUIC libraries with one small protocol: a client sends an 8-byte big-endian size and closes
its sending side; a server answers with exactly that many bytes and FIN. Every library is driven by its own
state machine. This project models those machines and proves what they promise for every request size, every
fragmentation, every flow-control schedule and every event order, and shows exactly where they do not keep it.

## Layout

| file | contents |
|---|---|
| `Protocol.dfy` | the protocol as one specification: `Served` (complete exchanges), `Serving` (every moment of one) |
| `Codec.dfy`, `BlobSize.dfy`, `Perf.dfy` | the header codec, the size parser, the response iterator |
| `QuicStream.dfy` | the abstract stream contract and the neqo connection |
| `NeqoServer.dfy`, `NeqoRuns.dfy`, `NeqoSharing.dfy` | the neqo server: methods, all runs of a connection, several connections |
| `NeqoClient.dfy`, `EndToEnd.dfy`, `Pump.dfy` | the neqo client, client and server joined by a network, the `drive_until` pump |
| `Quiche.dfy`, `QuicheRuns.dfy`, `QuicheClientRuns.dfy` | the quiche `Benchmark` in both roles |
| `Msquic.dfy` | the msquic callbacks, server and client |
| `OneSpecification.dfy` | the three servers give the same answer |
| `Order.dfy`, `Tags.dfy`, `Metrics.dfy`, `Bpf.dfy`, `Stats.dfy` | tag printing, event aggregation, iovec sums, measurements |

`dafny verify dfyconfig.toml` checks everything.

Code that works step by step is a class or a method with loops, tied by its `ensures` to a function of the
values it started from; the lemmas about runs are about those functions.

## The stream contract

QUIC itself is not modelled. What the code relies on is:

- A receiving side is an ordered byte string, handed out in pieces of any size (RFC 9000, section 2.2). Reading
  returns 0 bytes only when nothing is there; FIN is reported once; after that, or after a failure, every read is
  an error. The quiche connection hands out as much as fits the buffer.
- A sending side accepts at most the credit it has left and, once finished or failed, nothing more (RFC 9000,
  section 3.1). Credit grows when the peer grants it and, as streams share their connection's limit, may shrink at
  any step when others send (RFC 9000, section 4.1). Failure can strike at any step and is permanent. The quiche
  connection takes FIN with the last byte of an accepted chunk; msquic takes a send whole.
- Events: a stream is announced once, before anything else about it. It is announced readable when it goes from
  nothing to read to something to read, and writable when its credit goes from none to some. Any further readable
  or writable events may be raised at any time.
- The size of each piece, the order in which hash maps are iterated, credit, failures, the answers of the socket
  and of the clock are free: methods take them from `:|` or `*`, the pump from an arbitrary function of the
  question's position, runs from their action lists.

A 64-bit `usize` is taken, as docs/PROTOCOL.md does. Byte shifts and masks are written as multiplication, division
and remainder, wrap-around as `% U64` or `% U32`.

## Where a property fails

- `NeqoSharing.IsolatedExactlyWhenApart`: the neqo server keys one table by stream id alone, so live connections
  are isolated for all schedules if and only if no two of them use the same id for a request stream. A newcomer's
  stream resets the entry of an older one (`ClashBreaks`). Connections one after another are safe
  (`NeqoRuns.StaleHarmless`).
- `QuicheRuns.OnlyWholeIsSafe`: the quiche server parses after every read from a fresh buffer, so a way of cutting
  the request is right for all requests if and only if it is one piece. A FIN that comes later empties the
  response (`LateFinTruncates`).
- `QuicheClientRuns.HeaderNeedsCredit`: the quiche client ignores how much of the header was taken, so a request
  is ever out whole if and only if there was credit for 8 bytes when it was taken. `PartOfHeaderStays` is the run
  with less: the call succeeds, the request stays pending, and no continuation sends the rest.
- `Msquic.OneShot`, `Msquic.VerdictExactlyWhen32Bit`: the answer is the requested size modulo 2^32, right if and
  only if the size is below 2^32. From 2^63 on the response vector throws before anything is sent.
- `NeqoClient.PollFailsExactlyWhen`: a second readable event after FIN was read fails the client's run, and
  `EndToEnd.RepeatedEventErrs` reaches that for every request. The stream contract above leaves a transport free to
  repeat the event; nothing here shows that neqo does.
- `BlobSize.ParsePrinted`: the size is the bits over 8 if and only if the bits fit 64 bits.
- `Tags.RoundTrip`, `Tags.MapRoundTrip`: a backslash is not escaped, so tags survive printing if and only if none
  ends in one before a separator.
- `Bpf.SubmitEventUserMsghdr`: the sum is added once per iovec; as long as the surplus stays below 2^32, the event
  is right if and only if there is one iovec or no byte.
- `Stats.PairingExactlyWhen`: durations pair with their own byte counts if and only if no measurement was started
  over before a successful stop.

docs/PROTOCOL.md has the server read the request to end-of-stream before it answers; the neqo server answers as
soon as 8 bytes have arrived (iut/neqo/src/server.rs:240), and the model follows the code.

## Model

| member | source | states |
|---|---|---|
| `Codec.RequestToBytes` | iut/msquic/src/protocol.h:51-55 | the shift-and-mask loop writes the big-endian digits, and they decode to the size |
| `Codec.RequestFromBytes` | iut/msquic/src/protocol.h:58-64 | the shift-and-or loop yields the positional value, and re-encoding gives the header back |
| `Codec.DecodeEncode` | utils/src/perf.rs:11-13 | decoding an encoded number gives it back, for every number that fits |
| `Codec.EncodeDecode` | utils/src/perf.rs:39-45 | encoding a decoded header gives its bytes back, for every header |
| `Codec.BigEndianInjective` | utils/src/perf.rs:39-45 | headers of equal length and value are equal |
| `Codec.HeaderBytes` | iut/msquic/src/protocol.h:51-64 | the eight bytes written out: the first weighs most, in both directions |
| `Protocol.RequestedStable` | utils/src/perf.rs:47-53 | only the leading 8 bytes decide the size |
| `Perf.Blob.Next` | utils/src/perf.rs:58-65 | one zero byte per call until the size is reached, then nothing |
| `Perf.Blob.Collect` | iut/quiche/src/lib.rs:77 | collecting the iterator gives exactly the zero bytes not yet taken |
| `NeqoServer.TrySendResponse` | iut/neqo/src/server.rs:273-317 | sending in 32 KiB chunks is one attempt with all the credit: min(r, credit) zero bytes, FIN exactly with the last; a side that refuses ends the response; no other stream is touched |
| `NeqoServer.ServeAbsorbs` | iut/neqo/src/server.rs:239-261 | serving after each piece is serving once with all of them; the parse after completion sends nothing |
| `NeqoServer.ParseAndSend` | iut/neqo/src/server.rs:239-261 | parse once 8 bytes are there and nothing is pending, then attempt |
| `NeqoServer.ReadOnce` | iut/neqo/src/server.rs:225-265 | one turn of the read loop: what it appends, serves, and when it stops |
| `NeqoServer.ReadStream` | iut/neqo/src/server.rs:221-267 | however the input is cut, the loop appends all of it and serves once |
| `NeqoServer.Server.ReadRequest` | iut/neqo/src/server.rs:206-267 | the filter on ids, the missing entry and the read, on all streams and the whole table |
| `NeqoServer.HandleIsLocal` | iut/neqo/src/server.rs:170-200 | an event changes its own stream and entry, and no other |
| `NeqoServer.Server.HandleEvent` | iut/neqo/src/server.rs:170-200 | the dispatch equals the function `Handle` on all streams and the whole table |
| `NeqoServer.Server.ProcessEvents` | iut/neqo/src/server.rs:159-166 | the queue is emptied, oldest event first |
| `NeqoServer.Server.ProcessAllEvents` | iut/neqo/src/server.rs:154-167 | each active connection is drained in turn, the table passing from one to the next |
| `NeqoRuns.LedgerIsKept` | iut/neqo/src/server.rs:225-237 | over every run a stream holds exactly the bytes delivered; sent plus credit left is at most what was granted and at least that less what was withdrawn, counted from the steps alone |
| `NeqoRuns.RunKeeps` | iut/neqo/src/server.rs:221-317 | the invariant holds in every run: entries match what was read and sent, and no wake-up is lost |
| `NeqoRuns.RunSafe` | iut/neqo/src/server.rs:206-317 | at every moment of every run a stream has sent a prefix of the response asked for, and with FIN all of it |
| `NeqoRuns.OthersStaySilent` | iut/neqo/src/server.rs:206-214 | over every run, a stream whose id is not a multiple of 4 is never read and nothing is ever sent on it |
| `NeqoRuns.AcceptedPlusRemaining` | iut/neqo/src/server.rs:273-317 | over every run: while sending, accepted plus remaining is N and the stream is open; once nothing remains it is closed or failed |
| `NeqoRuns.OutputGrows` | iut/neqo/src/server.rs:279-316 | what was sent stays sent, and after FIN nothing is ever added |
| `NeqoRuns.QuietIsSettled` | iut/neqo/src/server.rs:279-316 | maximal progress: with no event waiting, sent is min(N, credit granted), with FIN if and only if credit reaches N |
| `NeqoRuns.ProcessEventsSettles` | iut/neqo/src/server.rs:154-167 | after any run, draining the events leaves every live stream whose id is a multiple of 4 settled |
| `NeqoRuns.StaleHarmless` | iut/neqo/src/server.rs:202-210 | whatever the table held before, every run has the same streams and events |
| `NeqoSharing.IsolatedExactlyWhenApart` | iut/neqo/src/server.rs:79-84 | live connections are isolated in all schedules if and only if no two share a stream id that is a multiple of 4 |
| `NeqoSharing.ClashBreaks` | iut/neqo/src/server.rs:176-179 | the schedule in which a newcomer's stream silences an older connection |
| `NeqoClient.SendRequest` | iut/neqo/src/client.rs:133-141 | succeeds if and only if the whole header is taken; then exactly header and FIN were sent; otherwise the part that was taken stays, without FIN |
| `NeqoClient.Transfer.ReadAvailable` | iut/neqo/src/client.rs:154-166 | counts everything available and notices FIN, or fails on a side that cannot be read |
| `NeqoClient.Transfer.Poll` | iut/neqo/src/client.rs:150-177 | handles every event in order; which failure, progress and events it leaves |
| `NeqoClient.Transfer.Turn` | iut/neqo/src/client.rs:150-186 | one poll and its verdict: an error exactly in the cases named; once FIN was read, success if and only if exactly the requested bytes were received |
| `NeqoClient.PollReads` | iut/neqo/src/client.rs:150-177 | a poll counts each byte once, and FIN exactly when it is read |
| `NeqoClient.PollFailsExactlyWhen` | iut/neqo/src/client.rs:153-166 | a poll fails if and only if a close with an error is waiting, or a readable event finds a side that cannot be read |
| `EndToEnd.ReceivedAcceptedRequested` | iut/neqo/src/client.rs:145-186 | over every run of client, network and server: received <= accepted <= N, and the length check passes whenever FIN was seen |
| `EndToEnd.QuietHasSucceeded` | iut/neqo/src/client.rs:145-191 | when nothing is under way, nothing failed and credit covers N, the client has succeeded |
| `EndToEnd.OrderlyNeverErrs` | iut/neqo/src/client.rs:150-178 | without a failure or a repeated readable event the client never gives up |
| `EndToEnd.NoDeadEnd` | iut/neqo/src/client.rs:117-192 | from every orderly moment some continuation completes the exchange |
| `EndToEnd.EveryRequestCanComplete` | iut/neqo/src/client.rs:117-192 | every unfailed run of every request can be continued to success |
| `EndToEnd.RepeatedEventErrs` | iut/neqo/src/client.rs:153-166 | for every request, a run whose only disorder is one repeated readable event errs although all bytes and FIN were received |
| `Pump.SendBatch` | iut/neqo/src/client.rs:225-236 | a batch is retried until taken; otherwise it is still the one batch on its way |
| `Pump.DrainOutput` | iut/neqo/src/client.rs:222-246 | output is drained in order, and the timer is the engine's last callback |
| `Pump.ReceiveAll` | iut/neqo/src/client.rs:258-263 | everything received is fed to the engine, once and in order |
| `Pump.DriveUntil` | iut/neqo/src/client.rs:203-275 | whatever the environment answers: no batch is lost, repeated or reordered; it waits only when drained, without events and not done; it finishes exactly when told, fails exactly on a fatal answer, and otherwise goes on |
| `Pump.ProperMeans` | iut/neqo/src/client.rs:214-275 | what an orderly log is: every act is followed as the loop says (a readable socket by receiving, each datagram by feeding it, a timer by the completion check), each wait and each send is justified |
| `Quiche.ClientOnce` | iut/quiche/src/lib.rs:72-84 | reading a response in pieces comes to the same as reading it whole |
| `Quiche.Benchmark.ServerReadLoop` | iut/quiche/src/lib.rs:72-77 | every piece is parsed where it landed in the shared buffer; the last parse stands |
| `Quiche.Benchmark.ClientReadLoop` | iut/quiche/src/lib.rs:72-84 | FIN completes the stream's request; FIN without one is an error |
| `Quiche.Benchmark.ProcessReads` | iut/quiche/src/lib.rs:68-89 | all readable streams in some order, in either role; when it succeeds, no live stream has anything left to read |
| `Quiche.Benchmark.WriteResponse` | iut/quiche/src/lib.rs:103-108 | one attempt, FIN included, and whether the response is complete |
| `Quiche.Benchmark.WriteResponses` | iut/quiche/src/lib.rs:98-113 | one attempt per pending response, in any order, the completed ones leaving the table |
| `Quiche.Benchmark.ProcessWrites` | iut/quiche/src/lib.rs:91-116 | the next request is sent, then the responses; what an error leaves behind |
| `QuicheRuns.WholeReads` | iut/quiche/src/lib.rs:69-77 | a stream whose request is whole is parsed right, whatever the other streams hold, the order and the shared buffer |
| `QuicheRuns.QuicheSafe` | iut/quiche/src/lib.rs:68-116 | a stream whose request arrives whole, in every run, however the others arrive: a prefix of the response, accepted plus remainder is N, the entry leaves exactly with FIN |
| `QuicheRuns.QuicheSettles` | iut/quiche/src/lib.rs:98-113 | after a write such a stream has sent min(N, credit granted), with FIN if and only if credit reaches N |
| `QuicheRuns.ReadAndWriteAnswer` | iut/quiche/src/lib.rs:68-116 | once a whole request has arrived on a live stream, one read and one write send min(N, credit granted), with FIN if and only if credit reaches N |
| `QuicheRuns.OnlyWholeIsSafe` | iut/quiche/src/lib.rs:69-77 | a way of cutting the request sizes every response right if and only if it is one piece |
| `QuicheRuns.LateFinTruncates` | iut/quiche/src/lib.rs:72-77 | a FIN read after the header makes the next write send FIN and no byte |
| `QuicheClientRuns.CompletionsAreRight` | iut/quiche/src/lib.rs:78-96 | each completion is signalled at most once, exactly after FIN on its own stream; the pending table is exactly the rest |
| `QuicheClientRuns.ReadsComplete` | iut/quiche/src/lib.rs:68-89 | after the reads of any run: an error if and only if FIN came on a stream of no taken request; otherwise nothing is left to read and every request whose response is complete has been signalled |
| `QuicheClientRuns.HeaderOrPart` | iut/quiche/src/lib.rs:91-96 | over every run: a request in the channel has nothing on its stream; a taken one a prefix of its header, with FIN if and only if that is all of it |
| `QuicheClientRuns.TakenIsFinal` | iut/quiche/src/lib.rs:91-96 | no continuation adds to what a taken request has on its stream |
| `QuicheClientRuns.HeaderNeedsCredit` | iut/quiche/src/lib.rs:92-96 | from every run, after every continuation: the header is out with FIN if and only if there was credit for 8 bytes when the request was taken |
| `QuicheClientRuns.RefusedRequestEnds` | iut/quiche/src/lib.rs:92-96 | taking a request fails exactly if its stream is not open or takes no byte; it is pending either way, and after a failure nothing is ever signalled |
| `QuicheClientRuns.PartOfHeaderStays` | iut/quiche/src/lib.rs:92-96 | the run with credit for k of the 8 bytes, 0 < k < 8: the call succeeds, k bytes are sent, and never more |
| `Msquic.StreamState.Collect` | iut/msquic/src/server.cpp:25-36 | the copy loop keeps the leading 8 bytes of what was there and the buffers |
| `Msquic.ConcatIs` | iut/msquic/src/server.cpp:25-36 | the buffers of a list count in order, each once |
| `Msquic.StreamState.StreamCallback` | iut/msquic/src/server.cpp:22-63 | each event's effect on header, output, abort and the exception for a size no vector can have |
| `Msquic.HeaderIsLeading` | iut/msquic/src/server.cpp:25-36 | after any events with any buffer lists, and until an exception, the header is the leading bytes of the input |
| `Msquic.OneShot` | iut/msquic/src/server.cpp:37-54 | short input is aborted; a size no vector can have throws; a refused send is aborted; otherwise the answer has N modulo 2^32 bytes and FIN; right if and only if accepted and N < 2^32 |
| `Msquic.ClientState.Callback` | iut/msquic/src/client.cpp:34-60 | each event's effect on the 64-bit counter and the verdict |
| `Msquic.ReceivedIsTotal` | iut/msquic/src/client.cpp:37-39 | the counter is the total received, modulo 2^64 |
| `Msquic.VerdictStands` | iut/msquic/src/client.cpp:40-49 | the verdict is the comparison at the latest end of the peer's side, whatever comes after; without one there is none |
| `Msquic.DoneExactlyAfterClose` | iut/msquic/src/client.cpp:97-99 | the waiting client is released exactly by the end of the connection |
| `Msquic.VerdictExactlyWhen32Bit` | iut/msquic/src/client.cpp:40-49 | client against server, any fragmentation, and whatever follows the response until the client reads it: the verdict is positive if and only if N < 2^32 |
| `OneSpecification.NeqoServes` | iut/neqo/src/server.rs:273-317 | the header of N is answered with N zero bytes and FIN |
| `OneSpecification.QuicheServes` | iut/quiche/src/lib.rs:68-116 | the same answer, on every stream whose own request arrives whole |
| `OneSpecification.MsquicServes` | iut/msquic/src/server.cpp:22-63 | the same answer, for N < 2^32 |
| `BlobSize.ParseNumber` | iut/msquic/src/protocol.h:38-45 | the number modulo 2^64, or nothing if a character is not a digit |
| `BlobSize.BlobBytesFromString` | iut/msquic/src/protocol.h:13-48 | present exactly for digits followed by bit, Kbit, Mbit or Gbit, and then (number x unit mod 2^64) / 8: a printed n that fits is n / 8, n x 125, n x 125,000 or n x 125,000,000 bytes |
| `BlobSize.ParsePrinted` | iut/msquic/src/protocol.h:38-47 | a printed number is read as bits / 8 if and only if the bits fit 64 bits |
| `Tags.EscapeIsSinglePass` | nesquic/src/metrics/mod.rs:180-184 | the three successive replacements are one single-pass escape |
| `Tags.EscapeIs` | nesquic/src/metrics/mod.rs:180-184 | a comma, an equals sign or a space gets a backslash in front, every other character stays, character by character |
| `Tags.EscapeInjective` | nesquic/src/metrics/mod.rs:180-184 | different texts are escaped differently |
| `Tags.PartRoundTrip` | nesquic/src/metrics/mod.rs:189 | one tag is read back if and only if its key does not end in a backslash |
| `Tags.RoundTrip` | nesquic/src/metrics/mod.rs:186-196 | a tag string is read back if and only if no key, and no value before another tag, ends in a backslash |
| `Tags.PrintedHasNoBareSpace` | nesquic/src/metrics/mod.rs:180-196 | in printed tags every space follows a backslash, so none ends the tags of a line |
| `Tags.PrintedIs` | nesquic/src/metrics/mod.rs:189-196 | each tag is printed as a comma, its key, an equals sign and its value |
| `Tags.MapRoundTrip` | nesquic/src/metrics/mod.rs:179-199 | with the syscall tag: exactly the tags with a value come back, if and only if none ends in a backslash |
| `Tags.KnownSyscallRoundTrip` | nesquic/src/metrics/mod.rs:22-26 | with a syscall of the list, only the tags themselves can spoil the reading back |
| `Tags.BuildTagStr` | nesquic/src/metrics/mod.rs:179-197 | the string is the same for every iteration order of the map; empty exactly when no tag has a value |
| `Order.SortedUnique` | nesquic/src/metrics/mod.rs:191 | a sorted arrangement is unique under lexicographic order |
| `Order.LeqAtFirstDifference` | nesquic/src/metrics/mod.rs:191 | the order is decided at the first difference, by the smaller character or by ending first |
| `Order.AnySortArranges` | nesquic/src/metrics/mod.rs:186-191 | any order in and any sort give the same parts |
| `Metrics.Collector.Process` | nesquic/src/metrics/mod.rs:43-61 | one volume is appended under its syscall; what does not decode is refused |
| `Metrics.Collector.Fold` | nesquic/src/metrics/mod.rs:81-83 | the checked sum is right and below 2^64 |
| `Metrics.Collector.CollectLineProtocol` | nesquic/src/metrics/mod.rs:66-98 | every syscall drained into one line with its count and sum, in any order |
| `Metrics.Conserved` | nesquic/src/metrics/mod.rs:43-98 | over every run, also one that panics on an unknown syscall code, reported plus held is what was taken, in number and in bytes |
| `Metrics.CountedUnderOwnName` | nesquic/src/metrics/metrics.bpf.c:11-23 | at any point of any run, what the probe of a system call counted is booked under the name of that call and no other |
| `Bpf.CountIovecLen` | nesquic/src/metrics/metrics.bpf.c:65-78 | the sum modulo 2^32, or 0 if an iovec cannot be read |
| `Bpf.TotalIs` | nesquic/src/metrics/metrics.bpf.c:65-78 | the sum of a list counts each length once |
| `Bpf.TotalAllIs` | nesquic/src/metrics/metrics.bpf.c:100-113 | the sum over messages counts each readable message once |
| `Bpf.SubmitEventUserMsghdr` | nesquic/src/metrics/metrics.bpf.c:85-98 | count times sum modulo 2^32, and exactly when that is the sum; with a surplus below 2^32: for one iovec or no bytes only |
| `Bpf.OneIsRightTwoIsNot` | nesquic/src/metrics/metrics.bpf.c:93-95 | right for at most one iovec; two of one byte count as four |
| `Bpf.SubmitEventMsghdr` | nesquic/src/metrics/metrics.bpf.c:100-113 | the double sum modulo 2^32, unreadable iovecs counting 0, an unreadable header submitting nothing |
| `Stats.Stats.AddBytes` | utils/src/perf.rs:104-110 | adds to the latest count, or fails before the first start |
| `Stats.Stats.StopMeasurement` | utils/src/perf.rs:115-128 | fails exactly when not measuring; the latest count is always there |
| `Stats.RunCounts` | utils/src/perf.rs:98-128 | over every run: counts are durations plus the open one plus restarts, and they add up to the bytes accepted |
| `Stats.AddsGoToLatest` | utils/src/perf.rs:98-110 | in every run the bytes added after a start and before the next make up the count of that start; older counts stay |
| `Stats.OneMeasurement` | utils/src/perf.rs:98-128 | at any point of any run: a start, additions and a stop append the time between and the bytes in between; a second stop changes nothing |
| `Stats.NothingBeforeStart` | utils/src/perf.rs:104-128 | without a start nothing is ever recorded |
| `Stats.PairingExactlyWhen` | utils/src/perf.rs:134-140 | duration i belongs to byte count i if and only if no measurement was started over before a successful stop |

## Left out

- QUIC transport, TLS, certificates, ALPN and session tickets: foreign libraries behind the stream contract above.
- iut/quinn and iut/noq: thin wrappers over the same codec and blob.
- `listen` in iut/neqo/src/server.rs and connection set-up in all clients: socket and timer plumbing around the calls modelled here.
- `drive_until` is modelled apart from the client's closure: in the end-to-end model the poll is one step of a run.
- msquic's connection callbacks on failed API calls, and handle lifetimes: they depend on library rules outside this repository.
- `parse_url` in iut/msquic/src/client.cpp: its result reaches only connection set-up, which is not modelled.
- Memory exhaustion when a response buffer of the requested size is allocated (msquic, quiche).
- Floating-point throughput, means and adjusted units: integer counts and sums only.
- The InfluxDB push, attaching the probes and ring-buffer delivery: accounting starts at the decoded event.
- Iovec counts of 2^32 and above, and the loop bound of the eBPF helper: an iovec list is as long as its count.
- The other probes (write, read, sendto, recvfrom) pass their length argument on, cut to 32 bits; only their codes are modelled.
- `byte_unit`'s parser behind `Request::try_from`, and the upper limit of its checked addition: not part of this model.
- Stats.Stats.AddBytes: the sum has no bound here, while the source adds in `usize`; no run counts 2^64 bytes.
- Stats.RunCounts: counts are unbounded for the same reason.
- Quiche.Benchmark.ClientReadLoop: a completion is always delivered; the panic when its receiver was dropped is not modelled.
- Msquic.OneShot: what the process does after the exception for an oversized response is not modelled.
- Metrics.Conserved: an unknown syscall code ends the run; what the process does after that panic is not modelled.
