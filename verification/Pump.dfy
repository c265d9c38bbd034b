/** `drive_until`: the loop that drives the synchronous neqo engine against a socket. The engine, the
    socket, the clock and the caller answer as they like; a run is cut after any number of answers, so what
    holds when the loop stops holds at every moment of every run. */
module Pump {
  import opened Wrappers

  datatype OutputBatch = DatagramBatch(batch: nat) | Callback(duration: nat) | Nothing
  datatype SendResult = Sent | WouldBlock | SendFailed
  datatype Wake = SocketReadable | SocketError | Timer
  datatype Received = Datagrams(dgrams: nat) | NoneReady | RecvError

  /** What was asked of the environment, with its answer. */
  datatype Act =
    | AskDone(failed: bool, done: bool)
    | Produce(out: OutputBatch)
    | Send(batch: nat, result: SendResult)
    | AwaitWritable(ok: bool)
    | HasEvents(some: bool)
    | Select(timeout: Option<nat>, wake: Wake)
    | Recv(got: Received)
    | Feed(input: nat)

  /** The batches the engine produced, in order. */
  function Produced(log: seq<Act>): seq<nat>
    decreases |log|
  {
    if log == [] then []
    else
      var last := log[|log| - 1];
      Produced(log[..|log| - 1]) + if last.Produce? && last.out.DatagramBatch? then [last.out.batch] else []
  }

  /** The batches the socket took, in order. */
  function Delivered(log: seq<Act>): seq<nat>
    decreases |log|
  {
    if log == [] then []
    else
      var last := log[|log| - 1];
      Delivered(log[..|log| - 1]) + if last.Send? && last.result.Sent? then [last.batch] else []
  }

  /** The datagrams the socket handed over, and those the engine was fed. */
  function Incoming(log: seq<Act>): seq<nat>
    decreases |log|
  {
    if log == [] then []
    else
      var last := log[|log| - 1];
      Incoming(log[..|log| - 1]) + if last.Recv? && last.got.Datagrams? then [last.got.dgrams] else []
  }

  function Fed(log: seq<Act>): seq<nat>
    decreases |log|
  {
    if log == [] then []
    else
      var last := log[|log| - 1];
      Fed(log[..|log| - 1]) + if last.Feed? then [last.input] else []
  }

  function TimerOf(out: OutputBatch): Option<nat> {
    if out.Callback? then Some(out.duration) else None
  }

  /** The latest answer of the completion check. */
  function Answered(log: seq<Act>): Option<(bool, bool)>
    decreases |log|
  {
    if log == [] then None
    else
      var last := log[|log| - 1];
      if last.AskDone? then Some((last.failed, last.done)) else Answered(log[..|log| - 1])
  }

  /** Waiting is right: all output is drained and sent, the timer is the one the engine last gave, no
      event is pending, everything received was fed, and the caller is not done. */
  predicate WaitOk(log: seq<Act>, timeout: Option<nat>) {
    && |log| >= 2
    && log[|log| - 1] == HasEvents(false)
    && log[|log| - 2].Produce? && !log[|log| - 2].out.DatagramBatch?
    && timeout == TimerOf(log[|log| - 2].out)
    && Produced(log) == Delivered(log)
    && Incoming(log) == Fed(log)
    && Answered(log) == Some((false, false))
  }

  predicate WaitsOk(log: seq<Act>) {
    forall i :: 0 <= i < |log| && log[i].Select? ==> WaitOk(log[..i], log[i].timeout)
  }

  /** A send always tries the oldest batch not yet delivered. */
  predicate SendsOk(log: seq<Act>) {
    forall i :: 0 <= i < |log| && log[i].Send? ==> Produced(log[..i]) == Delivered(log[..i]) + [log[i].batch]
  }

  /** What may come right after an act, whatever else has happened: the loop, one arrow at a time. */
  predicate Follows(a: Act, b: Act) {
    match a
    case AskDone(failed, done) => !failed && !done && b.Produce?
    case Produce(DatagramBatch(batch)) => b.Send? && b.batch == batch
    case Produce(_) => b.HasEvents?
    case Send(_, Sent) => b.Produce?
    case Send(_, WouldBlock) => b.AwaitWritable?
    case Send(_, SendFailed) => false
    case AwaitWritable(ok) => ok && b.Send?
    case HasEvents(some) => if some then b.AskDone? else b.Select?
    case Select(_, SocketReadable) => b.Recv?
    case Select(_, Timer) => b.AskDone?
    case Select(_, SocketError) => false
    case Recv(Datagrams(dgrams)) => b == Feed(dgrams)
    case Recv(NoneReady) => b.AskDone?
    case Recv(RecvError) => false
    case Feed(_) => b.Recv?
  }

  /** What may come next: the completion check first of all. */
  predicate MayCome(log: seq<Act>, a: Act) {
    if log == [] then a.AskDone? else Follows(log[|log| - 1], a)
  }

  predicate StepsOk(log: seq<Act>) {
    && (log != [] ==> log[0].AskDone?)
    && forall i :: 0 < i < |log| ==> Follows(log[i - 1], log[i])
  }

  /** The answers that end the loop with an error. */
  predicate Fatal(a: Act) {
    || (a.AskDone? && a.failed)
    || (a.Send? && a.result == SendFailed)
    || a == AwaitWritable(false)
    || (a.Select? && a.wake == SocketError)
    || a == Recv(RecvError)
  }

  /** The last answer was fatal. */
  predicate Fell(log: seq<Act>) {
    log != [] && Fatal(log[|log| - 1])
  }

  lemma StepsAppend(log: seq<Act>, a: Act)
    ensures StepsOk(log + [a]) <==> StepsOk(log) && MayCome(log, a)
  {
    var log' := log + [a];
    assert forall i :: 0 <= i < |log| ==> log'[i] == log[i];
    assert log'[|log|] == a;
  }

  /** What one more act adds to each count. */
  lemma Counts(log: seq<Act>, a: Act)
    ensures var log' := log + [a];
            && Produced(log') == Produced(log) + (if a.Produce? && a.out.DatagramBatch? then [a.out.batch] else [])
            && Delivered(log') == Delivered(log) + (if a.Send? && a.result.Sent? then [a.batch] else [])
            && Incoming(log') == Incoming(log) + (if a.Recv? && a.got.Datagrams? then [a.got.dgrams] else [])
            && Fed(log') == Fed(log) + (if a.Feed? then [a.input] else [])
            && Answered(log') == (if a.AskDone? then Some((a.failed, a.done)) else Answered(log))
  {
  }

  lemma WaitsAppend(log: seq<Act>, a: Act)
    ensures WaitsOk(log + [a]) <==> WaitsOk(log) && (a.Select? ==> WaitOk(log, a.timeout))
  {
    var log' := log + [a];
    assert forall i :: 0 <= i <= |log| ==> log'[..i] == log[..i];
    assert forall i :: 0 <= i < |log| ==> log'[i] == log[i];
    assert log'[|log|] == a && log[..|log|] == log;
  }

  lemma SendsAppend(log: seq<Act>, a: Act)
    ensures SendsOk(log + [a]) <==> SendsOk(log) && (a.Send? ==> Produced(log) == Delivered(log) + [a.batch])
  {
    var log' := log + [a];
    assert forall i :: 0 <= i <= |log| ==> log'[..i] == log[..i];
    assert forall i :: 0 <= i < |log| ==> log'[i] == log[i];
    assert log'[|log|] == a && log[..|log|] == log;
  }

  /** Every act came when it might: in sequence, and when it waits or sends, rightly so. */
  predicate Proper(log: seq<Act>)
    decreases |log|
  {
    log == [] ||
    var init, last := log[..|log| - 1], log[|log| - 1];
    && Proper(init) && MayCome(init, last)
    && (last.Select? ==> WaitOk(init, last.timeout))
    && (last.Send? ==> Produced(init) == Delivered(init) + [last.batch])
  }

  lemma {:induction false} ProperMeans(log: seq<Act>)
    ensures Proper(log) <==> WaitsOk(log) && SendsOk(log) && StepsOk(log)
    decreases |log|
  {
    if log != [] {
      var init, last := log[..|log| - 1], log[|log| - 1];
      assert log == init + [last];
      ProperMeans(init);
      WaitsAppend(init, last);
      SendsAppend(init, last);
      StepsAppend(init, last);
    }
  }

  /** What one more act does to all of it. */
  lemma Append(log: seq<Act>, a: Act)
    ensures var log' := log + [a];
            && Produced(log') == Produced(log) + (if a.Produce? && a.out.DatagramBatch? then [a.out.batch] else [])
            && Delivered(log') == Delivered(log) + (if a.Send? && a.result.Sent? then [a.batch] else [])
            && Incoming(log') == Incoming(log) + (if a.Recv? && a.got.Datagrams? then [a.got.dgrams] else [])
            && Fed(log') == Fed(log) + (if a.Feed? then [a.input] else [])
            && Answered(log') == (if a.AskDone? then Some((a.failed, a.done)) else Answered(log))
            && (Proper(log') <==>
                  && Proper(log) && MayCome(log, a)
                  && (a.Select? ==> WaitOk(log, a.timeout))
                  && (a.Send? ==> Produced(log) == Delivered(log) + [a.batch]))
            && (Fell(log') <==> Fatal(a))
  {
    Counts(log, a);
    assert (log + [a])[..|log|] == log;
  }

  /** What the engine, the socket, the clock and the caller answer when asked as the i-th thing of a run. */
  datatype Answers = Answers(done: nat -> (bool, bool), output: nat -> OutputBatch, send: nat -> SendResult,
                             writable: nat -> bool, events: nat -> bool, wake: nat -> Wake, recv: nat -> Received)

  predicate Fits(a: Act, i: nat, answers: Answers) {
    match a
    case AskDone(failed, done) => answers.done(i) == (failed, done)
    case Produce(out) => answers.output(i) == out
    case Send(_, result) => answers.send(i) == result
    case AwaitWritable(ok) => answers.writable(i) == ok
    case HasEvents(some) => answers.events(i) == some
    case Select(_, wake) => answers.wake(i) == wake
    case Recv(got) => answers.recv(i) == got
    case Feed(_) => true
  }

  /** Every act of the log was answered by the environment. */
  predicate Genuine(log: seq<Act>, answers: Answers)
    decreases |log|
  {
    log == [] || (Genuine(log[..|log| - 1], answers) && Fits(log[|log| - 1], |log| - 1, answers))
  }

  /** The engine, the socket, the clock and the caller, with answers of their own; what they are asked is
      recorded. `total` answers and no more. */
  class Environment {
    const answers: Answers
    const total: nat
    var now: nat
    ghost var log: seq<Act>

    constructor (answers: Answers, total: nat)
      ensures this.answers == answers && this.total == total && log == [] && Valid()
    {
      this.answers, this.total, now := answers, total, 0;
      log := [];
    }

    ghost predicate Valid()
      reads this
    {
      now == |log| <= total && Genuine(log, answers)
    }

    /** Answers left. */
    ghost function Left(): nat
      reads this
      requires Valid()
    {
      total - now
    }

    /** One act with its answer; nothing once the answers are used up. */
    method Answer(a: Act) returns (cut: bool)
      requires Valid() && Fits(a, now, answers)
      modifies this
      ensures Valid()
      ensures cut <==> old(Left()) == 0
      ensures cut ==> log == old(log)
      ensures !cut ==> log == old(log) + [a] && Left() == old(Left()) - 1
    {
      cut := now == total;
      if !cut {
        now := now + 1;
        ghost var before := log;
        log := log + [a];
        assert log[..|log| - 1] == before;
      }
    }
  }

  /** Nothing is half done: every batch produced was delivered, everything received was fed. */
  predicate Balanced(log: seq<Act>) {
    && Proper(log)
    && Produced(log) == Delivered(log)
    && Incoming(log) == Fed(log)
  }

  predicate OneAhead(a: seq<nat>, b: seq<nat>) {
    b <= a && |a| == |b| + 1
  }

  /** At most one thing is half done: one batch not yet taken, or one input not yet fed. */
  predicate Orderly(log: seq<Act>) {
    && Proper(log)
    && (|| Balanced(log)
        || (Incoming(log) == Fed(log) && OneAhead(Produced(log), Delivered(log)))
        || (Produced(log) == Delivered(log) && OneAhead(Incoming(log), Fed(log))))
  }

  datatype Outcome = Finished | Failed | Cut

  /** Why the loop stopped in the middle: a fatal answer, or no answer left. */
  predicate Stopped(stop: Outcome, log: seq<Act>, left: nat) {
    && (stop == Failed <==> Fell(log))
    && (stop == Cut ==> left == 0)
    && stop != Finished
  }

  /** One batch is on its way, nothing else. */
  predicate Underway(log: seq<Act>, batch: nat) {
    && Proper(log)
    && Produced(log) == Delivered(log) + [batch]
    && Incoming(log) == Fed(log)
  }

  lemma UnderwayIsOrderly(log: seq<Act>, batch: nat)
    requires Underway(log, batch)
    ensures Orderly(log)
  {
  }

  /** A batch is on its way and its next attempt is due. */
  predicate Sending(log: seq<Act>, batch: nat) {
    Underway(log, batch) && MayCome(log, Send(batch, Sent))
  }

  /** An attempt delivers the batch or leaves it on its way. */
  lemma MaySend(log: seq<Act>, batch: nat, result: SendResult)
    requires Sending(log, batch)
    ensures var log' := log + [Send(batch, result)];
            && Answered(log') == Answered(log) && (Fell(log') <==> result == SendFailed)
            && (if result == Sent then Balanced(log') && MayCome(log', Produce(Nothing)) else Underway(log', batch))
            && (result == WouldBlock ==> MayCome(log', AwaitWritable(true)))
  {
    Append(log, Send(batch, result));
  }

  /** Waits until the socket can take more. */
  method Unblock(env: Environment, batch: nat) returns (stop: Option<Outcome>)
    requires env.Valid() && Underway(env.log, batch) && MayCome(env.log, AwaitWritable(true))
    modifies env
    ensures env.Valid() && env.Left() <= old(env.Left())
    ensures Answered(env.log) == old(Answered(env.log))
    ensures stop.None? ==> Sending(env.log, batch) && env.Left() < old(env.Left())
    ensures stop.Some? ==> Underway(env.log, batch) && Stopped(stop.value, env.log, env.Left())
  {
    var ok := env.answers.writable(env.now);
    Append(env.log, AwaitWritable(ok));
    var cut := env.Answer(AwaitWritable(ok));
    if cut {
      return Some(Cut);
    }
    stop := if ok then None else Some(Failed);
  }

  /** Sends one batch, waiting for the socket as often as it blocks. `None` when the batch was taken. */
  method SendBatch(env: Environment, batch: nat) returns (stop: Option<Outcome>)
    requires env.Valid() && Sending(env.log, batch)
    modifies env
    ensures env.Valid() && env.Left() <= old(env.Left())
    ensures Answered(env.log) == old(Answered(env.log))
    ensures stop.None? ==> Balanced(env.log) && MayCome(env.log, Produce(Nothing))
    ensures stop.Some? ==> Underway(env.log, batch) && Stopped(stop.value, env.log, env.Left())
  {
    while true
      invariant env.Valid() && Sending(env.log, batch)
      invariant env.Left() <= old(env.Left()) && Answered(env.log) == old(Answered(env.log))
      decreases env.total - env.now
    {
      var result := env.answers.send(env.now);
      MaySend(env.log, batch, result);
      var cut := env.Answer(Send(batch, result));
      if cut {
        return Some(Cut);
      }
      if result == Sent {
        return None;
      } else if result == SendFailed {
        return Some(Failed);
      }
      stop := Unblock(env, batch);
      if stop.Some? {
        return;
      }
    }
  }

  /** Output is drained and the caller is not done, with the engine's last callback. */
  predicate Drained(log: seq<Act>, timeout: Option<nat>) {
    && Balanced(log) && Answered(log) == Some((false, false))
    && log != [] && var last := log[|log| - 1];
       last.Produce? && !last.out.DatagramBatch? && timeout == TimerOf(last.out)
  }

  /** Drains the engine's output; `timeout` is its last callback. */
  method DrainOutput(env: Environment) returns (stop: Option<Outcome>, timeout: Option<nat>)
    requires env.Valid() && Balanced(env.log)
    requires MayCome(env.log, Produce(Nothing)) && Answered(env.log) == Some((false, false))
    modifies env
    ensures env.Valid() && env.Left() <= old(env.Left())
    ensures Answered(env.log) == old(Answered(env.log))
    ensures stop.Some? ==> Orderly(env.log) && Stopped(stop.value, env.log, env.Left())
    ensures stop.None? ==> Drained(env.log, timeout)
  {
    timeout := None;
    while true
      invariant env.Valid() && Balanced(env.log) && MayCome(env.log, Produce(Nothing))
      invariant env.Left() <= old(env.Left()) && Answered(env.log) == old(Answered(env.log))
      decreases env.total - env.now
    {
      var out := env.answers.output(env.now);
      Append(env.log, Produce(out));
      var cut := env.Answer(Produce(out));
      if cut {
        return Some(Cut), None;
      }
      match out {
        case DatagramBatch(batch) =>
          stop := SendBatch(env, batch);
          if stop.Some? {
            UnderwayIsOrderly(env.log, batch);
            return;
          }
        case Callback(duration) =>
          return None, Some(duration);
        case Nothing =>
          return None, None;
      }
    }
  }

  /** Receiving is in order, and so is feeding what was received. */
  lemma MayReceive(log: seq<Act>, got: Received)
    requires Balanced(log) && MayCome(log, Recv(NoneReady))
    ensures var log1 := log + [Recv(got)];
            && Orderly(log1) && Answered(log1) == Answered(log) && (Fell(log1) <==> got == RecvError)
            && (got.Datagrams? ==>
                  var log2 := log1 + [Feed(got.dgrams)];
                  Balanced(log2) && Answered(log2) == Answered(log) && MayCome(log2, Recv(NoneReady)))
            && (!got.Datagrams? ==> Balanced(log1))
  {
    Append(log, Recv(got));
    if got.Datagrams? {
      Append(log + [Recv(got)], Feed(got.dgrams));
    }
  }

  /** Feeds the engine everything the socket has. */
  method ReceiveAll(env: Environment) returns (stop: Option<Outcome>)
    requires env.Valid() && Balanced(env.log) && MayCome(env.log, Recv(NoneReady))
    modifies env
    ensures env.Valid() && env.Left() <= old(env.Left())
    ensures Answered(env.log) == old(Answered(env.log))
    ensures stop.None? ==> Balanced(env.log) && env.log != [] && env.log[|env.log| - 1] == Recv(NoneReady)
    ensures stop.Some? ==> Orderly(env.log) && Stopped(stop.value, env.log, env.Left())
  {
    while true
      invariant env.Valid() && Balanced(env.log) && MayCome(env.log, Recv(NoneReady))
      invariant env.Left() <= old(env.Left()) && Answered(env.log) == old(Answered(env.log))
      decreases env.total - env.now
    {
      var got := env.answers.recv(env.now);
      MayReceive(env.log, got);
      var cut := env.Answer(Recv(got));
      if cut {
        return Some(Cut);
      }
      match got {
        case NoneReady =>
          return None;
        case RecvError =>
          return Some(Failed);
        case Datagrams(dgrams) =>
          cut := env.Answer(Feed(dgrams));
          if cut {
            return Some(Cut);
          }
      }
    }
  }

  /** Asking for events, and then waiting if there are none, is in order. */
  lemma MayWait(log: seq<Act>, timeout: Option<nat>, some: bool, wake: Wake)
    requires Drained(log, timeout)
    ensures var log1 := log + [HasEvents(some)];
            && Balanced(log1) && Answered(log1) == Some((false, false)) && !Fell(log1)
            && (some ==> MayCome(log1, AskDone(false, false)))
            && (!some ==>
                  var log2 := log1 + [Select(timeout, wake)];
                  && Balanced(log2) && Answered(log2) == Some((false, false))
                  && (Fell(log2) <==> wake == SocketError)
                  && (wake == SocketReadable ==> MayCome(log2, Recv(NoneReady)))
                  && (wake == Timer ==> MayCome(log2, AskDone(false, false))))
  {
    var log1 := log + [HasEvents(some)];
    Append(log, HasEvents(some));
    if !some {
      assert log1[|log1| - 2] == log[|log| - 1];
      Append(log1, Select(timeout, wake));
    }
  }

  /** Unless events are pending: waits for the socket or the timer, and receives. */
  method Await(env: Environment, timeout: Option<nat>) returns (stop: Option<Outcome>)
    requires env.Valid() && Drained(env.log, timeout)
    modifies env
    ensures env.Valid() && (env.Left() < old(env.Left()) || stop.Some?)
    ensures Answered(env.log) == Some((false, false))
    ensures stop.None? ==> Balanced(env.log) && MayCome(env.log, AskDone(false, false))
    ensures stop.Some? ==> Orderly(env.log) && Stopped(stop.value, env.log, env.Left())
  {
    var some, wake := env.answers.events(env.now), env.answers.wake(env.now + 1);
    MayWait(env.log, timeout, some, wake);
    var cut := env.Answer(HasEvents(some));
    if cut {
      return Some(Cut);
    }
    if some {
      return None;
    }
    cut := env.Answer(Select(timeout, wake));
    if cut {
      return Some(Cut);
    }
    match wake {
      case SocketError =>
        return Some(Failed);
      case SocketReadable =>
        stop := ReceiveAll(env);
      case Timer =>
        return None;
    }
  }

  /** The pump. At every moment of every run: batches are delivered in the order produced, none lost or
      repeated, with at most the latest still to go; it waits only as `WaitOk` allows; and it finishes
      exactly when the caller says so, with nothing half done. Each answer leads to the next question as
      `Follows` says, until the caller is done, an answer is fatal, or there is no further answer. */
  method DriveUntil(env: Environment) returns (outcome: Outcome)
    requires env.Valid() && env.log == []
    modifies env
    ensures Genuine(env.log, env.answers) && |env.log| <= env.total
    ensures Orderly(env.log)
    ensures outcome == Finished <==> Answered(env.log) == Some((false, true))
    ensures outcome == Finished ==> Balanced(env.log) && env.log[|env.log| - 1] == AskDone(false, true)
    ensures outcome == Failed <==> Fell(env.log)
    ensures outcome == Cut ==> |env.log| == env.total
  {
    while true
      invariant env.Valid() && Balanced(env.log) && Answered(env.log) in {None, Some((false, false))}
      invariant MayCome(env.log, AskDone(false, false))
      decreases env.total - env.now
    {
      var (failed, done) := env.answers.done(env.now);
      Append(env.log, AskDone(failed, done));
      var cut := env.Answer(AskDone(failed, done));
      if cut {
        return Cut;
      }
      if failed {
        return Failed;
      }
      if done {
        return Finished;
      }
      var stop, timeout := DrainOutput(env);
      if stop.Some? {
        return stop.value;
      }
      stop := Await(env, timeout);
      if stop.Some? {
        return stop.value;
      }
    }
  }
}
