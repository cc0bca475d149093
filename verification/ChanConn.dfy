/** bluenet/chan_conn.go: the read side of a connection over channels. */
module ReadSides {
  import opened Results

  type Bytes = seq<bv8>

  datatype ConnError = TimedOut | ClosedConn | EndOfFile | Remote(message: string)

  // What the read channel delivers; a result with an error carries no data to read.
  datatype ReadResult = ReadResult(data: Bytes, error: Option<ConnError>)

  // How the wait for a result ends.
  datatype Event = ConnClosed | DeadlinePassed | ChannelClosed | Received(result: ReadResult)

  function Min(a: nat, b: nat): nat {
    if a < b then a else b
  }

  // What a call of Read with room for `length` bytes does: it takes a result, or not; `got` is
  // what it reads and pending' what is pending afterwards.
  ghost predicate Reads(pending: Bytes, length: nat, expired: bool, taken: Option<Bytes>,
                        got: Bytes, pending': Bytes)
  {
    && got + pending' == pending + DataOf(taken)
    && |got| == (if expired then 0 else Min(length, |pending| + |DataOf(taken)|))
    && (taken.Some? ==> !expired && |pending| < length)
  }

  function DataOf(taken: Option<Bytes>): Bytes {
    if taken.None? then [] else taken.value
  }

  class ReadSide {
    var pending: Bytes

    constructor ()
      ensures pending == []
    {
      pending := [];
    }

    // The built-in copy, to b from position `at` on.
    method Copy(b: array<bv8>, at: nat, data: Bytes) returns (n: nat)
      requires at <= b.Length
      modifies b
      ensures n == Min(b.Length - at, |data|)
      ensures b[..] == old(b[..at]) + data[..n] + old(b[at + n..])
    {
      n := Min(b.Length - at, |data|);
      for i := 0 to n
        invariant b[..] == old(b[..at]) + data[..i] + old(b[at + i..])
      {
        b[at + i] := data[i];
      }
    }

    /** Reads into b: first what is pending, then, if there is room, one result of the channel.
        `expired` and `closed` are what the call finds on entry, and `event` how its wait ends;
        `acked` tells that a result was taken and acknowledged. */
    method Read(b: array<bv8>, expired: bool, closed: bool, event: Event)
      returns (n: nat, err: Option<ConnError>, acked: bool)
      modifies this, b
      ensures n <= b.Length && b[n..] == old(b[n..])
      // A result is taken only when there is room for it.
      ensures acked <==> !expired && !closed && |old(pending)| < b.Length && event.Received?
      // No byte is lost, repeated or reordered: what was pending and what was taken is what was
      // read and what is pending now, and as much is read as there is room for.
      ensures Reads(old(pending), b.Length, expired,
                    if acked && event.result.error.None? then Some(event.result.data) else None,
                    b[..n], pending)
      ensures err == if expired then Some(TimedOut)
                     else if closed then Some(ClosedConn)
                     else if b.Length <= |old(pending)| then None
                     else match event
                          case ConnClosed => Some(ClosedConn)
                          case DeadlinePassed => Some(TimedOut)
                          case ChannelClosed => Some(EndOfFile)
                          case Received(result) => result.error
    {
      n, err, acked := 0, None, false;
      if expired {
        return 0, Some(TimedOut), false;
      }
      if |pending| > 0 {
        n := Copy(b, 0, pending);
        pending := pending[n..];
      }
      assert b[..n] + pending == old(pending);
      if closed {
        return n, Some(ClosedConn), false;
      }
      if b.Length == n {
        return;
      }
      match event {
        case ConnClosed => err := Some(ClosedConn);
        case DeadlinePassed => err := Some(TimedOut);
        case ChannelClosed => err := Some(EndOfFile);
        case Received(result) =>
          acked := true;
          err := result.error;
          if result.error.None? {
            n := Take(b, n, result.data);
          }
      }
    }

    // Copies a result behind the n bytes already read, and keeps what does not fit.
    method Take(b: array<bv8>, n: nat, data: Bytes) returns (total: nat)
      requires n <= b.Length && pending == []
      modifies this, b
      ensures total == Min(b.Length, n + |data|) && b[total..] == old(b[total..])
      ensures b[..total] + pending == old(b[..n]) + data
    {
      var m := Copy(b, n, data);
      total := n + m;
      assert b[..total] == old(b[..n]) + data[..m];
      assert data == data[..m] + data[m..];
      if |data| != m {
        pending := pending + data[m..];
      }
    }
  }
}

/** Every interleaving of writes, closes and reads over one channel: any number of writers and
    closers on one connection, one reader on the other. The channel is a queue without a bound,
    of which a rendezvous is a send and a receive in a row. */
module ConnRuns {
  import opened ReadSides
  import opened Results

  // A write: past its entry, where it found the connection closed or not; waiting to send;
  // waiting for the acknowledgement; returned.
  datatype Stage = Entered(closed: bool) | Selecting | Sent | Returned(err: Option<ConnError>)

  datatype Write = Write(data: Bytes, stage: Stage)

  datatype Packet = Packet(write: nat, data: Bytes)

  // `sent` is everything ever sent and `taken` how much of it the reader took; `room` is how
  // much more the current read can hold.
  datatype State = State(
    locked: bool, cancelled: bool, wg: nat, chanClosed: bool, closes: nat,
    writes: seq<Write>, sent: seq<Packet>, taken: nat,
    pending: Bytes, delivered: Bytes, room: nat)

  datatype Step =
    | WriteEnter(data: Bytes)
    | WriteRefused(i: nat)                      // it had found the connection closed
    | WriteStart(i: nat)
    | WriteSend(i: nat)
    | WriteAcked(i: nat)
    | WriteFails(i: nat, error: ConnError)      // closed meanwhile, or past its deadline
    | CloseEnter                                // cancels, and keeps the lock
    | CloseAgain                                // finds the connection closed
    | CloseFinish                               // all writes have returned
    | ReadPending(length: nat)
    | ReadTake

  predicate Active(w: Write) {
    !w.stage.Returned?
  }

  function ActiveCount(ws: seq<Write>): nat {
    if ws == [] then 0
    else ActiveCount(ws[..|ws| - 1]) + if Active(ws[|ws| - 1]) then 1 else 0
  }

  // With `solo`, a write starts only when the one before has returned.
  predicate Enabled(s: State, step: Step, solo: bool) {
    match step
    case WriteEnter(_) => !s.locked && (solo ==> s.wg == 0)
    case WriteRefused(i) => i < |s.writes| && s.writes[i].stage == Entered(true)
    case WriteStart(i) => i < |s.writes| && s.writes[i].stage == Entered(false)
    case WriteSend(i) => i < |s.writes| && s.writes[i].stage == Selecting
    case WriteAcked(i) => i < |s.writes| && s.writes[i].stage == Sent && TakenBy(s, i)
    case WriteFails(i, _) => i < |s.writes| && Active(s.writes[i])
    case CloseEnter => !s.locked && !s.cancelled
    case CloseAgain => !s.locked && s.cancelled
    case CloseFinish => s.locked && s.wg == 0
    case ReadPending(_) => true
    case ReadTake => s.taken < |s.sent| && s.room > 0
  }

  // The reader has taken, and so acknowledged, the packet of write i.
  predicate TakenBy(s: State, i: nat) {
    exists k | 0 <= k < s.taken && k < |s.sent| :: s.sent[k].write == i
  }

  function Leave(s: State, i: nat, err: Option<ConnError>): State
    requires i < |s.writes|
  {
    s.(wg := if s.wg > 0 then s.wg - 1 else 0, writes := s.writes[i := s.writes[i].(stage := Returned(err))])
  }

  function Apply(s: State, step: Step, solo: bool): State
    requires Enabled(s, step, solo)
  {
    match step
    case WriteEnter(data) => s.(wg := s.wg + 1, writes := s.writes + [Write(data, Entered(s.cancelled))])
    case WriteRefused(i) => Leave(s, i, Some(ClosedConn))
    case WriteStart(i) => s.(writes := s.writes[i := s.writes[i].(stage := Selecting)])
    case WriteSend(i) =>
      s.(writes := s.writes[i := s.writes[i].(stage := Sent)], sent := s.sent + [Packet(i, s.writes[i].data)])
    case WriteAcked(i) => Leave(s, i, None)
    case WriteFails(i, error) => Leave(s, i, Some(error))
    case CloseEnter => s.(locked := true, cancelled := true)
    case CloseAgain => s
    case CloseFinish => s.(locked := false, chanClosed := true, closes := s.closes + 1)
    case ReadPending(length) =>
      var n := Min(length, |s.pending|);
      s.(delivered := s.delivered + s.pending[..n], pending := s.pending[n..], room := length - n)
    case ReadTake =>
      var data := s.sent[s.taken].data;
      var n := Min(s.room, |data|);
      s.(taken := s.taken + 1, delivered := s.delivered + data[..n], pending := s.pending + data[n..], room := 0)
  }

  // ----- closing

  // The wait group counts the active writes. The lock is held from the cancellation to the
  // close of the channel, after which every active write knows that it is closed.
  ghost predicate Orderly(s: State) {
    && s.wg == ActiveCount(s.writes)
    && (s.locked ==> s.cancelled && !s.chanClosed)
    && (!s.locked && s.cancelled ==> s.chanClosed)
    && (s.chanClosed ==> s.cancelled)
    && (s.chanClosed ==> forall i | 0 <= i < |s.writes| && Active(s.writes[i]) :: s.writes[i].stage == Entered(true))
    && s.closes == if s.chanClosed then 1 else 0
  }

  lemma {:induction false} CountSet(ws: seq<Write>, i: nat, w: Write)
    requires i < |ws|
    ensures ActiveCount(ws[i := w])
              == ActiveCount(ws) - (if Active(ws[i]) then 1 else 0) + (if Active(w) then 1 else 0)
  {
    var n := |ws| - 1;
    if i < n {
      CountSet(ws[..n], i, w);
      assert ws[i := w][..n] == ws[..n][i := w];
    } else {
      assert ws[i := w][..n] == ws[..n];
    }
  }

  lemma {:induction false} CountZero(ws: seq<Write>)
    requires ActiveCount(ws) == 0
    ensures forall i | 0 <= i < |ws| :: !Active(ws[i])
  {
    if ws != [] {
      CountZero(ws[..|ws| - 1]);
      forall i | 0 <= i < |ws| ensures !Active(ws[i]) {
        assert i < |ws| - 1 ==> ws[..|ws| - 1][i] == ws[i];
      }
    }
  }

  lemma StepKeepsOrderly(s: State, step: Step, solo: bool)
    requires Orderly(s) && Enabled(s, step, solo)
    ensures Orderly(Apply(s, step, solo))
  {
    match step
    case WriteEnter(data) =>
      assert (s.writes + [Write(data, Entered(s.cancelled))])[..|s.writes|] == s.writes;
    case WriteRefused(i) => CountSet(s.writes, i, s.writes[i].(stage := Returned(Some(ClosedConn))));
    case WriteStart(i) => CountSet(s.writes, i, s.writes[i].(stage := Selecting));
    case WriteSend(i) => CountSet(s.writes, i, s.writes[i].(stage := Sent));
    case WriteAcked(i) => CountSet(s.writes, i, s.writes[i].(stage := Returned(None)));
    case WriteFails(i, error) => CountSet(s.writes, i, s.writes[i].(stage := Returned(Some(error))));
    case CloseFinish => CountZero(s.writes);
    case _ =>
  }

  // No send finds the channel closed, and a close never closes it twice.
  lemma SendAndCloseAreSafe(s: State, step: Step, solo: bool)
    requires Orderly(s) && Enabled(s, step, solo)
    ensures step.WriteSend? || step.CloseFinish? ==> !s.chanClosed && s.closes == 0
  {
  }

  // ----- the stream

  function Concat(packets: seq<Packet>): Bytes {
    if packets == [] then [] else Concat(packets[..|packets| - 1]) + packets[|packets| - 1].data
  }

  // What was read and what is pending is what was taken, in the order it was sent.
  ghost predicate InOrder(s: State) {
    && s.taken <= |s.sent|
    && s.delivered + s.pending == Concat(s.sent[..s.taken])
    && (s.room > 0 ==> s.pending == [])
  }

  // Each packet carries the data of its write; a write that returned without error was taken.
  ghost predicate Honest(s: State) {
    && (forall k | 0 <= k < |s.sent| ::
          && s.sent[k].write < |s.writes| && s.sent[k].data == s.writes[s.sent[k].write].data
          && !s.writes[s.sent[k].write].stage.Entered? && s.writes[s.sent[k].write].stage != Selecting)
    && (forall i | 0 <= i < |s.writes| && s.writes[i].stage == Returned(None) :: TakenBy(s, i))
    && (forall j, k | 0 <= j < k < |s.sent| :: s.sent[j].write != s.sent[k].write)
  }

  lemma StepKeepsInOrder(s: State, step: Step, solo: bool)
    requires InOrder(s) && Enabled(s, step, solo)
    ensures InOrder(Apply(s, step, solo))
  {
    if step.WriteSend? {
      var s' := Apply(s, step, solo);
      assert s'.sent[..s.taken] == s.sent[..s.taken];
    } else if step.ReadTake? {
      var data := s.sent[s.taken].data;
      var n := Min(s.room, |data|);
      assert s.sent[..s.taken + 1][..s.taken] == s.sent[..s.taken];
      assert s.delivered + [] == s.delivered;
      assert data == data[..n] + data[n..];
      assert s.delivered + data[..n] + (s.pending + data[n..]) == s.delivered + s.pending + data;
    } else if step.ReadPending? {
      var n := Min(step.length, |s.pending|);
      assert s.delivered + s.pending[..n] + s.pending[n..] == s.delivered + s.pending;
    }
  }

  lemma TakenStays(s: State, s': State, i: nat)
    requires TakenBy(s, i) && s.sent <= s'.sent && s.taken <= s'.taken
    ensures TakenBy(s', i)
  {
    var k :| 0 <= k < s.taken && k < |s.sent| && s.sent[k].write == i;
    assert s'.sent[k].write == i;
  }

  lemma StepKeepsHonest(s: State, step: Step, solo: bool)
    requires Honest(s) && Enabled(s, step, solo)
    ensures Honest(Apply(s, step, solo))
  {
    var s' := Apply(s, step, solo);
    forall i | 0 <= i < |s'.writes| && s'.writes[i].stage == Returned(None) ensures TakenBy(s', i) {
      TakenStays(s, s', i);
    }
  }

  // With one writer at a time, packets are sent in the order of the writes.
  ghost predicate Sequential(s: State) {
    && (forall i | 0 <= i < |s.writes| - 1 :: !Active(s.writes[i]))
    && (forall j, k | 0 <= j < k < |s.sent| :: s.sent[j].write < s.sent[k].write)
    && (forall k | 0 <= k < |s.sent| :: s.sent[k].write < |s.writes|)
  }

  lemma StepKeepsSequential(s: State, step: Step)
    requires Orderly(s) && Honest(s) && Sequential(s) && Enabled(s, step, true)
    ensures Sequential(Apply(s, step, true))
  {
    if step.WriteEnter? {
      CountZero(s.writes);
    }
  }

  // ----- runs

  const START := State(false, false, 0, false, 0, [], [], 0, [], [], 0)

  ghost predicate Run(s: State, steps: seq<Step>, solo: bool)
    decreases |steps|
  {
    steps != [] ==> Enabled(s, steps[0], solo) && Run(Apply(s, steps[0], solo), steps[1..], solo)
  }

  ghost function End(s: State, steps: seq<Step>, solo: bool): State
    requires Run(s, steps, solo)
    decreases |steps|
  {
    if steps == [] then s else End(Apply(s, steps[0], solo), steps[1..], solo)
  }

  ghost predicate Inv(s: State, solo: bool) {
    Orderly(s) && InOrder(s) && Honest(s) && (solo ==> Sequential(s))
  }

  lemma {:induction false} EveryRunKeepsInv(s: State, steps: seq<Step>, solo: bool)
    requires Inv(s, solo) && Run(s, steps, solo)
    ensures Inv(End(s, steps, solo), solo)
    decreases |steps|
  {
    if steps != [] {
      StepKeepsOrderly(s, steps[0], solo);
      StepKeepsInOrder(s, steps[0], solo);
      StepKeepsHonest(s, steps[0], solo);
      if solo {
        StepKeepsSequential(s, steps[0]);
      }
      EveryRunKeepsInv(Apply(s, steps[0], solo), steps[1..], solo);
    }
  }

  // The arguments of the calls of Write, in the order of the calls.
  function Arguments(steps: seq<Step>): seq<Bytes> {
    if steps == [] then []
    else (if steps[0].WriteEnter? then [steps[0].data] else []) + Arguments(steps[1..])
  }

  ghost predicate HasArguments(writes: seq<Write>, args: seq<Bytes>) {
    |writes| == |args| && forall i | 0 <= i < |writes| :: writes[i].data == args[i]
  }

  lemma StepHasArguments(s: State, step: Step, args: seq<Bytes>, solo: bool)
    requires Enabled(s, step, solo) && HasArguments(s.writes, args)
    ensures HasArguments(Apply(s, step, solo).writes, args + Arguments([step]))
  {
    assert [step][1..] == [] && args + [] == args;
  }

  lemma {:induction false} ArgumentsSplit(steps: seq<Step>, args: seq<Bytes>)
    requires steps != []
    ensures args + Arguments([steps[0]]) + Arguments(steps[1..]) == args + Arguments(steps)
  {
    var first := if steps[0].WriteEnter? then [steps[0].data] else [];
    assert [steps[0]][1..] == [] && first + [] == first;
    assert Arguments([steps[0]]) == first;
    Regroup(args, first, Arguments(steps[1..]));
  }

  // Every write keeps the bytes it was called with.
  lemma {:induction false} RunHasArguments(s: State, steps: seq<Step>, args: seq<Bytes>, solo: bool)
    requires Run(s, steps, solo) && HasArguments(s.writes, args)
    ensures HasArguments(End(s, steps, solo).writes, args + Arguments(steps))
    decreases |steps|
  {
    if steps == [] {
      assert args + [] == args;
    } else {
      StepHasArguments(s, steps[0], args, solo);
      RunHasArguments(Apply(s, steps[0], solo), steps[1..], args + Arguments([steps[0]]), solo);
      ArgumentsSplit(steps, args);
    }
  }

  // Some packet taken by the reader carries the bytes that write i was called with.
  ghost predicate Delivered(s: State, i: nat, args: seq<Bytes>)
    requires i < |args|
  {
    exists k :: 0 <= k < s.taken && k < |s.sent| && s.sent[k] == Packet(i, args[i])
  }

  // Each packet sent is the argument of one call of Write, and no call sends two; what was read
  // and is pending is the concatenation of the packets taken; and those include the argument of
  // every call that returned without error.
  ghost predicate Streams(s: State, args: seq<Bytes>) {
    && |s.writes| == |args|
    && (forall k | 0 <= k < |s.sent| :: s.sent[k].write < |args| && s.sent[k].data == args[s.sent[k].write])
    && (forall j, k | 0 <= j < k < |s.sent| :: s.sent[j].write != s.sent[k].write)
    && s.taken <= |s.sent| && s.delivered + s.pending == Concat(s.sent[..s.taken])
    && (forall i | 0 <= i < |args| && s.writes[i].stage == Returned(None) :: Delivered(s, i, args))
  }

  lemma InvStreams(s: State, args: seq<Bytes>)
    requires InOrder(s) && Honest(s) && HasArguments(s.writes, args)
    ensures Streams(s, args)
  {
    AcknowledgedIsDelivered(s, args);
  }

  // In every interleaving from the start the channel is closed at most once, no write is about
  // to send on it once it is closed, and the reader gets what Write was called with. With one
  // writer the packets are in the order of the calls.
  lemma {:induction false} RunsAreSafe(steps: seq<Step>, solo: bool)
    requires Run(START, steps, solo)
    ensures var s := End(START, steps, solo);
            && s.closes <= 1
            && (s.chanClosed ==> forall i | 0 <= i < |s.writes| :: s.writes[i].stage != Selecting)
            && Streams(s, Arguments(steps))
            && (solo ==> forall j, k | 0 <= j < k < |s.sent| :: s.sent[j].write < s.sent[k].write)
  {
    EveryRunKeepsInv(START, steps, solo);
    RunHasArguments(START, steps, [], solo);
    assert [] + Arguments(steps) == Arguments(steps);
    InvStreams(End(START, steps, solo), Arguments(steps));
  }

  lemma AcknowledgedIsDelivered(s: State, args: seq<Bytes>)
    requires Honest(s) && s.taken <= |s.sent| && HasArguments(s.writes, args)
    ensures forall i | 0 <= i < |args| && s.writes[i].stage == Returned(None) :: Delivered(s, i, args)
  {
    forall i | 0 <= i < |args| && s.writes[i].stage == Returned(None) ensures Delivered(s, i, args) {
      var k :| 0 <= k < s.taken && k < |s.sent| && s.sent[k].write == i;
      assert s.sent[k] == Packet(i, args[i]);
    }
  }

  // ----- what can happen

  lemma {:induction false} RunFirst(s: State, step: Step, rest: seq<Step>, solo: bool)
    requires Enabled(s, step, solo) && Run(Apply(s, step, solo), rest, solo)
    ensures Run(s, [step] + rest, solo)
    ensures End(s, [step] + rest, solo) == End(Apply(s, step, solo), rest, solo)
  {
    assert ([step] + rest)[1..] == rest;
  }

  lemma {:induction false} RunThen(s: State, steps: seq<Step>, more: seq<Step>, solo: bool)
    requires Run(s, steps, solo) && Run(End(s, steps, solo), more, solo)
    ensures Run(s, steps + more, solo)
    ensures End(s, steps + more, solo) == End(End(s, steps, solo), more, solo)
    decreases |steps|
  {
    if steps == [] {
      assert [] + more == more;
    } else {
      assert (steps + more)[1..] == steps[1..] + more;
      RunThen(Apply(s, steps[0], solo), steps[1..], more, solo);
    }
  }

  lemma WriteIsSent(s: State, data: Bytes, solo: bool)
    requires !s.locked && !s.cancelled && (solo ==> s.wg == 0)
    ensures var (i, steps) := (|s.writes|, [WriteEnter(data), WriteStart(|s.writes|), WriteSend(|s.writes|)]);
            && Run(s, steps, solo)
            && End(s, steps, solo) == s.(wg := s.wg + 1, writes := s.writes + [Write(data, Sent)],
                                         sent := s.sent + [Packet(i, data)])
  {
    var i := |s.writes|;
    var s1 := Apply(s, WriteEnter(data), solo);
    var s2 := Apply(s1, WriteStart(i), solo);
    RunOfTwo(s1, WriteStart(i), WriteSend(i), solo);
    RunFirst(s, WriteEnter(data), [WriteStart(i), WriteSend(i)], solo);
    assert [WriteEnter(data)] + [WriteStart(i), WriteSend(i)] == [WriteEnter(data), WriteStart(i), WriteSend(i)];
    assert Apply(s2, WriteSend(i), solo).writes == s.writes + [Write(data, Sent)];
  }

  lemma {:induction false} ReadAndAcknowledge(s: State, length: nat, i: nat, data: Bytes, solo: bool)
    requires i < |s.writes| && s.writes[i] == Write(data, Sent)
    requires s.taken < |s.sent| && s.sent[s.taken] == Packet(i, data)
    requires length >= |s.pending| + |data| && length > |s.pending|
    ensures var steps := [ReadPending(length), ReadTake, WriteAcked(i)];
            && Run(s, steps, solo)
            && End(s, steps, solo).writes == s.writes[i := Write(data, Returned(None))]
            && End(s, steps, solo).delivered == s.delivered + s.pending + data
            && End(s, steps, solo).pending == []
  {
    ReadsAndTakes(s, length, data, s.pending + data, [], solo);
    var s1 := Apply(s, ReadPending(length), solo);
    var s2 := Apply(s1, ReadTake, solo);
    assert s2.sent[s.taken].write == i;
    assert TakenBy(s2, i);
    RunOfTwo(s1, ReadTake, WriteAcked(i), solo);
    RunFirst(s, ReadPending(length), [ReadTake, WriteAcked(i)], solo);
    assert [ReadPending(length)] + [ReadTake, WriteAcked(i)] == [ReadPending(length), ReadTake, WriteAcked(i)];
    Regroup(s.delivered, s.pending, data);
  }

  // On an open connection with a reader that has room, a write goes through: it returns without
  // error and its bytes are read.
  lemma WriteGoesThrough(s: State, data: Bytes, length: nat, solo: bool) returns (steps: seq<Step>)
    requires !s.locked && !s.cancelled && (solo ==> s.wg == 0)
    requires s.taken == |s.sent| && length >= |s.pending| + |data| && length > |s.pending|
    ensures Run(s, steps, solo) && Arguments(steps) == [data]
    ensures var t := End(s, steps, solo);
            && t.writes == s.writes + [Write(data, Returned(None))]
            && t.delivered == s.delivered + s.pending + data && t.pending == []
  {
    var i := |s.writes|;
    var send := [WriteEnter(data), WriteStart(i), WriteSend(i)];
    var take := [ReadPending(length), ReadTake, WriteAcked(i)];
    WriteIsSent(s, data, solo);
    var sent := End(s, send, solo);
    ReadAndAcknowledge(sent, length, i, data, solo);
    RunThen(s, send, take, solo);
    assert sent.writes[i := Write(data, Returned(None))] == s.writes + [Write(data, Returned(None))];
    steps := send + take;
    assert steps[1..] == [WriteStart(i), WriteSend(i)] + take;
    NoArguments(steps[1..]);
  }

  lemma {:induction false} NoArguments(steps: seq<Step>)
    requires forall step | step in steps :: !step.WriteEnter?
    ensures Arguments(steps) == []
  {
    if steps != [] {
      NoArguments(steps[1..]);
    }
  }

  // A close goes through once no write is under way, and then every write is refused.
  lemma {:induction false} CloseGoesThrough(s: State, data: Bytes, solo: bool)
    requires Orderly(s) && !s.locked && !s.cancelled && s.wg == 0
    ensures Run(s, [CloseEnter, CloseFinish], solo)
    ensures var t := End(s, [CloseEnter, CloseFinish], solo);
            && t.chanClosed && t.closes == 1
            && Enabled(t, WriteEnter(data), solo)
            && Apply(t, WriteEnter(data), solo).writes[|t.writes|] == Write(data, Entered(true))
            && Enabled(Apply(t, WriteEnter(data), solo), WriteRefused(|t.writes|), solo)
  {
    RunOfTwo(s, CloseEnter, CloseFinish, solo);
  }

  // Everything but the reader's side.
  ghost predicate SameWriters(s: State, t: State) {
    t == s.(taken := t.taken, pending := t.pending, delivered := t.delivered, room := t.room)
  }

  lemma {:induction false} RunOfTwo(s: State, first: Step, second: Step, solo: bool)
    requires Enabled(s, first, solo) && Enabled(Apply(s, first, solo), second, solo)
    ensures Run(s, [first, second], solo)
    ensures End(s, [first, second], solo) == Apply(Apply(s, first, solo), second, solo)
  {
    RunOfOne(Apply(s, first, solo), second, solo);
    assert [first, second][1..] == [second];
  }

  lemma {:induction false} RunOfOne(s: State, step: Step, solo: bool)
    requires Enabled(s, step, solo)
    ensures Run(s, [step], solo) && End(s, [step], solo) == Apply(s, step, solo)
  {
    assert [step][1..] == [];
  }

  lemma ReadsPending(s: State, length: nat, got: Bytes, pending': Bytes, solo: bool)
    requires Reads(s.pending, length, false, None, got, pending')
    ensures Apply(s, ReadPending(length), solo)
              == s.(delivered := s.delivered + got, pending := pending', room := length - |got|)
  {
    var n := Min(length, |s.pending|);
    assert s.pending + [] == s.pending[..n] + s.pending[n..];
    SplitAt(got, pending', s.pending[..n], s.pending[n..]);
  }

  lemma ReadsAndTakes(s: State, length: nat, data: Bytes, got: Bytes, pending': Bytes, solo: bool)
    requires Reads(s.pending, length, false, Some(data), got, pending')
    requires s.taken < |s.sent| && s.sent[s.taken].data == data
    ensures var t := Apply(s, ReadPending(length), solo);
            && Enabled(t, ReadTake, solo)
            && Apply(t, ReadTake, solo)
                 == s.(delivered := s.delivered + got, pending := pending', room := 0, taken := s.taken + 1)
  {
    var m := Min(length - |s.pending|, |data|);
    ReadsParts(s.pending, length, data, got, pending', m);
    assert s.pending[..|s.pending|] == s.pending && s.pending[|s.pending|..] == [];
    Regroup(s.delivered, s.pending, data[..m]);
    assert [] + data[m..] == data[m..];
  }

  lemma ReadsParts(pending: Bytes, length: nat, data: Bytes, got: Bytes, pending': Bytes, m: nat)
    requires Reads(pending, length, false, Some(data), got, pending')
    requires m == Min(length - |pending|, |data|)
    ensures got == pending + data[..m] && pending' == data[m..]
  {
    assert data == data[..m] + data[m..];
    Regroup(pending, data[..m], data[m..]);
    SplitAt(got, pending', pending + data[..m], data[m..]);
  }

  lemma Regroup<T>(x: seq<T>, y: seq<T>, z: seq<T>)
    ensures x + y + z == x + (y + z)
  {
  }

  // What a call of Read does, by itself, is a run of the reader's steps, from any state of the
  // writers.
  lemma ReadIsARun(s: State, length: nat, expired: bool, taken: Option<Bytes>,
                   got: Bytes, pending': Bytes, solo: bool)
    returns (steps: seq<Step>)
    requires Reads(s.pending, length, expired, taken, got, pending')
    requires taken.Some? ==> s.taken < |s.sent| && s.sent[s.taken].data == taken.value
    ensures Run(s, steps, solo)
    ensures var t := End(s, steps, solo);
            && t.delivered == s.delivered + got && t.pending == pending' && SameWriters(s, t)
            && t.taken == s.taken + if taken.Some? then 1 else 0
  {
    if expired {
      steps := [];
      assert got == [] && s.delivered + got == s.delivered;
      assert pending' == got + pending' == s.pending + [] == s.pending;
    } else if taken.None? {
      steps := [ReadPending(length)];
      ReadsPending(s, length, got, pending', solo);
      RunOfOne(s, ReadPending(length), solo);
    } else {
      steps := [ReadPending(length), ReadTake];
      ReadsAndTakes(s, length, taken.value, got, pending', solo);
      RunOfTwo(s, ReadPending(length), ReadTake, solo);
    }
  }

  lemma SplitAt(a: Bytes, b: Bytes, c: Bytes, d: Bytes)
    requires a + b == c + d && |a| == |c|
    ensures a == c && b == d
  {
    assert a == (a + b)[..|a|] && c == (c + d)[..|c|];
    assert b == (a + b)[|a|..] && d == (c + d)[|c|..];
  }
}
