/** Initializing the IO of a process: connector pairs, their error channels, and the join CreateTask waits for. */
module IoProxy {
  import opened Options

  /** An error, or nothing on success. */
  type Err = nat
  type Result = Option<Err>

  const CAPACITY := 2

  // ---------------------------------------------------------------- one pair by itself

  class ErrorChannel {
    var buffer: seq<Err>
    var closed: bool

    constructor ()
      ensures buffer == [] && !closed
    {
      buffer, closed := [], false;
    }

    /** A send that does not block and does not panic. */
    method Send(e: Err)
      requires !closed && |buffer| < CAPACITY
      modifies this
      ensures buffer == old(buffer) + [e] && !closed
    {
      buffer := buffer + [e];
    }

    method Close()
      requires !closed
      modifies this
      ensures closed && buffer == old(buffer)
    {
      closed := true;
    }
  }

  function Errors(r: Result): seq<Err> {
    if r.Some? then [r.value] else []
  }

  /** The initialization loop, whichever connector `select` takes first; nobody receives meanwhile. */
  method InitPair(initDone: ErrorChannel, readerResult: Result, writerResult: Result) returns (copying: bool)
    requires initDone.buffer == [] && !initDone.closed
    modifies initDone
    ensures initDone.closed
    ensures initDone.buffer == Errors(readerResult) + Errors(writerResult)
         || initDone.buffer == Errors(writerResult) + Errors(readerResult)
    ensures copying <==> readerResult.None? && writerResult.None?
  {
    var readerPending, writerPending := true, true;
    var ioInitErr: Result := None;
    while readerPending || writerPending
      invariant !initDone.closed
      invariant readerPending && writerPending ==> initDone.buffer == []
      invariant readerPending && !writerPending ==> initDone.buffer == Errors(writerResult)
      invariant !readerPending && writerPending ==> initDone.buffer == Errors(readerResult)
      invariant !readerPending && !writerPending ==>
                  || initDone.buffer == Errors(readerResult) + Errors(writerResult)
                  || initDone.buffer == Errors(writerResult) + Errors(readerResult)
      invariant ioInitErr.Some? <==> initDone.buffer != []
      decreases readerPending, writerPending
    {
      var err: Result;
      if {
        case readerPending =>
          readerPending, err := false, readerResult;
        case writerPending =>
          writerPending, err := false, writerResult;
      }
      if err.Some? {
        ioInitErr := err;
        initDone.Send(err.value);
      } else {
        assert initDone.buffer + [] == initDone.buffer && [] + initDone.buffer == initDone.buffer;
      }
    }
    initDone.Close();
    copying := ioInitErr.None?;
  }

  // ---------------------------------------------------------------- all pairs, with their receivers

  datatype Phase = Selecting | Sending(e: Err) | Closed

  /**
   * One stream: the results its connectors have delivered, where its goroutine is, what is in its error
   * channel, and what the error group's receiver got from it.
   */
  datatype Stream = Stream(
    reader: Option<Result>,
    writer: Option<Result>,
    phase: Phase,
    sent: seq<Err>,
    buffer: seq<Err>,
    closes: nat,
    copying: bool,
    got: Option<Result>)

  datatype Io = Io(streams: seq<Stream>, groupErr: Result, received: Option<Result>)

  datatype Event =
    | Select(i: nat, fromReader: bool, r: Result)
    | Send(i: nat)
    | Close(i: nat)
    | Receive(i: nat)
    | Join

  const NEW := Stream(None, None, Selecting, [], [], 0, false, None)

  function Start(n: nat): Io { Io(seq(n, _ => NEW), None, None) }

  predicate Failed(r: Option<Result>) { r.Some? && r.value.Some? }

  predicate Succeeded(r: Option<Result>) { r.Some? && r.value.None? }

  predicate StreamEnabled(s: Stream, e: Event)
    requires !e.Join?
  {
    match e
    case Select(_, fromReader, _) => s.phase.Selecting? && (if fromReader then s.reader else s.writer).None?
    case Send(_) => s.phase.Sending? && s.phase != Closed && |s.buffer| < CAPACITY
    case Close(_) => s.phase.Selecting? && s.reader.Some? && s.writer.Some?
    case Receive(_) => s.got.None? && (s.buffer != [] || s.phase.Closed?)
  }

  function StreamNext(s: Stream, e: Event): Stream
    requires !e.Join? && StreamEnabled(s, e)
  {
    match e
    case Select(_, fromReader, r) =>
      var phase := if r.Some? then Sending(r.value) else Selecting;
      if fromReader then s.(reader := Some(r), phase := phase) else s.(writer := Some(r), phase := phase)
    case Send(_) => s.(phase := Selecting, sent := s.sent + [s.phase.e], buffer := s.buffer + [s.phase.e])
    case Close(_) =>
      s.(phase := Closed, closes := s.closes + 1, copying := !Failed(s.reader) && !Failed(s.writer))
    case Receive(_) =>
      if s.buffer != [] then s.(buffer := s.buffer[1..], got := Some(Some(s.buffer[0])))
      else s.(got := Some(None))
  }

  predicate AllGot(streams: seq<Stream>) {
    forall i :: 0 <= i < |streams| ==> streams[i].got.Some?
  }

  predicate Enabled(io: Io, e: Event) {
    if e.Join? then io.received.None? && AllGot(io.streams)
    else e.i < |io.streams| && StreamEnabled(io.streams[e.i], e)
  }

  function Next(io: Io, e: Event): Io
    requires Enabled(io, e)
  {
    if e.Join? then io.(received := Some(io.groupErr)) else
      var s := StreamNext(io.streams[e.i], e);
      var groupErr := if e.Receive? && io.groupErr.None? then s.got.value else io.groupErr;
      io.(streams := io.streams[e.i := s], groupErr := groupErr)
  }

  function Run(io: Io, run: seq<Event>): (r: Option<Io>)
    ensures r.Some? ==> |r.value.streams| == |io.streams|
    decreases |run|
  {
    if run == [] then Some(io)
    else if Enabled(io, run[0]) then Run(Next(io, run[0]), run[1..])
    else None
  }

  // ---------------------------------------------------------------- the invariant

  function Failures(s: Stream): nat {
    (if Failed(s.reader) then 1 else 0) + (if Failed(s.writer) then 1 else 0)
  }

  /** What the receiver took from the channel. */
  function Taken(s: Stream): seq<Err> {
    if Failed(s.got) then [s.got.value.value] else []
  }

  ghost predicate StreamOk(s: Stream) {
    && |s.sent| + (if s.phase.Sending? then 1 else 0) == Failures(s)
    && s.sent == Taken(s) + s.buffer
    && (Succeeded(s.got) ==> s.phase.Closed? && s.sent == [])
    && s.closes == (if s.phase.Closed? then 1 else 0)
    && (s.phase.Closed? ==> s.reader.Some? && s.writer.Some?)
    && (s.copying <==> s.phase.Closed? && Failures(s) == 0)
    && (forall e :: e in s.sent ==> IsErrorOf(s, e))
    && (s.phase.Sending? ==> IsErrorOf(s, s.phase.e))
  }

  /** One of the stream's connectors failed with `e`. */
  predicate IsErrorOf(s: Stream, e: Err) {
    s.reader == Some(Some(e)) || s.writer == Some(Some(e))
  }

  ghost predicate Inv(io: Io) {
    && (forall i :: 0 <= i < |io.streams| ==> StreamOk(io.streams[i]))
    && (io.groupErr.Some? <==> exists i :: 0 <= i < |io.streams| && Failed(io.streams[i].got))
    && (io.groupErr.Some? ==>
          exists i :: 0 <= i < |io.streams| && io.streams[i].got == Some(Some(io.groupErr.value)))
    && (io.received.Some? ==> AllGot(io.streams) && io.received.value == io.groupErr)
  }

  lemma StreamStep(s: Stream, e: Event)
    requires StreamOk(s) && !e.Join? && StreamEnabled(s, e)
    ensures StreamOk(StreamNext(s, e))
    ensures e.Receive? || StreamNext(s, e).got == s.got
  {
    if e.Send? {
      assert s.sent + [s.phase.e] == Taken(s) + (s.buffer + [s.phase.e]);
    }
    if e.Receive? && s.buffer != [] {
      assert s.sent == [s.buffer[0]] + s.buffer[1..];
    }
  }

  lemma StepInv(io: Io, e: Event)
    requires Inv(io) && Enabled(io, e)
    ensures Inv(Next(io, e))
  {
    hide StreamOk, StreamNext, StreamEnabled;
    var io' := Next(io, e);
    if !e.Join? {
      StreamStep(io.streams[e.i], e);
      ReceiveGot(io.streams[e.i], e);
      forall i | 0 <= i < |io.streams| ensures StreamOk(io'.streams[i]) {
        assert StreamOk(io.streams[i]);
      }
      if i :| 0 <= i < |io.streams| && Failed(io.streams[i].got) {
        assert Failed(io'.streams[i].got);
      }
      if Failed(io'.streams[e.i].got) {
        assert io'.groupErr.Some?;
      }
      if io.groupErr.Some? {
        var i :| 0 <= i < |io.streams| && io.streams[i].got == Some(Some(io.groupErr.value));
        assert io'.streams[i].got == Some(Some(io'.groupErr.value));
      } else if io'.groupErr.Some? {
        assert io'.streams[e.i].got == Some(Some(io'.groupErr.value));
      }
    }
  }

  /** A receiver takes one value only. */
  lemma ReceiveGot(s: Stream, e: Event)
    requires !e.Join? && StreamEnabled(s, e)
    ensures e.Receive? ==> s.got.None? && StreamNext(s, e).got.Some?
    ensures s.got.Some? ==> StreamNext(s, e).got == s.got
  {
  }

  lemma StartInv(n: nat)
    ensures Inv(Start(n))
  {
  }

  lemma {:induction false} RunInv(io: Io, run: seq<Event>)
    requires Inv(io) && Run(io, run).Some?
    ensures Inv(Run(io, run).value)
    decreases |run|
  {
    hide Inv;
    if run != [] {
      StepInv(io, run[0]);
      RunInv(Next(io, run[0]), run[1..]);
    }
  }

  // ---------------------------------------------------------------- what it means

  ghost predicate Initialized(s: Stream) {
    Succeeded(s.reader) && Succeeded(s.writer)
  }

  /**
   * Every reachable stream sends at most twice and never into a full channel, closes once, and copies exactly when
   * both sides are up.
   */
  lemma StreamMeaning(n: nat, run: seq<Event>, i: nat)
    requires Run(Start(n), run).Some? && i < n
    ensures var s := Run(Start(n), run).value.streams[i];
            && |s.sent| <= CAPACITY && s.closes <= 1
            && (s.phase.Sending? ==> |s.buffer| < CAPACITY)
            && (s.phase.Closed? ==> (s.copying <==> Initialized(s)))
            && (s.copying ==> s.phase.Closed?)
  {
    StartInv(n);
    RunInv(Start(n), run);
    assert StreamOk(Run(Start(n), run).value.streams[i]);
  }

  /** Under every ordering, what CreateTask receives is no error exactly when every configured stream initialized. */
  lemma JoinMeaning(n: nat, run: seq<Event>)
    requires Run(Start(n), run).Some? && Run(Start(n), run).value.received.Some?
    ensures var io := Run(Start(n), run).value;
            io.received.value.None? <==> forall i :: 0 <= i < n ==> Initialized(io.streams[i])
  {
    StartInv(n);
    RunInv(Start(n), run);
    var io := Run(Start(n), run).value;
    assert |io.streams| == n;
    forall i | 0 <= i < n ensures Initialized(io.streams[i]) <==> !Failed(io.streams[i].got) {
      assert StreamOk(io.streams[i]);
    }
  }

  /** And an error that it receives is one that a connector failed with. */
  lemma JoinError(n: nat, run: seq<Event>)
    requires Run(Start(n), run).Some?
    ensures var io := Run(Start(n), run).value;
            io.received.Some? && io.received.value.Some? ==>
              exists i :: 0 <= i < |io.streams| && IsErrorOf(io.streams[i], io.received.value.value)
  {
    StartInv(n);
    RunInv(Start(n), run);
    var io := Run(Start(n), run).value;
    if io.received.Some? && io.received.value.Some? {
      var i :| 0 <= i < |io.streams| && io.streams[i].got == Some(Some(io.groupErr.value));
      var s := io.streams[i];
      assert StreamOk(s);
      assert s.sent[0] == io.groupErr.value;
    }
  }

  // ---------------------------------------------------------------- it always finishes

  /** The steps a stream has left. */
  function StreamRank(s: Stream): nat {
    (if s.reader.None? then 2 else 0) + (if s.writer.None? then 2 else 0)
    + (if s.phase.Sending? then 1 else 0) + (if s.phase.Closed? then 0 else 1)
    + (if s.got.None? then 1 else 0)
  }

  function RankOf(streams: seq<Stream>): nat {
    if streams == [] then 0 else StreamRank(streams[0]) + RankOf(streams[1..])
  }

  function Rank(io: Io): nat {
    RankOf(io.streams) + (if io.received.None? then 1 else 0)
  }

  lemma {:induction false} RankUpdate(streams: seq<Stream>, i: nat, s: Stream)
    requires i < |streams|
    ensures RankOf(streams[i := s]) == RankOf(streams) - StreamRank(streams[i]) + StreamRank(s)
  {
    hide StreamRank;
    if i == 0 {
      assert streams[0 := s][1..] == streams[1..];
    } else {
      assert streams[i := s][1..] == streams[1..][i - 1 := s];
      RankUpdate(streams[1..], i - 1, s);
    }
  }

  lemma StepRank(io: Io, e: Event)
    requires Enabled(io, e)
    ensures Rank(Next(io, e)) < Rank(io)
  {
    if !e.Join? {
      var s := io.streams[e.i];
      assert StreamRank(StreamNext(s, e)) < StreamRank(s);
      RankUpdate(io.streams, e.i, StreamNext(s, e));
    }
  }

  /** Every run is short, and as long as CreateTask has not been answered there is a step to take. */
  lemma {:induction false} RunEnds(io: Io, run: seq<Event>)
    requires Run(io, run).Some?
    ensures |run| + Rank(Run(io, run).value) <= Rank(io)
    decreases |run|
  {
    hide Rank;
    if run != [] {
      StepRank(io, run[0]);
      RunEnds(Next(io, run[0]), run[1..]);
    }
  }

  /** Whatever the next connector's result is. */
  lemma NoDeadlock(n: nat, run: seq<Event>, r: Result) returns (e: Event)
    requires Run(Start(n), run).Some? && Run(Start(n), run).value.received.None?
    ensures Enabled(Run(Start(n), run).value, e) && (e.Select? ==> e.r == r)
  {
    StartInv(n);
    RunInv(Start(n), run);
    var io := Run(Start(n), run).value;
    if AllGot(io.streams) {
      e := Join;
    } else {
      var i :| 0 <= i < |io.streams| && io.streams[i].got.None?;
      var s := io.streams[i];
      assert StreamOk(s);
      e := match s.phase
        case Closed => Receive(i)
        case Sending(_) => Send(i)
        case Selecting =>
          if s.reader.None? then Select(i, true, r)
          else if s.writer.None? then Select(i, false, r)
          else Close(i);
    }
  }
}
