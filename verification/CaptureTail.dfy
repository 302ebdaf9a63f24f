// A bounded preview of a session's buffer. The client sends a query for the
// last bytes and takes the first frame that comes; the daemon greets every
// client with its whole buffer, answers the query behind that, and broadcasts
// output in between, so which frame is the first depends on the interleaving.
module CaptureTail {
  import opened Bytes
  import opened FrameCodec
  import opened Options
  import RingBuffer

  /** What the capture hands on: the raw bytes and which cleaning they get, or why it failed. */
  datatype Capture =
    | Nothing
    | Complete(raw: bytes)   // a whole buffer
    | Window(raw: bytes)     // may start mid-line
    | CutOff | TooLarge | UnexpectedFrame

  /** What is promised of a buffer: all of it if it is shorter than the window, else its last bytes. */
  function Tail(contents: bytes, maxBytes: nat): Capture {
    if contents == [] then Nothing
    else if |contents| < maxBytes then Complete(contents)
    else Window(Last(contents, maxBytes))
  }

  /** What CaptureTail makes of the first frame. The length is compared with a window cut to 32 bits. */
  function CaptureOf(f: Frame, maxBytes: nat): Capture {
    if f.ftype != FRAME_REPLAY then UnexpectedFrame
    else if f.payload == [] then Nothing
    else if |f.payload| < maxBytes % TWO_32 then Complete(Last(f.payload, maxBytes))
    else Window(Last(f.payload, maxBytes))
  }

  /** CaptureTail behind its query: the header, then what the window keeps of the payload. */
  method ReadCapture(stream: bytes, maxBytes: int) returns (c: Capture)
    ensures maxBytes <= 0 ==> c == Nothing
    ensures maxBytes > 0 && FrontOf(stream).Whole? ==> c == CaptureOf(FrontOf(stream).frame, maxBytes)
    ensures maxBytes > 0 && FrontOf(stream).Oversize? ==> c == TooLarge
    ensures maxBytes > 0 && FrontOf(stream).Incomplete? ==> c == CutOff || c == UnexpectedFrame
  {
    if maxBytes <= 0 {
      return Nothing;
    }
    if |stream| < 5 {
      return CutOff;
    }
    var ftype, plen := stream[0], ReadUint32(stream[1..5]);
    if plen > MAX_FRAME_PAYLOAD {
      return TooLarge;
    }
    if ftype != FRAME_REPLAY {
      return UnexpectedFrame;
    }
    if plen == 0 {
      return Nothing;
    }
    var pos, readLen := 5, plen;
    if readLen > maxBytes {
      pos := pos + (readLen - maxBytes);
      readLen := maxBytes;
    }
    if |stream| < pos + readLen {
      return CutOff;
    }
    var buf := stream[pos..pos + readLen];
    assert buf == Last(stream[5..5 + plen], maxBytes);
    if plen < maxBytes % TWO_32 {
      return Complete(buf);
    }
    c := Window(buf);
  }

  /** SnapshotTail on a buffer holding `contents`. */
  function TailReply(contents: bytes, maxBytes: nat): bytes {
    if maxBytes == 0 then [] else Last(contents, maxBytes)
  }

  /** The daemon's answer to a query: four bytes of payload bound the reply, anything else asks for all. */
  function QueryReply(contents: bytes, query: bytes): bytes {
    if |query| == 4 then TailReply(contents, ReadUint32(query)) else contents
  }

  /** The query the client sends: its window as a 32-bit number. */
  function QueryFor(maxBytes: nat): bytes { Uint32(maxBytes % TWO_32) }

  function Replay(contents: bytes): Frame { Frame(FRAME_REPLAY, contents) }

  /** The bounded answer to the client's query. */
  function Answer(contents: bytes, maxBytes: nat): Frame { Replay(QueryReply(contents, QueryFor(maxBytes))) }

  /** The whole buffer, as on connecting or from a daemon that ignores the bound, is captured as promised exactly then. */
  lemma WholeBufferIff(contents: bytes, maxBytes: nat)
    requires maxBytes > 0 && |contents| <= MAX_FRAME_PAYLOAD
    ensures CaptureOf(Replay(contents), maxBytes) == Tail(contents, maxBytes)
            <==> contents == [] || maxBytes < TWO_32 || |contents| < maxBytes % TWO_32
  {
    if maxBytes < TWO_32 {
      assert maxBytes % TWO_32 == maxBytes;
    }
  }

  lemma AnswerPayload(contents: bytes, maxBytes: nat)
    ensures Answer(contents, maxBytes).payload == TailReply(contents, maxBytes % TWO_32)
  {
    ReadBack(maxBytes % TWO_32);
  }

  /** And the bounded answer exactly under the same condition. */
  lemma BoundedAnswerIff(contents: bytes, maxBytes: nat)
    requires maxBytes > 0 && |contents| <= MAX_FRAME_PAYLOAD
    ensures CaptureOf(Answer(contents, maxBytes), maxBytes) == Tail(contents, maxBytes)
            <==> contents == [] || maxBytes < TWO_32 || |contents| < maxBytes % TWO_32
  {
    AnswerPayload(contents, maxBytes);
    var u := maxBytes % TWO_32;
    if maxBytes < TWO_32 {
      assert u == maxBytes;
    }
  }

  // ---- the daemon's side of one connection ----

  /** Where handleClient is. */
  datatype Phase = Accepted | Registered | Greeted | Answered | Gone

  /**
   * The buffer, the output written to it but not yet broadcast, and the frames
   * queued for this client. `first` is history: the buffer when the first frame
   * was queued.
   */
  datatype State = State(ring: bytes, pump: Option<bytes>, phase: Phase, wire: seq<Frame>, first: bytes)

  /** Queueing fails when the client's queue is full, which it is not before the first frame. */
  datatype Action = Output(data: bytes) | Broadcast(queued: bool) | AddClient | Greet(queued: bool) | AnswerQuery(queued: bool)

  predicate Enabled(s: State, a: Action) {
    match a
    case Output(data) => s.pump.None? && data != []
    case Broadcast(queued) => s.pump.Some? && (queued || s.wire != [])
    case AddClient => s.phase == Accepted
    case Greet(queued) => s.phase == Registered && (queued || (s.wire != [] && s.ring != []))
    case AnswerQuery(queued) => s.phase == Greeted && (queued || s.wire != [])
  }

  function Queue(s: State, f: Frame): State {
    s.(wire := s.wire + [f], first := if s.wire == [] then s.ring else s.first)
  }

  function Do(s: State, a: Action, capacity: nat, maxBytes: nat): State
    requires Enabled(s, a)
  {
    match a
    case Output(data) => s.(ring := Last(s.ring + data, capacity), pump := Some(data))
    case Broadcast(queued) =>
      var t := s.(pump := None);
      if queued && s.phase != Accepted && s.phase != Gone then Queue(t, Frame(FRAME_OUTPUT, s.pump.value)) else t
    case AddClient => s.(phase := Registered)
    case Greet(queued) =>
      if s.ring == [] then s.(phase := Greeted)
      else if queued then Queue(s.(phase := Greeted), Replay(s.ring))
      else s.(phase := Gone)
    case AnswerQuery(queued) =>
      if queued then Queue(s.(phase := Answered), Answer(s.ring, maxBytes)) else s.(phase := Answered)
  }

  /** A client has just connected to a session with any buffer, at any point of its output. */
  predicate Start(s: State, capacity: nat) {
    |s.ring| <= capacity && s.phase == Accepted && s.wire == [] && s.first == []
  }

  ghost predicate StepAt(states: seq<State>, actions: seq<Action>, capacity: nat, maxBytes: nat, i: nat) {
    i < |actions| && |states| == |actions| + 1
    && Enabled(states[i], actions[i]) && states[i + 1] == Do(states[i], actions[i], capacity, maxBytes)
  }

  ghost predicate RunFrom(s: State, states: seq<State>, actions: seq<Action>, capacity: nat, maxBytes: nat) {
    && |states| == |actions| + 1 && states[0] == s
    && (forall i :: 0 <= i < |actions| ==> StepAt(states, actions, capacity, maxBytes, i))
  }

  /** The first frame is output, or the greeting or answer made from the buffer of that moment. */
  ghost predicate Inv(s: State, capacity: nat, maxBytes: nat) {
    && |s.ring| <= capacity && |s.first| <= capacity
    && (s.wire == [] ==> s.phase == Accepted || s.phase == Registered || s.phase == Greeted)
    && (s.wire != [] ==> s.wire[0].ftype == FRAME_OUTPUT || s.wire[0] == Replay(s.first)
                         || s.wire[0] == Answer(s.first, maxBytes))
  }

  lemma StepsKeepInv(s: State, a: Action, capacity: nat, maxBytes: nat)
    requires Inv(s, capacity, maxBytes) && Enabled(s, a)
    ensures Inv(Do(s, a, capacity, maxBytes), capacity, maxBytes)
    ensures s.wire != [] ==> Do(s, a, capacity, maxBytes).wire != [] && Do(s, a, capacity, maxBytes).wire[0] == s.wire[0]
  {}

  lemma {:induction false} RunsKeepInv(s: State, states: seq<State>, actions: seq<Action>, capacity: nat, maxBytes: nat, n: nat)
    requires Inv(s, capacity, maxBytes) && RunFrom(s, states, actions, capacity, maxBytes) && n < |states|
    ensures forall k :: 0 <= k <= n ==>
              Inv(states[k], capacity, maxBytes)
              && (s.wire != [] ==> states[k].wire != [] && states[k].wire[0] == s.wire[0])
  {
    if n > 0 {
      RunsKeepInv(s, states, actions, capacity, maxBytes, n - 1);
      assert StepAt(states, actions, capacity, maxBytes, n - 1);
      StepsKeepInv(states[n - 1], actions[n - 1], capacity, maxBytes);
    }
  }

  /** The output of a run. */
  function OutputOf(actions: seq<Action>): bytes {
    if actions == [] then []
    else
      var a := actions[|actions| - 1];
      OutputOf(actions[..|actions| - 1]) + if a.Output? then a.data else []
  }

  lemma LastAgain(x: bytes, d: bytes, n: nat)
    ensures Last(Last(x, n) + d, n) == Last(x + d, n)
  {
    RingBuffer.LastOfParts(x, d, n);
    RingBuffer.LastOfParts(Last(x, n), d, n);
    RingBuffer.LastOfLast(x, n, n);
  }

  /** In every run the buffer is the last of what it held at first and of the output since. */
  lemma {:induction false} RingIsLast(s: State, states: seq<State>, actions: seq<Action>, capacity: nat, maxBytes: nat, n: nat)
    requires Start(s, capacity) && RunFrom(s, states, actions, capacity, maxBytes) && n < |states|
    ensures states[n].ring == Last(s.ring + OutputOf(actions[..n]), capacity)
  {
    if n == 0 {
      assert s.ring + [] == s.ring;
    } else {
      RingIsLast(s, states, actions, capacity, maxBytes, n - 1);
      assert StepAt(states, actions, capacity, maxBytes, n - 1);
      assert actions[..n][..n - 1] == actions[..n - 1];
      var a, before := actions[n - 1], OutputOf(actions[..n - 1]);
      if a.Output? {
        LastAgain(s.ring + before, a.data, capacity);
        assert s.ring + before + a.data == s.ring + (before + a.data);
      } else {
        assert before + [] == before;
      }
    }
  }

  /** A client whose query was answered has a frame to read, and so has one greeted on a session with a buffer. */
  ghost predicate Served(t: State, buffered: bool) {
    && (t.phase == Answered ==> t.wire != [])
    && (buffered ==> t.ring != [] && (t.phase == Greeted ==> t.wire != []))
  }

  lemma {:induction false} ClientIsServed(s: State, states: seq<State>, actions: seq<Action>, capacity: nat, maxBytes: nat, n: nat)
    requires Start(s, capacity) && RunFrom(s, states, actions, capacity, maxBytes) && n < |states|
    ensures forall k :: 0 <= k <= n ==> Served(states[k], s.ring != [])
  {
    if n > 0 {
      ClientIsServed(s, states, actions, capacity, maxBytes, n - 1);
      assert StepAt(states, actions, capacity, maxBytes, n - 1);
      ServedNext(states[n - 1], actions[n - 1], capacity, maxBytes, s.ring != []);
    }
  }

  /** A client that has connected can be served: greeted, then answered. */
  lemma CanBeServed(s: State, capacity: nat, maxBytes: nat)
    requires s.phase == Accepted
    ensures var greeted := Do(Do(s, AddClient, capacity, maxBytes), Greet(true), capacity, maxBytes);
            Enabled(greeted, AnswerQuery(true)) && Do(greeted, AnswerQuery(true), capacity, maxBytes).phase == Answered
  {}

  lemma ServedNext(t: State, a: Action, capacity: nat, maxBytes: nat, buffered: bool)
    requires Served(t, buffered) && Enabled(t, a) && (buffered ==> capacity > 0)
    ensures Served(Do(t, a, capacity, maxBytes), buffered)
  {}

  lemma FirstFrameRead(wire: seq<Frame>)
    requires wire != [] && Fits(wire[0])
    ensures FrontOf(EncodeAll(wire)) == Whole(wire[0], |Encode(wire[0])|)
  {
    FrontOfEncoded(wire[0], EncodeAll(wire[1..]));
  }

  /**
   * What a capture keeps in every run, for a window below 4 GiB on a buffer that
   * fits a frame: if the first frame is a replay, the last bytes of the buffer
   * at the moment it was queued, cleaned as a whole buffer exactly when that
   * is shorter than the window; otherwise the capture fails.
   */
  lemma CaptureIsTail(s: State, states: seq<State>, actions: seq<Action>, capacity: nat, maxBytes: nat, n: nat)
    requires Start(s, capacity) && RunFrom(s, states, actions, capacity, maxBytes) && n < |states|
    requires 0 < maxBytes < TWO_32 && capacity <= MAX_FRAME_PAYLOAD && states[n].wire != []
    ensures var t := states[n];
            if t.wire[0].ftype == FRAME_REPLAY
            then FrontOf(EncodeAll(t.wire)).Whole? && FrontOf(EncodeAll(t.wire)).frame == t.wire[0]
                 && CaptureOf(t.wire[0], maxBytes) == Tail(t.first, maxBytes)
            else CaptureOf(t.wire[0], maxBytes) == UnexpectedFrame
  {
    RunsKeepInv(s, states, actions, capacity, maxBytes, n);
    var t := states[n];
    if t.wire[0].ftype == FRAME_REPLAY {
      AnswerPayload(t.first, maxBytes);
      FirstFrameRead(t.wire);
      WholeBufferIff(t.first, maxBytes);
      BoundedAnswerIff(t.first, maxBytes);
    }
  }

  /** Whatever the buffer and the interleaving, a replay that comes first is captured as promised. */
  ghost predicate AlwaysTail(capacity: nat, maxBytes: nat) {
    forall s: State, states: seq<State>, actions: seq<Action> ::
      Start(s, capacity) && RunFrom(s, states, actions, capacity, maxBytes) ==>
        KeepsTail(states[|states| - 1], maxBytes)
  }

  ghost predicate KeepsTail(t: State, maxBytes: nat) {
    t.wire != [] && t.wire[0].ftype == FRAME_REPLAY ==> CaptureOf(t.wire[0], maxBytes) == Tail(t.first, maxBytes)
  }

  /** Exactly the windows that 32 bits hold, or that keep more than the buffer once cut to 32 bits, are safe. */
  lemma WindowIff(capacity: nat, maxBytes: nat)
    requires 0 < capacity <= MAX_FRAME_PAYLOAD && maxBytes > 0
    ensures AlwaysTail(capacity, maxBytes) <==> maxBytes < TWO_32 || capacity < maxBytes % TWO_32
  {
    if maxBytes < TWO_32 || capacity < maxBytes % TWO_32 {
      forall s: State, states: seq<State>, actions: seq<Action>
        | Start(s, capacity) && RunFrom(s, states, actions, capacity, maxBytes)
        ensures KeepsTail(states[|states| - 1], maxBytes)
      {
        RunsKeepInv(s, states, actions, capacity, maxBytes, |states| - 1);
        var t := states[|states| - 1];
        WholeBufferIff(t.first, maxBytes);
        BoundedAnswerIff(t.first, maxBytes);
      }
    } else {
      var contents := seq(capacity, _ => 0);
      WrongCleaning(contents, capacity, maxBytes);
      var s := State(contents, None, Accepted, [], []);
      var states: seq<State>, actions: seq<Action> :| RunFrom(s, states, actions, capacity, maxBytes)
        && states[|states| - 1].wire == [Replay(contents)] && states[|states| - 1].first == contents;
      assert Start(s, capacity) && !KeepsTail(states[|states| - 1], maxBytes);
    }
  }

  /** The greeting alone shows it: a complete buffer is taken for one that starts mid-line. */
  lemma WrongCleaning(contents: bytes, capacity: nat, maxBytes: nat)
    requires contents != [] && |contents| <= capacity <= MAX_FRAME_PAYLOAD
    requires maxBytes >= TWO_32 && |contents| >= maxBytes % TWO_32
    ensures exists states: seq<State>, actions: seq<Action> ::
              RunFrom(State(contents, None, Accepted, [], []), states, actions, capacity, maxBytes)
              && states[|states| - 1].wire == [Replay(contents)] && states[|states| - 1].first == contents
    ensures CaptureOf(Replay(contents), maxBytes) == Window(contents)
    ensures Tail(contents, maxBytes) == Complete(contents)
  {
    var s := State(contents, None, Accepted, [], []);
    var t := Do(s, AddClient, capacity, maxBytes);
    var states, actions := [s, t, Do(t, Greet(true), capacity, maxBytes)], [AddClient, Greet(true)];
    assert StepAt(states, actions, capacity, maxBytes, 0) && StepAt(states, actions, capacity, maxBytes, 1);
    assert RunFrom(s, states, actions, capacity, maxBytes);
  }

  /** However the daemon goes on, the capture does not fail on a frame it does not expect. */
  ghost predicate NeverRefused(s: State, capacity: nat, maxBytes: nat) {
    forall states: seq<State>, actions: seq<Action> :: RunFrom(s, states, actions, capacity, maxBytes) ==>
      !Refused(states[|states| - 1], maxBytes)
  }

  predicate Refused(t: State, maxBytes: nat) {
    t.wire != [] && CaptureOf(t.wire[0], maxBytes) == UnexpectedFrame
  }

  /**
   * Output broadcast before the greeting, or before the answer when there was
   * nothing to greet with, makes the capture fail: only a replay already queued
   * rules that out.
   */
  lemma NeverRefusedIff(s: State, capacity: nat, maxBytes: nat)
    requires Inv(s, capacity, maxBytes)
    ensures NeverRefused(s, capacity, maxBytes) <==> s.wire != [] && s.wire[0].ftype == FRAME_REPLAY
  {
    if s.wire != [] && s.wire[0].ftype == FRAME_REPLAY {
      forall states: seq<State>, actions: seq<Action> | RunFrom(s, states, actions, capacity, maxBytes)
        ensures !Refused(states[|states| - 1], maxBytes)
      {
        RunsKeepInv(s, states, actions, capacity, maxBytes, |states| - 1);
      }
    } else {
      OutputFirst(s, capacity, maxBytes);
    }
  }

  /** Output reached the client's empty wire by this step. */
  predicate Overtakes(s: State, a: Action) {
    a == Broadcast(true) && s.wire == [] && (s.phase == Registered || s.phase == Greeted)
  }

  ghost predicate OvertakesAt(states: seq<State>, actions: seq<Action>, i: nat) {
    i < |states| && i < |actions| && Overtakes(states[i], actions[i])
  }

  /** In every run: the capture is refused exactly when output was broadcast to the client before any replay was queued. */
  lemma {:induction false} RefusedIffOvertaken(s: State, states: seq<State>, actions: seq<Action>,
                                               capacity: nat, maxBytes: nat, n: nat)
    requires Start(s, capacity) && RunFrom(s, states, actions, capacity, maxBytes) && n < |states|
    ensures Refused(states[n], maxBytes) <==> exists i :: 0 <= i < n && OvertakesAt(states, actions, i)
  {
    if n > 0 {
      RefusedIffOvertaken(s, states, actions, capacity, maxBytes, n - 1);
      RunsKeepInv(s, states, actions, capacity, maxBytes, n - 1);
      assert StepAt(states, actions, capacity, maxBytes, n - 1);
      RefusedNext(states[n - 1], actions[n - 1], capacity, maxBytes);
      assert OvertakesAt(states, actions, n - 1) <==> Overtakes(states[n - 1], actions[n - 1]);
    }
  }

  lemma RefusedNext(s: State, a: Action, capacity: nat, maxBytes: nat)
    requires Inv(s, capacity, maxBytes) && Enabled(s, a)
    ensures Refused(Do(s, a, capacity, maxBytes), maxBytes) <==> Refused(s, maxBytes) || Overtakes(s, a)
  {
    StepsKeepInv(s, a, capacity, maxBytes);
  }

  lemma OutputFirst(s: State, capacity: nat, maxBytes: nat)
    requires Inv(s, capacity, maxBytes) && (s.wire == [] || s.wire[0].ftype == FRAME_OUTPUT)
    ensures exists states: seq<State>, actions: seq<Action> ::
              RunFrom(s, states, actions, capacity, maxBytes) && Refused(states[|states| - 1], maxBytes)
  {
    var states, actions := [s], [];
    if s.wire == [] {
      var last := s;
      if s.phase == Accepted {
        states, actions, last := Extend(s, states, actions, AddClient, capacity, maxBytes);
      }
      if s.pump.None? {
        states, actions, last := Extend(s, states, actions, Output([0]), capacity, maxBytes);
      }
      states, actions, last := Extend(s, states, actions, Broadcast(true), capacity, maxBytes);
    }
    assert RunFrom(s, states, actions, capacity, maxBytes) && Refused(states[|states| - 1], maxBytes);
  }

  lemma Extend(s: State, states: seq<State>, actions: seq<Action>, a: Action, capacity: nat, maxBytes: nat)
    returns (states': seq<State>, actions': seq<Action>, last: State)
    requires RunFrom(s, states, actions, capacity, maxBytes) && Enabled(states[|states| - 1], a)
    ensures RunFrom(s, states', actions', capacity, maxBytes)
    ensures last == states'[|states'| - 1] == Do(states[|states| - 1], a, capacity, maxBytes)
  {
    last := Do(states[|states| - 1], a, capacity, maxBytes);
    states', actions' := states + [last], actions + [a];
    forall i | 0 <= i < |actions'| ensures StepAt(states', actions', capacity, maxBytes, i) {
      assert i < |actions| ==> StepAt(states, actions, capacity, maxBytes, i);
    }
  }
}
