// The client side of a session: frames fill a replay and a live buffer, a
// reader takes chunks from them and is told once where the replay ends.
//
// A read that finds nothing waits with the lock released, so arrivals
// interleave between the two halves of a read.
module ClientBuffers {
  import opened Bytes

  const MAX_CLIENT_BUFFER: nat := 4 * 1024 * 1024

  /** What a reader is handed: bytes of one kind, the mark behind the replay, or the end. */
  datatype Chunk = Replay(data: bytes) | Boundary | Live(data: bytes) | Eof

  datatype Buffers = Buffers(replay: bytes, live: bytes, replaySeen: bool, boundaryEmitted: bool, done: bool)

  const EMPTY := Buffers([], [], false, false, false)

  datatype Outcome = Got(chunk: Chunk) | Waits

  /** Data appended to a bounded buffer: when it does not fit, what was buffered is given up. */
  function Appended(buf: bytes, data: bytes): bytes {
    if |buf| + |data| > MAX_CLIENT_BUFFER then Last(data, MAX_CLIENT_BUFFER) else buf + data
  }

  /**
   * Only the oldest bytes that must go do go exactly when all fits or the data
   * alone fills the buffer; otherwise buffered bytes are given up that would have fit.
   */
  lemma OnlyOldestDiscardedIff(buf: bytes, data: bytes)
    ensures Appended(buf, data) == Last(buf + data, MAX_CLIENT_BUFFER)
            <==> |buf| + |data| <= MAX_CLIENT_BUFFER || |data| >= MAX_CLIENT_BUFFER
    ensures |Appended(buf, data)| <= MAX_CLIENT_BUFFER
  {
    if |data| >= MAX_CLIENT_BUFFER {
      assert (buf + data)[|buf| + |data| - MAX_CLIENT_BUFFER..] == data[|data| - MAX_CLIENT_BUFFER..];
    }
  }

  /** An input that shows it: one byte more than fits, and a full buffer is down to that byte. */
  lemma FullBufferGivenUp(buf: bytes, b: byte)
    requires |buf| == MAX_CLIENT_BUFFER
    ensures Appended(buf, [b]) == [b] && |Last(buf + [b], MAX_CLIENT_BUFFER)| == MAX_CLIENT_BUFFER
  {}

  /** A read of at most `cap` bytes. */
  function Taken(buf: bytes, cap: nat): nat { if cap < |buf| then cap else |buf| }

  /** ReadFramed from its wait on. */
  function ResumeStep(b: Buffers, cap: nat): (Buffers, Outcome) {
    var n := Taken(b.live, cap);
    if b.live != [] then (b.(live := b.live[n..]), Got(Live(b.live[..n])))
    else if b.done then (b, Got(Eof))
    else (b, Waits)
  }

  /** ReadFramed up to its wait, or to its end when it need not wait. */
  function ReadStep(b: Buffers, cap: nat): (Buffers, Outcome) {
    var n := Taken(b.replay, cap);
    if b.replay != [] then (b.(replay := b.replay[n..]), Got(Replay(b.replay[..n])))
    else if b.replaySeen && !b.boundaryEmitted then (b.(boundaryEmitted := true), Got(Boundary))
    else ResumeStep(b, cap)
  }

  class DaemonSession {
    var replayBuf: bytes
    var liveBuf: bytes
    var replaySeen: bool
    var boundaryEmitted: bool
    var done: bool

    function View(): Buffers
      reads this
    {
      Buffers(replayBuf, liveBuf, replaySeen, boundaryEmitted, done)
    }

    constructor ()
      ensures View() == EMPTY
    {
      replayBuf, liveBuf := [], [];
      replaySeen, boundaryEmitted, done := false, false, false;
    }

    method AppendReplay(data: bytes)
      modifies this
      ensures View() == old(View()).(replay := Appended(old(replayBuf), data), replaySeen := true)
    {
      var kept := data;
      if |replayBuf| + |data| > MAX_CLIENT_BUFFER {
        replayBuf := [];
        if |data| > MAX_CLIENT_BUFFER {
          kept := data[|data| - MAX_CLIENT_BUFFER..];
        }
      }
      replayBuf := replayBuf + kept;
      replaySeen := true;
    }

    method AppendLive(data: bytes)
      modifies this
      ensures View() == old(View()).(live := Appended(old(liveBuf), data))
    {
      var kept := data;
      if |liveBuf| + |data| > MAX_CLIENT_BUFFER {
        liveBuf := [];
        if |data| > MAX_CLIENT_BUFFER {
          kept := data[|data| - MAX_CLIENT_BUFFER..];
        }
      }
      liveBuf := liveBuf + kept;
    }

    method SignalDone()
      modifies this
      ensures View() == old(View()).(done := true)
    {
      done := true;
    }

    /** ReadFramed after its wait; it waits again while there is nothing to return. */
    method Resume(cap: nat) returns (o: Outcome)
      modifies this
      ensures (View(), o) == ResumeStep(old(View()), cap)
    {
      if |liveBuf| == 0 && !done {
        return Waits;
      }
      if |liveBuf| > 0 {
        var n := Taken(liveBuf, cap);
        o := Got(Live(liveBuf[..n]));
        liveBuf := liveBuf[n..];
        return;
      }
      o := Got(Eof);
    }

    method ReadFramed(cap: nat) returns (o: Outcome)
      modifies this
      ensures (View(), o) == ReadStep(old(View()), cap)
    {
      if |replayBuf| > 0 {
        var n := Taken(replayBuf, cap);
        o := Got(Replay(replayBuf[..n]));
        replayBuf := replayBuf[n..];
        return;
      }
      if replaySeen && !boundaryEmitted {
        boundaryEmitted := true;
        return Got(Boundary);
      }
      o := Resume(cap);
    }
  }

  // ---- runs ----

  /**
   * The session with its one reader. The rest is history: what the reader was
   * handed, what arrived, and whether an arrival did not fit its buffer.
   */
  datatype State = State(
    b: Buffers, waiting: bool, log: seq<Chunk>,
    gotReplay: bytes, gotLive: bytes, spilledReplay: bool, spilledLive: bool)

  const INITIAL := State(EMPTY, false, [], [], [], false, false)

  datatype Action = ArriveReplay(data: bytes) | ArriveLive(data: bytes) | Finish | Read(cap: nat) | Wake(cap: nat)

  predicate Enabled(s: State, a: Action) {
    match a
    case Read(_) => !s.waiting
    case Wake(_) => s.waiting && (s.b.live != [] || s.b.done)
    case _ => true
  }

  function Answered(s: State, r: (Buffers, Outcome)): State {
    match r.1
    case Got(c) => s.(b := r.0, waiting := false, log := s.log + [c])
    case Waits => s.(b := r.0, waiting := true)
  }

  predicate Overflows(buf: bytes, data: bytes) { |buf| + |data| > MAX_CLIENT_BUFFER }

  function Do(s: State, a: Action): State {
    match a
    case ArriveReplay(data) =>
      s.(b := s.b.(replay := Appended(s.b.replay, data), replaySeen := true), gotReplay := s.gotReplay + data,
         spilledReplay := s.spilledReplay || Overflows(s.b.replay, data))
    case ArriveLive(data) =>
      s.(b := s.b.(live := Appended(s.b.live, data)), gotLive := s.gotLive + data,
         spilledLive := s.spilledLive || Overflows(s.b.live, data))
    case Finish => s.(b := s.b.(done := true))
    case Read(cap) => Answered(s, ReadStep(s.b, cap))
    case Wake(cap) => Answered(s, ResumeStep(s.b, cap))
  }

  ghost predicate StepAt(states: seq<State>, actions: seq<Action>, i: nat) {
    i < |actions| && |states| == |actions| + 1
    && Enabled(states[i], actions[i]) && states[i + 1] == Do(states[i], actions[i])
  }

  /** A run from any state. */
  ghost predicate RunFrom(s: State, states: seq<State>, actions: seq<Action>) {
    && |states| == |actions| + 1 && states[0] == s
    && (forall i :: 0 <= i < |actions| ==> StepAt(states, actions, i))
  }

  // ---- what the reader gets, byte for byte ----

  /** The bytes of one kind in what the reader was handed. */
  function ReplayData(log: seq<Chunk>): bytes {
    if log == [] then []
    else
      var c := log[|log| - 1];
      ReplayData(log[..|log| - 1]) + (if c.Replay? then c.data else [])
  }

  function LiveData(log: seq<Chunk>): bytes {
    if log == [] then []
    else
      var c := log[|log| - 1];
      LiveData(log[..|log| - 1]) + (if c.Live? then c.data else [])
  }

  lemma DataNext(log: seq<Chunk>, c: Chunk)
    ensures ReplayData(log + [c]) == ReplayData(log) + (if c.Replay? then c.data else [])
    ensures LiveData(log + [c]) == LiveData(log) + (if c.Live? then c.data else [])
  {
    assert (log + [c])[..|log|] == log;
  }

  /** `a` is `b` with some bytes left out. */
  predicate LeavesOut(a: bytes, b: bytes)
    decreases |b|
  {
    if a == [] then true
    else if b == [] then false
    else
      var x, y := a[|a| - 1], b[|b| - 1];
      || (x == y && LeavesOut(a[..|a| - 1], b[..|b| - 1]))
      || LeavesOut(a, b[..|b| - 1])
  }

  lemma {:induction false} LeavesOutMore(a: bytes, b: bytes, data: bytes)
    requires LeavesOut(a, b)
    ensures LeavesOut(a, b + data)
    decreases |data|
  {
    if data == [] {
      assert b + data == b;
    } else {
      LeavesOutMore(a, b, data[..|data| - 1]);
      assert (b + data)[..|b + data| - 1] == b + data[..|data| - 1];
    }
  }

  /** The same bytes at the end of both. */
  lemma {:induction false} LeavesOutAppend(a: bytes, b: bytes, data: bytes)
    requires LeavesOut(a, b)
    ensures LeavesOut(a + data, b + data)
    decreases |data|
  {
    if data == [] {
      assert a + data == a && b + data == b;
    } else {
      LeavesOutAppend(a, b, data[..|data| - 1]);
      assert (a + data)[..|a + data| - 1] == a + data[..|data| - 1];
      assert (b + data)[..|b + data| - 1] == b + data[..|data| - 1];
    }
  }

  lemma {:induction false} LeavesOutShorter(a: bytes, c: bytes, b: bytes)
    requires LeavesOut(a + c, b)
    ensures LeavesOut(a, b)
    decreases |b|
  {
    if c == [] {
      assert a + c == a;
    } else if a != [] {
      var n := |b| - 1;
      assert (a + c)[..|a + c| - 1] == a + c[..|c| - 1];
      if LeavesOut(a + c, b[..n]) {
        LeavesOutShorter(a, c, b[..n]);
      } else {
        LeavesOutShorter(a, c[..|c| - 1], b[..n]);
      }
      LeavesOutMore(a, b[..n], b[n..]);
      assert b[..n] + b[n..] == b;
    }
  }

  /**
   * What the reader got, then the buffer, is what arrived with some bytes left
   * out: none exactly while every arrival has fit.
   */
  ghost predicate Carried(out: bytes, buf: bytes, got: bytes, spilled: bool) {
    && |buf| <= MAX_CLIENT_BUFFER
    && LeavesOut(out + buf, got)
    && (if spilled then |out| + |buf| < |got| else out + buf == got)
  }

  lemma CarriedAppend(out: bytes, buf: bytes, got: bytes, spilled: bool, data: bytes)
    requires Carried(out, buf, got, spilled)
    ensures Carried(out, Appended(buf, data), got + data, spilled || Overflows(buf, data))
  {
    if !Overflows(buf, data) {
      LeavesOutAppend(out + buf, got, data);
      AppendAssoc(out, buf, data);
    } else {
      var kept := Last(data, MAX_CLIENT_BUFFER);
      var cut := data[..|data| - |kept|];
      assert cut + kept == data;
      LeavesOutShorter(out, buf, got);
      LeavesOutMore(out, got, cut);
      LeavesOutAppend(out, got + cut, kept);
      AppendAssoc(got, cut, kept);
    }
  }

  lemma CarriedTake(out: bytes, buf: bytes, got: bytes, spilled: bool, n: nat)
    requires Carried(out, buf, got, spilled) && n <= |buf|
    ensures Carried(out + buf[..n], buf[n..], got, spilled)
  {
    assert buf[..n] + buf[n..] == buf;
    AppendAssoc(out, buf[..n], buf[n..]);
  }

  ghost predicate Conserved(s: State) {
    && Carried(ReplayData(s.log), s.b.replay, s.gotReplay, s.spilledReplay)
    && Carried(LiveData(s.log), s.b.live, s.gotLive, s.spilledLive)
  }

  ghost predicate AtMostOnce(log: seq<Chunk>) {
    forall i, j :: 0 <= i < j < |log| ==> !(log[i].Boundary? && log[j].Boundary?)
  }

  /** The mark is handed out at most once, and only after a replay frame. */
  ghost predicate Marked(s: State) {
    && AtMostOnce(s.log)
    && (s.b.boundaryEmitted <==> Boundary in s.log)
    && (s.b.boundaryEmitted ==> s.b.replaySeen)
    && (!s.b.replaySeen ==> s.b.replay == [])
  }

  lemma ResumeConserves(s: State, cap: nat)
    requires Conserved(s)
    ensures Conserved(Answered(s, ResumeStep(s.b, cap)))
  {
    if s.b.live != [] {
      var n := Taken(s.b.live, cap);
      DataNext(s.log, Live(s.b.live[..n]));
      CarriedTake(LiveData(s.log), s.b.live, s.gotLive, s.spilledLive, n);
      EmptySlice(ReplayData(s.log), s.b.replay, 0);
    } else if s.b.done {
      NoDataNext(s.log, Eof);
    }
  }

  lemma NoDataNext(log: seq<Chunk>, c: Chunk)
    requires c == Boundary || c == Eof
    ensures ReplayData(log + [c]) == ReplayData(log) && LiveData(log + [c]) == LiveData(log)
  {
    DataNext(log, c);
  }

  lemma ReadConserves(s: State, cap: nat)
    requires Conserved(s)
    ensures Conserved(Answered(s, ReadStep(s.b, cap)))
  {
    if s.b.replay != [] {
      var n := Taken(s.b.replay, cap);
      DataNext(s.log, Replay(s.b.replay[..n]));
      CarriedTake(ReplayData(s.log), s.b.replay, s.gotReplay, s.spilledReplay, n);
      EmptySlice(LiveData(s.log), s.b.live, 0);
    } else if s.b.replaySeen && !s.b.boundaryEmitted {
      NoDataNext(s.log, Boundary);
    } else {
      ResumeConserves(s, cap);
    }
  }

  lemma StepsConserve(s: State, a: Action)
    requires Conserved(s) && Enabled(s, a)
    ensures Conserved(Do(s, a))
  {
    match a
    case ArriveReplay(data) =>
      CarriedAppend(ReplayData(s.log), s.b.replay, s.gotReplay, s.spilledReplay, data);
    case ArriveLive(data) =>
      CarriedAppend(LiveData(s.log), s.b.live, s.gotLive, s.spilledLive, data);
    case Finish =>
    case Read(cap) => ReadConserves(s, cap);
    case Wake(cap) => ResumeConserves(s, cap);
  }

  lemma StepsKeepMarks(s: State, a: Action)
    requires Marked(s) && Enabled(s, a)
    ensures Marked(Do(s, a))
  {}

  lemma {:induction false} RunsKeepInv(states: seq<State>, actions: seq<Action>, n: nat)
    requires RunFrom(INITIAL, states, actions) && n < |states|
    ensures forall k :: 0 <= k <= n ==> Conserved(states[k]) && Marked(states[k])
  {
    if n > 0 {
      RunsKeepInv(states, actions, n - 1);
      assert StepAt(states, actions, n - 1);
      StepsConserve(states[n - 1], actions[n - 1]);
      StepsKeepMarks(states[n - 1], actions[n - 1]);
    }
  }

  /**
   * In every run: bytes of each kind reach the reader in the order they came,
   * all of them exactly when every arrival fit its buffer; the mark comes at
   * most once, and only if there was a replay.
   */
  lemma BytesInOrder(states: seq<State>, actions: seq<Action>)
    requires RunFrom(INITIAL, states, actions)
    ensures forall n :: 0 <= n < |states| ==>
            var s := states[n];
            && LeavesOut(ReplayData(s.log) + s.b.replay, s.gotReplay)
            && LeavesOut(LiveData(s.log) + s.b.live, s.gotLive)
            && (ReplayData(s.log) + s.b.replay == s.gotReplay <==> !s.spilledReplay)
            && (LiveData(s.log) + s.b.live == s.gotLive <==> !s.spilledLive)
            && AtMostOnce(s.log) && (Boundary in s.log ==> s.b.replaySeen)
  {
    RunsKeepInv(states, actions, |states| - 1);
  }

  /** What a read is answered with: bytes if there are any, the end only when nothing is left. */
  predicate Fit(b: Buffers, c: Chunk) {
    match c
    case Replay(data) => data != []
    case Boundary => b.replaySeen
    case Live(data) => data != []
    case Eof => b.done && b.replay == [] && b.live == []
  }

  /** A read makes progress: it is answered unless there is nothing to hand out, and then it waits. */
  lemma ReadAnswered(s: State, cap: nat)
    requires !s.waiting && cap > 0
    ensures var b, t := s.b, Do(s, Read(cap));
            if b.replay != [] || (b.replaySeen && !b.boundaryEmitted) || b.live != [] || b.done
            then !t.waiting && |t.log| == |s.log| + 1 && t.log[..|s.log|] == s.log && Fit(b, t.log[|s.log|])
            else t == s.(waiting := true)
  {}

  /** And so does one that waited, once there is live data or the end. */
  lemma WakeAnswered(s: State, cap: nat)
    requires Enabled(s, Wake(cap)) && cap > 0
    ensures var b, t := s.b, Do(s, Wake(cap));
            !t.waiting && |t.log| == |s.log| + 1
            && t.log[|s.log|] == if b.live != [] then Live(b.live[..|b.live| - |t.b.live|]) else Eof
    ensures s.b.live != [] ==> |Do(s, Wake(cap)).b.live| < |s.b.live|
  {}

  /** Once the connection has ended it stays so. */
  lemma {:induction false} EndStays(states: seq<State>, actions: seq<Action>, i: nat, n: nat)
    requires RunFrom(INITIAL, states, actions) && i < n < |states| && actions[i] == Finish
    ensures states[n].b.done
    decreases n
  {
    assert StepAt(states, actions, n - 1);
    if i < n - 1 {
      EndStays(states, actions, i, n - 1);
    }
  }

  // ---- replay before the mark before live ----

  function Rank(c: Chunk): nat {
    match c
    case Replay(_) => 0
    case Boundary => 1
    case Live(_) => 2
    case Eof => 2
  }

  /** All replay chunks, then at most one mark, then the rest. */
  ghost predicate InOrder(log: seq<Chunk>) {
    && AtMostOnce(log)
    && forall i, j :: 0 <= i < j < |log| ==> Rank(log[i]) <= Rank(log[j])
  }

  /** The reader has passed the replay: it was handed something else, or waits for live data. */
  predicate Past(s: State) { s.waiting || (s.log != [] && !s.log[|s.log| - 1].Replay?) }

  /** A replay frame comes in time when the reader has not passed the replay, or would not notice it. */
  predicate Timely(s: State, data: bytes) { !Past(s) || (data == [] && s.b.boundaryEmitted) }

  ghost predicate TimelyAt(states: seq<State>, actions: seq<Action>, i: nat) {
    i < |actions| && i < |states| && (actions[i].ArriveReplay? ==> Timely(states[i], actions[i].data))
  }

  ghost predicate AllTimely(states: seq<State>, actions: seq<Action>) {
    forall i :: 0 <= i < |actions| ==> TimelyAt(states, actions, i)
  }

  /** The order holds so far, and a reader past the replay left nothing of it behind. */
  ghost predicate Ordered(s: State) {
    && Marked(s) && InOrder(s.log)
    && (Past(s) ==> s.b.replay == [] && (s.b.replaySeen ==> s.b.boundaryEmitted))
  }

  lemma OrderedNext(log: seq<Chunk>, c: Chunk)
    requires InOrder(log) && AtMostOnce(log + [c])
    requires log == [] || Rank(log[|log| - 1]) <= Rank(c)
    ensures InOrder(log + [c])
  {}

  lemma StepsKeepOrder(s: State, a: Action)
    requires Ordered(s) && Enabled(s, a) && (a.ArriveReplay? ==> Timely(s, a.data))
    ensures Ordered(Do(s, a))
  {
    StepsKeepMarks(s, a);
    var t := Do(s, a);
    if t.log != s.log {
      OrderedNext(s.log, t.log[|s.log|]);
    }
  }

  lemma {:induction false} TimelyRunsKeepOrder(s: State, states: seq<State>, actions: seq<Action>, n: nat)
    requires Ordered(s) && RunFrom(s, states, actions) && AllTimely(states, actions) && n < |states|
    ensures forall k :: 0 <= k <= n ==> Ordered(states[k])
  {
    if n > 0 {
      TimelyRunsKeepOrder(s, states, actions, n - 1);
      assert StepAt(states, actions, n - 1) && TimelyAt(states, actions, n - 1);
      StepsKeepOrder(states[n - 1], actions[n - 1]);
    }
  }

  /** Whatever comes next, as long as replay frames come in time, the reader sees the order kept. */
  ghost predicate StaysInOrder(s: State) {
    forall states: seq<State>, actions: seq<Action> :: RunFrom(s, states, actions) && AllTimely(states, actions) ==>
      InOrder(states[|states| - 1].log)
  }

  /**
   * The promised order. While replay frames come in time it holds, with the mark
   * handed out before any live data whenever there was a replay; and one frame
   * more leaves it standing exactly when that frame comes in time.
   */
  lemma ReplayFirstIff(states: seq<State>, actions: seq<Action>, n: nat, data: bytes)
    requires RunFrom(INITIAL, states, actions) && AllTimely(states, actions) && n < |states|
    ensures var s := states[n];
            && InOrder(s.log)
            && (Past(s) ==> (Boundary in s.log <==> s.b.replaySeen))
            && (StaysInOrder(Do(s, ArriveReplay(data))) <==> Timely(s, data))
  {
    TimelyRunsKeepOrder(INITIAL, states, actions, n);
    var s := states[n];
    var t := Do(s, ArriveReplay(data));
    if Timely(s, data) {
      StepsKeepOrder(s, ArriveReplay(data));
      forall ss: seq<State>, aa: seq<Action> | RunFrom(t, ss, aa) && AllTimely(ss, aa) ensures InOrder(ss[|ss| - 1].log) {
        TimelyRunsKeepOrder(t, ss, aa, |ss| - 1);
      }
    } else {
      var ss, aa := LateReplayBreaksOrder(s, data);
    }
  }

  lemma ReadOutOfOrder(t: State)
    requires !t.waiting && t.log != [] && (t.b.replay != [] || (t.b.replaySeen && !t.b.boundaryEmitted))
    requires Rank(t.log[|t.log| - 1]) == 2 || (t.b.replay != [] && t.log[|t.log| - 1].Boundary?)
    ensures !InOrder(Do(t, Read(1)).log)
  {
    var log := Do(t, Read(1)).log;
    assert log[|t.log| - 1] == t.log[|t.log| - 1] && Rank(log[|t.log|]) < Rank(log[|t.log| - 1]);
  }

  /** A replay frame that comes late is noticed: at most three steps later the order is broken. */
  lemma LateReplayBreaksOrder(s: State, data: bytes) returns (states: seq<State>, actions: seq<Action>)
    requires Ordered(s) && !Timely(s, data)
    ensures RunFrom(Do(s, ArriveReplay(data)), states, actions) && AllTimely(states, actions)
    ensures !InOrder(states[|states| - 1].log)
  {
    var t := Do(s, ArriveReplay(data));
    if t.waiting {
      var u := Do(t, ArriveLive([0]));
      var v := Do(u, Wake(1));
      ReadOutOfOrder(v);
      states, actions := [t, u, v, Do(v, Read(1))], [ArriveLive([0]), Wake(1), Read(1)];
      assert StepAt(states, actions, 0) && StepAt(states, actions, 1) && StepAt(states, actions, 2);
    } else {
      ReadOutOfOrder(t);
      states, actions := [t, Do(t, Read(1))], [Read(1)];
      assert StepAt(states, actions, 0);
    }
  }
}
