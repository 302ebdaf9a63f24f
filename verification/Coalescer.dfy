// The output coalescer: terminal output arrives in chunks of any size, leaves in
// binary frames of bounded size, and shares its connection with control frames.
//
// The first half is the frame-building code, proved in class form against pure
// functions. The second half is the select loop with its channels as a state
// machine, in which senders may act between any two steps of the loop.
module Coalescer {
  import opened Bytes

  const QUEUE_CAPACITY: nat := 16
  const PONG_CAPACITY: nat := 4
  const CONTROL_CAPACITY: nat := 8

  /** A frame that reached the connection. `after` counts the output bytes taken before a control frame. */
  datatype Written =
    | Binary(data: bytes)
    | Pong
    | Control(payload: bytes, after: nat)

  /** What run() keeps: the frames written, how many writes were tried, the buffer, and the statistics. */
  datatype Out = Out(log: seq<Written>, tries: nat, buffered: bytes, frames: nat, sent: nat)

  /** The connection: the size limit of a frame, and which write attempts succeed. */
  datatype Link = Link(maxFrame: nat, ok: nat -> bool) {
    /** Once a write has failed, every later one fails. */
    ghost predicate Sticky() { forall i: nat, j: nat :: i <= j && !ok(i) ==> !ok(j) }
  }

  /** The output bytes of a log, in order. */
  function Sent(log: seq<Written>): bytes {
    if log == [] then []
    else if log[|log| - 1].Binary? then Sent(log[..|log| - 1]) + log[|log| - 1].data
    else Sent(log[..|log| - 1])
  }

  function BinaryFrames(log: seq<Written>): nat {
    if log == [] then 0 else BinaryFrames(log[..|log| - 1]) + if log[|log| - 1].Binary? then 1 else 0
  }

  lemma SentLast(log: seq<Written>, w: Written)
    ensures Sent(log + [w]) == Sent(log) + (if w.Binary? then w.data else [])
    ensures BinaryFrames(log + [w]) == BinaryFrames(log) + if w.Binary? then 1 else 0
  {
    assert (log + [w])[..|log|] == log;
  }

  datatype Result = Result(out: Out, success: bool)

  /** writeFrame */
  function WriteFrame(o: Out, w: Written, link: Link): Result {
    if link.ok(o.tries) then
      Result(o.(log := o.log + [w], tries := o.tries + 1,
                frames := if w.Binary? then o.frames + 1 else o.frames,
                sent := if w.Binary? then o.sent + |w.data| else o.sent), true)
    else Result(o.(tries := o.tries + 1), false)
  }

  /** flush: the buffer is given up before the write, whatever its outcome. */
  function Flush(o: Out, link: Link): Result {
    if o.buffered == [] then Result(o, true)
    else WriteFrame(o.(buffered := []), Binary(o.buffered), link)
  }

  /** appendChunk, one round of its loop after the other. */
  function AppendChunk(o: Out, chunk: bytes, link: Link): Result
    requires link.maxFrame > 0 && |o.buffered| <= link.maxFrame
    decreases |chunk|, |o.buffered|
  {
    if chunk == [] then Result(o, true)
    else if |o.buffered| == link.maxFrame then
      var r := Flush(o, link);
      if r.success then AppendChunk(r.out, chunk, link) else r
    else
      var room := link.maxFrame - |o.buffered|;
      var count := if room < |chunk| then room else |chunk|;
      var o' := o.(buffered := o.buffered + chunk[..count]);
      if |o'.buffered| == link.maxFrame then
        var r := Flush(o', link);
        if r.success then AppendChunk(r.out, chunk[count..], link) else r
      else AppendChunk(o', chunk[count..], link)
  }

  /** processControl: what is buffered goes first. */
  function ProcessControl(o: Out, payload: bytes, after: nat, link: Link): Result {
    var r := Flush(o, link);
    if r.success then WriteFrame(r.out, Control(payload, after), link) else r
  }

  class OutputCoalescer {
    const link: Link
    var log: seq<Written>
    var tries: nat
    var buffered: bytes
    var frames: nat
    var sent: nat

    function View(): Out
      reads this
    {
      Out(log, tries, buffered, frames, sent)
    }

    constructor (link: Link)
      ensures this.link == link && View() == Out([], 0, [], 0, 0)
    {
      this.link := link;
      log, tries, buffered, frames, sent := [], 0, [], 0, 0;
    }

    method WriteOne(w: Written) returns (success: bool)
      modifies this
      ensures Result(View(), success) == WriteFrame(old(View()), w, link)
    {
      success := link.ok(tries);
      tries := tries + 1;
      if !success {
        return;
      }
      log := log + [w];
      if w.Binary? {
        frames := frames + 1;
        sent := sent + |w.data|;
      }
    }

    method FlushBuffer() returns (success: bool)
      modifies this
      ensures Result(View(), success) == Flush(old(View()), link)
    {
      if |buffered| == 0 {
        return true;
      }
      var payload := buffered;
      buffered := [];
      success := WriteOne(Binary(payload));
    }

    method Append(chunk: bytes) returns (success: bool)
      requires link.maxFrame > 0 && |buffered| <= link.maxFrame
      modifies this
      ensures Result(View(), success) == AppendChunk(old(View()), chunk, link)
    {
      var rest := chunk;
      while |rest| > 0
        invariant |buffered| <= link.maxFrame
        invariant AppendChunk(View(), rest, link) == AppendChunk(old(View()), chunk, link)
        decreases |rest|
      {
        var available := link.maxFrame - |buffered|;
        if available == 0 {
          var flushed := FlushBuffer();
          if !flushed {
            return false;
          }
          available := link.maxFrame;
        }
        var count := if available < |rest| then available else |rest|;
        buffered := buffered + rest[..count];
        rest := rest[count..];
        if |buffered| == link.maxFrame {
          var flushed := FlushBuffer();
          if !flushed {
            return false;
          }
        }
      }
      success := true;
    }

    method Process(payload: bytes, after: nat) returns (success: bool)
      modifies this
      ensures Result(View(), success) == ProcessControl(old(View()), payload, after, link)
    {
      success := FlushBuffer();
      if !success {
        return;
      }
      success := WriteOne(Control(payload, after));
    }
  }

  // ---- what one piece of work does ----

  /** No write among the first `n` failed. */
  ghost predicate Clean(link: Link, n: nat) { forall i: nat :: i < n ==> link.ok(i) }

  /** Frames are never empty nor over the limit, and the statistics count what was written. */
  ghost predicate WellFormed(o: Out, link: Link) {
    && link.maxFrame > 0
    && |o.buffered| <= link.maxFrame
    && (forall i :: 0 <= i < |o.log| && o.log[i].Binary? ==> 1 <= |o.log[i].data| <= link.maxFrame)
    && o.frames == BinaryFrames(o.log) && o.sent == |Sent(o.log)|
  }

  /** The log only grows, and not at all once sticky writes have failed. */
  ghost predicate Extends(o: Out, p: Out, link: Link) {
    && o.tries <= p.tries
    && o.log <= p.log
    && (link.Sticky() && !Clean(link, o.tries) ==> p.log == o.log)
  }

  lemma WriteFrameEffect(o: Out, w: Written, link: Link)
    requires WellFormed(o, link) && (w.Binary? ==> 1 <= |w.data| <= link.maxFrame)
    ensures var r := WriteFrame(o, w, link);
            && WellFormed(r.out, link) && Extends(o, r.out, link)
            && r.out.buffered == o.buffered && r.out.tries == o.tries + 1
            && (r.success <==> link.ok(o.tries))
            && r.out.log == (if r.success then o.log + [w] else o.log)
            && Sent(r.out.log) == Sent(o.log) + (if r.success && w.Binary? then w.data else [])
  {
    SentLast(o.log, w);
  }

  /**
   * Work that takes `input` in: if every write succeeds, wire and buffer
   * together grow by exactly `input`; if one fails, the wire still holds a
   * prefix of that.
   */
  ghost predicate Carries(o: Out, r: Result, input: bytes, link: Link) {
    && WellFormed(r.out, link) && Extends(o, r.out, link)
    && (r.success ==> Sent(r.out.log) + r.out.buffered == Sent(o.log) + o.buffered + input)
    && (r.success && Clean(link, o.tries) ==> Clean(link, r.out.tries))
    && (!r.success ==> !Clean(link, r.out.tries))
    && Sent(r.out.log) <= Sent(o.log) + o.buffered + input
  }

  lemma FlushCarries(o: Out, link: Link)
    requires WellFormed(o, link)
    ensures var r := Flush(o, link);
            Carries(o, r, [], link) && r.out.buffered == [] && NoControls(o.log, r.out.log)
  {
    assert Sent(o.log) + [] == Sent(o.log) && Sent(o.log) + o.buffered + [] == Sent(o.log) + o.buffered;
    if o.buffered != [] {
      WriteFrameEffect(o.(buffered := []), Binary(o.buffered), link);
      var r := Flush(o, link);
      assert Sent(r.out.log) + [] == Sent(r.out.log);
    }
  }

  /** What was added to the log holds no control frame. */
  ghost predicate NoControls(before: seq<Written>, after: seq<Written>) {
    forall i :: |before| <= i < |after| ==> !after[i].Control?
  }

  lemma CarriesTwice(o: Out, p: Out, r: Result, x: bytes, y: bytes, link: Link)
    requires Carries(o, Result(p, true), x, link) && Carries(p, r, y, link)
    ensures Carries(o, r, x + y, link)
  {
    var base := Sent(o.log) + o.buffered;
    AppendAssoc(base, x, y);
    if link.Sticky() && !Clean(link, o.tries) {
      assert !Clean(link, p.tries);
    }
  }

  lemma BufferCarries(o: Out, x: bytes, link: Link)
    requires WellFormed(o, link) && |o.buffered + x| <= link.maxFrame
    ensures Carries(o, Result(o.(buffered := o.buffered + x), true), x, link)
  {
    AppendAssoc(Sent(o.log), o.buffered, x);
  }

  lemma {:induction false} AppendChunkCarries(o: Out, chunk: bytes, link: Link)
    requires WellFormed(o, link)
    ensures var r := AppendChunk(o, chunk, link);
            && Carries(o, r, chunk, link) && NoControls(o.log, r.out.log)
            && (|o.buffered| < link.maxFrame || chunk != [] ==> |r.out.buffered| < link.maxFrame)
    decreases |chunk|, |o.buffered|
  {
    if chunk == [] {
      assert Sent(o.log) + o.buffered + [] == Sent(o.log) + o.buffered;
    } else if |o.buffered| == link.maxFrame {
      FlushThenCarries(o, chunk, link);
      var f := Flush(o, link);
      if f.success {
        AppendChunkCarries(f.out, chunk, link);
        CarriesTwice(o, f.out, AppendChunk(f.out, chunk, link), [], chunk, link);
        assert [] + chunk == chunk;
      }
    } else {
      var room := link.maxFrame - |o.buffered|;
      var count := if room < |chunk| then room else |chunk|;
      var x, rest := chunk[..count], chunk[count..];
      var o' := o.(buffered := o.buffered + x);
      BufferCarries(o, x, link);
      assert x + rest == chunk;
      if |o'.buffered| == link.maxFrame {
        FlushThenCarries(o', rest, link);
        CarriesOnFailure(o, o', Flush(o', link), x, rest, link);
        var f := Flush(o', link);
        if f.success {
          AppendChunkCarries(f.out, rest, link);
          CarriesTwice(o', f.out, AppendChunk(f.out, rest, link), [], rest, link);
          assert [] + rest == rest;
          CarriesTwice(o, o', AppendChunk(f.out, rest, link), x, rest, link);
        }
      } else {
        AppendChunkCarries(o', rest, link);
        CarriesTwice(o, o', AppendChunk(o', rest, link), x, rest, link);
      }
    }
  }

  /** A failed flush leaves the wire at a prefix of anything that was still to come. */
  lemma FlushThenCarries(o: Out, more: bytes, link: Link)
    requires WellFormed(o, link)
    ensures var f := Flush(o, link);
            && Carries(o, f, [], link) && f.out.buffered == [] && NoControls(o.log, f.out.log)
            && (!f.success ==> Carries(o, f, more, link))
  {
    FlushCarries(o, link);
    var f := Flush(o, link);
    var base := Sent(o.log) + o.buffered;
    assert base + [] == base;
    assert base <= base + more;
  }

  lemma CarriesOnFailure(o: Out, p: Out, f: Result, x: bytes, y: bytes, link: Link)
    requires Carries(o, Result(p, true), x, link)
    requires !f.success ==> Carries(p, f, y, link)
    ensures !f.success ==> Carries(o, f, x + y, link)
  {
    if !f.success {
      CarriesTwice(o, p, f, x, y, link);
    }
  }

  lemma ProcessControlCarries(o: Out, payload: bytes, after: nat, link: Link)
    requires WellFormed(o, link)
    ensures var r := ProcessControl(o, payload, after, link);
            && Carries(o, r, [], link) && r.out.buffered == []
            && (r.success ==> exists mid :: ControlLast(o.log, mid, r.out.log, payload, after)
                                         && Sent(mid) == Sent(o.log) + o.buffered)
            && (!r.success ==> NoControls(o.log, r.out.log))
  {
    FlushCarries(o, link);
    var f := Flush(o, link);
    assert Sent(f.out.log) + [] == Sent(f.out.log);
    assert Sent(o.log) + o.buffered + [] == Sent(o.log) + o.buffered;
    if f.success {
      WriteFrameEffect(f.out, Control(payload, after), link);
      var r := WriteFrame(f.out, Control(payload, after), link);
      assert Sent(r.out.log) + [] == Sent(r.out.log);
      if r.success {
        assert ControlLast(o.log, f.out.log, r.out.log, payload, after);
      }
    }
  }

  /** The log grew by frames without controls up to `mid`, then by one control frame. */
  ghost predicate ControlLast(log: seq<Written>, mid: seq<Written>, log': seq<Written>, payload: bytes, after: nat) {
    log <= mid && NoControls(log, mid) && log' == mid + [Control(payload, after)]
  }

  // ---- the select loop ----

  /** Where run() is: the three priority checks, the blocking select, the two ways out. */
  datatype PC = Top | Drain | Poll | Select | Closing | Failed | Done

  datatype State = State(
    pc: PC, out: Out, writeFailed: bool,
    chunks: seq<bytes>, closed: bool, controls: seq<bytes>, pongs: nat,
    taken: bytes,      // output bytes received from the channel so far
    submitted: bytes)  // output bytes handed to Submit so far

  datatype Action =
    // the loop
    | TakePong | NoPong | TakeChunk | NoChunk | SeeClosed | TakeControl | NoControl | Timer | DropChunk | Finish
    // the senders
    | Submit(chunk: bytes) | RequestPong | SendControl(payload: bytes) | Close

  predicate Enabled(s: State, a: Action) {
    match a
    case TakePong => s.pongs > 0 && (s.pc == Top || s.pc == Select || s.pc == Closing)
    case NoPong => s.pongs == 0 && s.pc == Top
    case TakeChunk => s.chunks != [] && (s.pc == Drain || s.pc == Select)
    case NoChunk => s.chunks == [] && !s.closed && s.pc == Drain
    case SeeClosed => s.chunks == [] && s.closed && (s.pc == Drain || s.pc == Select || s.pc == Failed)
    case TakeControl => s.controls != [] && (s.pc == Poll || s.pc == Select || s.pc == Closing)
    case NoControl => s.controls == [] && s.pc == Poll
    case Timer => s.pc == Select
    case DropChunk => s.chunks != [] && s.pc == Failed
    case Finish => s.pc == Closing && s.controls == [] && s.pongs == 0
    case Submit(_) => !s.closed && |s.chunks| < QUEUE_CAPACITY
    case RequestPong => s.pongs < PONG_CAPACITY
    case SendControl(_) => |s.controls| < CONTROL_CAPACITY
    case Close => !s.closed
  }

  /** Back to the top of the loop, or out of it when already closing, after a write. */
  function AfterWrite(s: State, r: Result): State {
    if s.pc == Closing then s.(out := r.out, pc := if r.success then Closing else Done)
    else s.(out := r.out, pc := Top, writeFailed := s.writeFailed || !r.success)
  }

  function Do(s: State, a: Action, link: Link): State
    requires Enabled(s, a) && link.maxFrame > 0 && |s.out.buffered| <= link.maxFrame
  {
    match a
    case TakePong => AfterWrite(s.(pongs := s.pongs - 1), WriteFrame(s.out, Pong, link))
    case NoPong => s.(pc := if s.writeFailed then Failed else Drain)
    case TakeChunk =>
      var r := AppendChunk(s.out, s.chunks[0], link);
      s.(out := r.out, chunks := s.chunks[1..], taken := s.taken + s.chunks[0],
         writeFailed := s.writeFailed || !r.success, pc := if s.pc == Drain then Drain else Top)
    case NoChunk => s.(pc := Poll)
    case SeeClosed =>
      if s.pc == Failed then s.(pc := Done) else s.(out := Flush(s.out, link).out, pc := Closing)
    case TakeControl =>
      AfterWrite(s.(controls := s.controls[1..]), ProcessControl(s.out, s.controls[0], |s.taken|, link))
    case NoControl => s.(pc := Select)
    case Timer => AfterWrite(s, Flush(s.out, link))
    case DropChunk => s.(chunks := s.chunks[1..], taken := s.taken + s.chunks[0])
    case Finish => s.(pc := Done)
    case Submit(chunk) => s.(chunks := s.chunks + [chunk], submitted := s.submitted + chunk)
    case RequestPong => s.(pongs := s.pongs + 1)
    case SendControl(payload) => s.(controls := s.controls + [payload])
    case Close => s.(closed := true)
  }

  const INITIAL := State(Top, Out([], 0, [], 0, 0), false, [], false, [], 0, [], [])

  /** Every control frame follows all output bytes taken before it, and only those. */
  ghost predicate ControlsInOrder(log: seq<Written>) {
    forall i :: 0 <= i < |log| && log[i].Control? ==> |Sent(log[..i])| == log[i].after
  }

  /**
   * Conservation between the wire, the buffer and what was taken from the
   * channel. Without a failed write, wire and buffer together are exactly what
   * was taken; with sticky failures the wire is still a prefix of it.
   */
  ghost predicate Wire(o: Out, taken: bytes, link: Link) {
    && WellFormed(o, link)
    && (Clean(link, o.tries) ==> Sent(o.log) + o.buffered == taken)
    && (Clean(link, o.tries) || link.Sticky() ==> Sent(o.log) <= taken && ControlsInOrder(o.log))
  }

  ghost predicate Inv(s: State, link: Link) {
    && Wire(s.out, s.taken, link) && |s.out.buffered| < link.maxFrame
    && s.submitted == s.taken + Concat(s.chunks)
    && (Clean(link, s.out.tries) ==> !s.writeFailed && s.pc != Failed)
    && (s.pc == Closing || s.pc == Done ==> s.closed && s.chunks == [])
    && (s.pc == Closing ==> s.out.buffered == [])
    && (s.pc == Done && Clean(link, s.out.tries) ==> s.out.buffered == [])
  }

  /** A log that grew without controls, or by one at the end, keeps them in order. */
  lemma OrderKept(log: seq<Written>, log': seq<Written>)
    requires ControlsInOrder(log) && log <= log' && NoControls(log, log')
    ensures ControlsInOrder(log')
  {
    forall i | 0 <= i < |log'| && log'[i].Control? ensures |Sent(log'[..i])| == log'[i].after {
      assert i < |log| && log'[..i] == log[..i] && log'[i] == log[i];
    }
  }

  lemma OrderExtended(log: seq<Written>, w: Written)
    requires ControlsInOrder(log) && (w.Control? ==> w.after == |Sent(log)|)
    ensures ControlsInOrder(log + [w])
  {
    var log' := log + [w];
    forall i | 0 <= i < |log'| && log'[i].Control? ensures |Sent(log'[..i])| == log'[i].after {
      if i < |log| {
        assert log'[..i] == log[..i];
      } else {
        assert log'[..i] == log;
      }
    }
  }

  lemma WireStep(o: Out, r: Result, input: bytes, taken: bytes, link: Link)
    requires Wire(o, taken, link) && Carries(o, r, input, link) && NoControls(o.log, r.out.log)
    ensures Wire(r.out, taken + input, link)
    ensures Clean(link, r.out.tries) ==> Clean(link, o.tries) && r.success
  {
    if Clean(link, o.tries) || link.Sticky() {
      OrderKept(o.log, r.out.log);
    }
  }

  lemma WireControl(o: Out, payload: bytes, taken: bytes, link: Link)
    requires Wire(o, taken, link)
    ensures var r := ProcessControl(o, payload, |taken|, link);
            && Wire(r.out, taken, link) && r.out.buffered == []
            && (Clean(link, r.out.tries) ==> Clean(link, o.tries) && r.success)
  {
    ProcessControlCarries(o, payload, |taken|, link);
    var r := ProcessControl(o, payload, |taken|, link);
    assert taken + [] == taken;
    if !r.success {
      WireStep(o, r, [], taken, link);
    } else if Clean(link, o.tries) || link.Sticky() {
      var mid :| ControlLast(o.log, mid, r.out.log, payload, |taken|) && Sent(mid) == Sent(o.log) + o.buffered;
      if Clean(link, o.tries) {
        OrderKept(o.log, mid);
        OrderExtended(mid, Control(payload, |taken|));
      }
    }
  }

  lemma WirePong(o: Out, taken: bytes, link: Link)
    requires Wire(o, taken, link)
    ensures var r := WriteFrame(o, Pong, link);
            && Wire(r.out, taken, link) && r.out.buffered == o.buffered
            && (Clean(link, r.out.tries) ==> Clean(link, o.tries) && r.success)
  {
    WriteFrameEffect(o, Pong, link);
    var r := WriteFrame(o, Pong, link);
    if r.success && (Clean(link, o.tries) || link.Sticky()) {
      OrderExtended(o.log, Pong);
    }
  }

  lemma WireFlush(o: Out, taken: bytes, link: Link)
    requires Wire(o, taken, link)
    ensures var r := Flush(o, link);
            && Wire(r.out, taken, link) && r.out.buffered == []
            && (Clean(link, r.out.tries) ==> Clean(link, o.tries) && r.success)
  {
    FlushCarries(o, link);
    WireStep(o, Flush(o, link), [], taken, link);
    assert taken + [] == taken;
  }

  lemma SenderStepKeepsInv(s: State, a: Action, link: Link)
    requires Inv(s, link) && Enabled(s, a)
    requires a.Submit? || a.RequestPong? || a.SendControl? || a.Close?
    ensures Inv(Do(s, a, link), link)
  {
    if a.Submit? {
      ConcatLast(s.chunks, a.chunk);
      AppendAssoc(s.taken, Concat(s.chunks), a.chunk);
    }
  }

  lemma TakeKeepsSubmitted(s: State)
    requires s.chunks != [] && s.submitted == s.taken + Concat(s.chunks)
    ensures s.submitted == s.taken + s.chunks[0] + Concat(s.chunks[1..])
  {
    AppendAssoc(s.taken, s.chunks[0], Concat(s.chunks[1..]));
  }

  /** Every step of the loop and of the senders keeps the invariant. */
  lemma StepsKeepInv(s: State, a: Action, link: Link)
    requires Inv(s, link) && Enabled(s, a)
    ensures Inv(Do(s, a, link), link)
  {
    match a
    case TakePong => WirePong(s.out, s.taken, link);
    case NoPong =>
    case TakeChunk =>
      TakeKeepsSubmitted(s);
      AppendChunkCarries(s.out, s.chunks[0], link);
      WireStep(s.out, AppendChunk(s.out, s.chunks[0], link), s.chunks[0], s.taken, link);
    case NoChunk =>
    case SeeClosed => WireFlush(s.out, s.taken, link);
    case TakeControl => WireControl(s.out, s.controls[0], s.taken, link);
    case NoControl =>
    case Timer => WireFlush(s.out, s.taken, link);
    case DropChunk => TakeKeepsSubmitted(s);
    case Finish =>
    case Submit(_) => SenderStepKeepsInv(s, a, link);
    case RequestPong => SenderStepKeepsInv(s, a, link);
    case SendControl(_) => SenderStepKeepsInv(s, a, link);
    case Close => SenderStepKeepsInv(s, a, link);
  }

  ghost predicate StepAt(states: seq<State>, actions: seq<Action>, link: Link, i: nat) {
    && i < |actions| && |states| == |actions| + 1 && link.maxFrame > 0
    && Enabled(states[i], actions[i]) && |states[i].out.buffered| <= link.maxFrame
    && states[i + 1] == Do(states[i], actions[i], link)
  }

  /** `states` is a run: from the initial state, one enabled action after the other. */
  ghost predicate Run(states: seq<State>, actions: seq<Action>, link: Link) {
    && link.maxFrame > 0 && |states| == |actions| + 1 && states[0] == INITIAL
    && (forall i :: 0 <= i < |actions| ==> StepAt(states, actions, link, i))
  }

  lemma {:induction false} RunsKeepInv(states: seq<State>, actions: seq<Action>, link: Link, n: nat)
    requires Run(states, actions, link) && n < |states|
    ensures forall k :: 0 <= k <= n ==> Inv(states[k], link)
  {
    if n == 0 {
      assert Concat(INITIAL.chunks) == [];
    } else {
      RunsKeepInv(states, actions, link, n - 1);
      assert StepAt(states, actions, link, n - 1);
      StepsKeepInv(states[n - 1], actions[n - 1], link);
    }
  }

  /**
   * In every run, whatever the senders do and whichever ready case each select
   * takes: frames have 1 to maxFrame bytes and the buffer stays below that.
   * While no write has failed, the bytes written, buffered and queued are, in
   * this order, the bytes submitted, and each control frame stands exactly
   * behind the output taken before it. Once the loop is done, all of it has
   * been written. Under sticky failures the wire is a prefix of the submitted.
   */
  lemma OutputConserved(states: seq<State>, actions: seq<Action>, link: Link)
    requires Run(states, actions, link)
    ensures forall n :: 0 <= n < |states| ==>
            var s := states[n];
            && |s.out.buffered| < link.maxFrame
            && (forall i :: 0 <= i < |s.out.log| && s.out.log[i].Binary? ==> 1 <= |s.out.log[i].data| <= link.maxFrame)
            && s.out.frames == BinaryFrames(s.out.log) && s.out.sent == |Sent(s.out.log)|
            && (Clean(link, s.out.tries) ==>
                  && Sent(s.out.log) + s.out.buffered + Concat(s.chunks) == s.submitted
                  && ControlsInOrder(s.out.log)
                  && (s.pc == Done ==> Sent(s.out.log) == s.submitted))
            && (link.Sticky() ==> Sent(s.out.log) <= s.submitted)
  {
    RunsKeepInv(states, actions, link, |states| - 1);
    forall n | 0 <= n < |states| && states[n].pc == Done && Clean(link, states[n].out.tries)
      ensures Sent(states[n].out.log) == states[n].submitted
    {
      var s := states[n];
      assert Sent(s.out.log) + [] == Sent(s.out.log) && s.taken + [] == s.taken;
    }
  }

  // ---- no control frame and no pong is lost ----

  /** The payloads of the control frames in a log, in order. */
  function ControlsIn(log: seq<Written>): seq<bytes> {
    if log == [] then []
    else
      var w := log[|log| - 1];
      ControlsIn(log[..|log| - 1]) + if w.Control? then [w.payload] else []
  }

  function PongsIn(log: seq<Written>): nat {
    if log == [] then 0 else PongsIn(log[..|log| - 1]) + if log[|log| - 1].Pong? then 1 else 0
  }

  lemma NotesLast(log: seq<Written>, w: Written)
    ensures ControlsIn(log + [w]) == ControlsIn(log) + if w.Control? then [w.payload] else []
    ensures PongsIn(log + [w]) == PongsIn(log) + if w.Pong? then 1 else 0
  {
    assert (log + [w])[..|log|] == log;
  }

  /** A log that grew by output only. */
  ghost predicate OnlyOutput(log: seq<Written>, log': seq<Written>) {
    log <= log' && forall i :: |log| <= i < |log'| ==> log'[i].Binary?
  }

  lemma {:induction false} OutputKeepsNotes(log: seq<Written>, log': seq<Written>)
    requires OnlyOutput(log, log')
    ensures ControlsIn(log') == ControlsIn(log) && PongsIn(log') == PongsIn(log)
    decreases |log'|
  {
    if |log| < |log'| {
      OutputKeepsNotes(log, log'[..|log'| - 1]);
      assert ControlsIn(log) + [] == ControlsIn(log);
    } else {
      assert log == log';
    }
  }

  lemma {:induction false} AppendChunkOnlyOutput(o: Out, chunk: bytes, link: Link)
    requires link.maxFrame > 0 && |o.buffered| <= link.maxFrame
    ensures OnlyOutput(o.log, AppendChunk(o, chunk, link).out.log)
    decreases |chunk|, |o.buffered|
  {
    if chunk != [] {
      var room := link.maxFrame - |o.buffered|;
      if room == 0 {
        var f := Flush(o, link);
        if f.success {
          AppendChunkOnlyOutput(f.out, chunk, link);
        }
      } else {
        var count := if room < |chunk| then room else |chunk|;
        var o' := o.(buffered := o.buffered + chunk[..count]);
        var f := if |o'.buffered| == link.maxFrame then Flush(o', link) else Result(o', true);
        if f.success {
          AppendChunkOnlyOutput(f.out, chunk[count..], link);
        }
      }
    }
  }

  /** The control frames and pongs sent and not lost: those on the wire, then those still waiting. */
  function ControlsOf(s: State): seq<bytes> { ControlsIn(s.out.log) + s.controls }

  function PongsOf(s: State): nat { PongsIn(s.out.log) + s.pongs }

  lemma ControlWritten(s: State, link: Link)
    requires Inv(s, link) && s.controls != [] && ProcessControl(s.out, s.controls[0], |s.taken|, link).success
    ensures var log := ProcessControl(s.out, s.controls[0], |s.taken|, link).out.log;
            ControlsIn(log) + s.controls[1..] == ControlsIn(s.out.log) + s.controls && PongsIn(log) == PongsIn(s.out.log)
  {
    var mid := Flush(s.out, link).out.log;
    OutputKeepsNotes(s.out.log, mid);
    NotesLast(mid, Control(s.controls[0], |s.taken|));
    assert [s.controls[0]] + s.controls[1..] == s.controls;
    assert ControlsIn(mid) + [s.controls[0]] + s.controls[1..] == ControlsIn(mid) + ([s.controls[0]] + s.controls[1..]);
  }

  /** Steps that write output only. */
  lemma OutputKeeps(s: State, a: Action, link: Link)
    requires Inv(s, link) && Enabled(s, a) && (a.TakeChunk? || a.SeeClosed? || a.Timer?)
    ensures ControlsOf(Do(s, a, link)) == ControlsOf(s) && PongsOf(Do(s, a, link)) == PongsOf(s)
  {
    if a.TakeChunk? {
      AppendChunkOnlyOutput(s.out, s.chunks[0], link);
    }
    OutputKeepsNotes(s.out.log, Do(s, a, link).out.log);
  }

  /** While writes succeed a step loses no control frame and no pong, and only the senders add one. */
  lemma StepKeepsNotes(s: State, a: Action, link: Link)
    requires Inv(s, link) && Enabled(s, a) && Clean(link, Do(s, a, link).out.tries)
    ensures ControlsOf(Do(s, a, link)) == ControlsOf(s) + if a.SendControl? then [a.payload] else []
    ensures PongsOf(Do(s, a, link)) == PongsOf(s) + if a.RequestPong? then 1 else 0
  {
    assert ControlsOf(s) + [] == ControlsOf(s);
    match a
    case TakePong =>
      NotesLast(s.out.log, Pong);
      assert ControlsIn(s.out.log) + [] == ControlsIn(s.out.log);
    case TakeChunk => OutputKeeps(s, a, link);
    case TakeControl =>
      WireControl(s.out, s.controls[0], s.taken, link);
      ControlWritten(s, link);
    case SeeClosed => OutputKeeps(s, a, link);
    case Timer => OutputKeeps(s, a, link);
    case SendControl(payload) => assert ControlsIn(s.out.log) + (s.controls + [payload]) == ControlsOf(s) + [payload];
    case _ =>
  }

  /** The control frames handed to the coalescer by these actions. */
  function ControlsSent(actions: seq<Action>): seq<bytes> {
    if actions == [] then []
    else
      var a := actions[|actions| - 1];
      ControlsSent(actions[..|actions| - 1]) + if a.SendControl? then [a.payload] else []
  }

  function PongsRequested(actions: seq<Action>): nat {
    if actions == [] then 0
    else PongsRequested(actions[..|actions| - 1]) + if actions[|actions| - 1].RequestPong? then 1 else 0
  }

  lemma TriesGrow(s: State, a: Action, link: Link)
    requires Inv(s, link) && Enabled(s, a)
    ensures s.out.tries <= Do(s, a, link).out.tries
  {
    match a
    case TakeChunk => AppendChunkCarries(s.out, s.chunks[0], link);
    case _ =>
  }

  /**
   * In every run without a failed write, the control frames written and then
   * those waiting are exactly the ones sent, in order; and every pong asked for
   * has been written or is waiting.
   */
  lemma {:induction false} ControlsConserved(states: seq<State>, actions: seq<Action>, link: Link, n: nat)
    requires Run(states, actions, link) && n < |states| && Clean(link, states[n].out.tries)
    ensures ControlsOf(states[n]) == ControlsSent(actions[..n])
    ensures PongsOf(states[n]) == PongsRequested(actions[..n])
  {
    if n > 0 {
      assert StepAt(states, actions, link, n - 1);
      RunsKeepInv(states, actions, link, n - 1);
      TriesGrow(states[n - 1], actions[n - 1], link);
      ControlsConserved(states, actions, link, n - 1);
      StepKeepsNotes(states[n - 1], actions[n - 1], link);
      assert actions[..n][..n - 1] == actions[..n - 1];
    }
  }

  /** Senders may act at any time, as far as the queues have room; output only until it is closed. */
  lemma SendersAreFree(s: State, chunk: bytes, payload: bytes)
    ensures |s.chunks| < 16 && !s.closed ==> Enabled(s, Submit(chunk)) && Enabled(s, Close)
    ensures |s.controls| < 8 ==> Enabled(s, SendControl(payload))
    ensures s.pongs < 4 ==> Enabled(s, RequestPong)
    ensures !s.closed ==> Enabled(s, Close)
  {}

  // ---- failures are noted, and the loop ends ----

  /** A failed write is noted unless the loop is on its way out. */
  ghost predicate Noted(s: State, link: Link) {
    s.writeFailed || Clean(link, s.out.tries) || s.pc == Closing || s.pc == Done
  }

  lemma StepsNote(s: State, a: Action, link: Link)
    requires Inv(s, link) && Enabled(s, a) && Noted(s, link)
    ensures Noted(Do(s, a, link), link)
  {
    match a
    case TakePong => WriteFrameEffect(s.out, Pong, link);
    case TakeChunk => AppendChunkCarries(s.out, s.chunks[0], link);
    case TakeControl => ProcessControlCarries(s.out, s.controls[0], |s.taken|, link);
    case Timer => FlushCarries(s.out, link);
    case _ =>
  }

  lemma {:induction false} FailureNoted(states: seq<State>, actions: seq<Action>, link: Link, n: nat)
    requires Run(states, actions, link) && n < |states|
    ensures Noted(states[n], link)
  {
    if n > 0 {
      FailureNoted(states, actions, link, n - 1);
      RunsKeepInv(states, actions, link, n - 1);
      assert StepAt(states, actions, link, n - 1);
      StepsNote(states[n - 1], actions[n - 1], link);
    }
  }

  /** Back at the top after a failure, the loop writes pongs at most, and goes on only to let the senders finish. */
  predicate GivenUp(s: State) { s.writeFailed && (s.pc == Top || s.pc == Failed || s.pc == Done) }

  lemma GivenUpStep(s: State, a: Action, link: Link)
    requires Inv(s, link) && Enabled(s, a) && GivenUp(s)
    ensures GivenUp(Do(s, a, link))
    ensures Sent(Do(s, a, link).out.log) == Sent(s.out.log) && ControlsIn(Do(s, a, link).out.log) == ControlsIn(s.out.log)
  {
    SentLast(s.out.log, Pong);
    NotesLast(s.out.log, Pong);
    assert Sent(s.out.log) + [] == Sent(s.out.log) && ControlsIn(s.out.log) + [] == ControlsIn(s.out.log);
  }

  lemma {:induction false} FailureEndsOutput(states: seq<State>, actions: seq<Action>, link: Link, i: nat, n: nat)
    requires Run(states, actions, link) && i <= n < |states| && GivenUp(states[i])
    ensures forall k :: i <= k <= n ==>
              GivenUp(states[k]) && Sent(states[k].out.log) == Sent(states[i].out.log)
              && ControlsIn(states[k].out.log) == ControlsIn(states[i].out.log)
    decreases n
  {
    if i < n {
      FailureEndsOutput(states, actions, link, i, n - 1);
      RunsKeepInv(states, actions, link, n - 1);
      assert StepAt(states, actions, link, n - 1);
      GivenUpStep(states[n - 1], actions[n - 1], link);
    }
  }

  /** When the quiet window runs out, what is buffered goes to the wire. */
  lemma TimerFlushes(s: State, link: Link)
    requires Inv(s, link) && Enabled(s, Timer) && link.ok(s.out.tries)
    ensures Do(s, Timer, link).out.buffered == []
    ensures Sent(Do(s, Timer, link).out.log) == Sent(s.out.log) + s.out.buffered
  {
    FlushCarries(s.out, link);
    var t := Do(s, Timer, link);
    assert Sent(t.out.log) + [] == Sent(t.out.log) && Sent(s.out.log) + s.out.buffered + [] == Sent(s.out.log) + s.out.buffered;
  }

  /** The loop turns to output when no pong is due, to control frames when the queue is drained, and blocks when none of those waits either. */
  lemma PriorityKept(s: State, a: Action, link: Link)
    requires Inv(s, link) && Enabled(s, a) && Do(s, a, link).pc != s.pc
    ensures match Do(s, a, link).pc
            case Drain => s.pongs == 0
            case Poll => s.chunks == []
            case Select => s.controls == []
            case _ => true
  {
    match a
    case TakePong => case NoPong => case TakeChunk => case NoChunk => case SeeClosed => case TakeControl =>
    case NoControl => case Timer => case DropChunk => case Finish => case _ =>
  }

  /** It ends without a failure only with nothing left to write. */
  lemma EndsWithNothingWaiting(s: State, a: Action, link: Link)
    requires Inv(s, link) && Enabled(s, a) && s.pc != Done && Do(s, a, link).pc == Done
    requires Clean(link, Do(s, a, link).out.tries)
    ensures s.chunks == [] && s.controls == [] && s.pongs == 0 && s.out.buffered == []
  {
    match a
    case TakePong => WirePong(s.out, s.taken, link);
    case TakeControl => WireControl(s.out, s.controls[0], s.taken, link);
    case _ =>
  }

  /** After closing, no more output is accepted. */
  lemma {:induction false} ClosedForGood(states: seq<State>, actions: seq<Action>, link: Link, i: nat, n: nat)
    requires Run(states, actions, link) && i < n < |states| && actions[i] == Close
    ensures states[n].closed && states[n].submitted == states[i].submitted
    decreases n
  {
    assert StepAt(states, actions, link, n - 1);
    if i < n - 1 {
      ClosedForGood(states, actions, link, i, n - 1);
      ClosedStays(states[n - 1], actions[n - 1], link);
    }
  }

  lemma ClosedStays(s: State, a: Action, link: Link)
    requires link.maxFrame > 0 && |s.out.buffered| <= link.maxFrame && Enabled(s, a) && s.closed
    ensures Do(s, a, link).closed && Do(s, a, link).submitted == s.submitted
  {}

  predicate LoopAction(a: Action) { !a.Submit? && !a.RequestPong? && !a.SendControl? && !a.Close? }

  /** Work left for the loop once the input is closed. */
  function WorkLeft(s: State): nat {
    8 * (|s.chunks| + |s.controls| + s.pongs)
    + match s.pc
      case Poll => 6 case Select => 5 case Top => 4 case Drain => 3 case Failed => 2 case Closing => 1 case Done => 0
  }

  /** The loop can always go on until it has ended; only after a failure it waits for the senders. */
  lemma LoopGoesOn(s: State)
    requires s.pc != Done && (s.pc == Failed ==> s.closed || s.chunks != [])
    ensures exists a :: LoopAction(a) && Enabled(s, a)
  {
    var a: Action;
    match s.pc {
      case Top => a := if s.pongs > 0 then TakePong else NoPong;
      case Drain => a := if s.chunks != [] then TakeChunk else if s.closed then SeeClosed else NoChunk;
      case Poll => a := if s.controls != [] then TakeControl else NoControl;
      case Select => a := Timer;
      case Failed => a := if s.chunks != [] then DropChunk else SeeClosed;
      case Closing => a := if s.pongs > 0 then TakePong else if s.controls != [] then TakeControl else Finish;
    }
    assert LoopAction(a) && Enabled(s, a);
  }

  /** Once closed, every step of the loop brings its end closer, so closing waits for a bounded time. */
  lemma ClosedLoopEnds(s: State, a: Action, link: Link)
    requires Inv(s, link) && s.closed && LoopAction(a) && Enabled(s, a)
    ensures WorkLeft(Do(s, a, link)) < WorkLeft(s)
  {
    match a
    case TakePong => case NoPong => case TakeChunk => case NoChunk => case SeeClosed => case TakeControl =>
    case NoControl => case Timer => case DropChunk => case Finish =>
  }

  // ---- connections that recover ----

  /** A chunk that fills a frame on its own is one write attempt. */
  lemma FullChunk(o: Out, chunk: bytes, link: Link)
    requires o.buffered == [] && |chunk| == link.maxFrame > 0
    ensures AppendChunk(o, chunk, link) == WriteFrame(o, Binary(chunk), link)
  {
    var empty: bytes := [];
    assert chunk[..|chunk|] == chunk && chunk[|chunk|..] == empty && empty + chunk == chunk;
    var o' := o.(buffered := o.buffered + chunk[..|chunk|]);
    assert Flush(o', link) == WriteFrame(o, Binary(chunk), link);
  }

  /** Nothing is buffered or queued, and no output byte has reached the wire. */
  predicate Bare(s: State) {
    s.out.buffered == [] && s.chunks == [] && !s.closed && Sent(s.out.log) == []
  }

  /** Pongs bring the loop to any attempt before which none fails. */
  lemma {:induction false} PongsTo(link: Link, n: nat) returns (states: seq<State>, actions: seq<Action>)
    requires link.maxFrame > 0 && Clean(link, n)
    ensures Run(states, actions, link)
    ensures var s := states[|states| - 1];
            Bare(s) && s.pc == Top && !s.writeFailed && s.pongs == 0 && s.submitted == [] && s.out.tries == n
  {
    if n == 0 {
      states, actions := [INITIAL], [];
    } else {
      var s;
      states, actions := PongsTo(link, n - 1);
      states, actions, s := Extend(states, actions, link, RequestPong);
      SentLast(s.out.log, Pong);
      states, actions, s := Extend(states, actions, link, TakePong);
    }
  }

  /** A frame-sized chunk submitted and taken while the loop drains its queue. */
  lemma OneMore(states: seq<State>, actions: seq<Action>, link: Link, chunk: bytes)
    returns (states': seq<State>, actions': seq<Action>)
    requires Run(states, actions, link) && |chunk| == link.maxFrame
    requires var s := states[|states| - 1]; Bare(s) && s.pc == Drain
    ensures Run(states', actions', link)
    ensures var s, s' := states[|states| - 1], states'[|states'| - 1];
            && s'.pc == Drain && s'.out.buffered == [] && s'.chunks == [] && !s'.closed
            && s'.submitted == s.submitted + chunk && s'.out.tries == s.out.tries + 1
            && Sent(s'.out.log) == if link.ok(s.out.tries) then chunk else []
  {
    var s := states[|states| - 1];
    var empty: seq<bytes> := [];
    assert s.chunks + [chunk] == [chunk] && [chunk][1..] == empty;
    FullChunk(s.out, chunk, link);
    SentLast(s.out.log, Binary(chunk));
    var t;
    states', actions', t := Extend(states, actions, link, Submit(chunk));
    states', actions', t := Extend(states', actions', link, TakeChunk);
  }

  /** `n` bytes of one value. */
  function Fill(b: byte, n: nat): bytes { seq(n, _ => b) }

  /** The attempts from the first failing one up to `j` all fail: one chunk is lost to each. */
  lemma {:induction false} LoseUpTo(link: Link, i: nat, j: nat) returns (states: seq<State>, actions: seq<Action>)
    requires link.maxFrame > 0 && Clean(link, i) && i < j
    requires forall k: nat :: i <= k < j ==> !link.ok(k)
    ensures Run(states, actions, link)
    ensures var s := states[|states| - 1];
            Bare(s) && s.pc == Drain && s.out.tries == j && s.submitted != [] && s.submitted[0] == 1
    decreases j
  {
    if i + 1 == j {
      var s;
      states, actions := PongsTo(link, i);
      states, actions, s := Extend(states, actions, link, NoPong);
    } else {
      states, actions := LoseUpTo(link, i, j - 1);
    }
    states, actions := OneMore(states, actions, link, Fill(1, link.maxFrame));
  }

  /**
   * Draining goes on after a failure, so the output taken after it can reach the
   * wire without the output before: everything goes well up to the first attempt
   * that fails, and output is lost up to the next one that succeeds.
   */
  lemma RecoveringLinkLosesBytes(link: Link)
    requires link.maxFrame > 0 && !link.Sticky()
    ensures exists states: seq<State>, actions: seq<Action> ::
              Run(states, actions, link) && !(Sent(states[|states| - 1].out.log) <= states[|states| - 1].submitted)
  {
    var bad: nat, good: nat :| bad <= good && !link.ok(bad) && link.ok(good);
    var i: nat := 0;
    while link.ok(i)
      invariant i <= bad && Clean(link, i)
      decreases bad - i
    {
      i := i + 1;
    }
    var j := i;
    while !link.ok(j)
      invariant i <= j <= good && forall k: nat :: i <= k < j ==> !link.ok(k)
      decreases good - j
    {
      j := j + 1;
    }
    var states, actions := LoseUpTo(link, i, j);
    var before := states[|states| - 1].submitted;
    states, actions := OneMore(states, actions, link, Fill(2, link.maxFrame));
    var s := states[|states| - 1];
    assert s.submitted[0] == before[0] == 1 && Sent(s.out.log)[0] == 2;
    assert Run(states, actions, link) && !(Sent(states[|states| - 1].out.log) <= states[|states| - 1].submitted);
  }

  /** At every point of every run the wire holds a prefix of the output submitted. */
  ghost predicate AlwaysPrefix(link: Link) {
    forall states: seq<State>, actions: seq<Action> :: Run(states, actions, link) ==>
      Sent(states[|states| - 1].out.log) <= states[|states| - 1].submitted
  }

  /** Exactly the connections whose failures stay keep the wire a prefix of the output. */
  lemma PrefixIffSticky(link: Link)
    requires link.maxFrame > 0
    ensures AlwaysPrefix(link) <==> link.Sticky()
  {
    if link.Sticky() {
      forall states: seq<State>, actions: seq<Action> | Run(states, actions, link)
        ensures Sent(states[|states| - 1].out.log) <= states[|states| - 1].submitted
      {
        OutputConserved(states, actions, link);
      }
    } else {
      RecoveringLinkLosesBytes(link);
    }
  }

  lemma Extend(states: seq<State>, actions: seq<Action>, link: Link, a: Action)
    returns (states': seq<State>, actions': seq<Action>, last: State)
    requires Run(states, actions, link) && Enabled(states[|states| - 1], a)
    requires |states[|states| - 1].out.buffered| <= link.maxFrame
    ensures Run(states', actions', link) && last == states'[|states'| - 1] == Do(states[|states| - 1], a, link)
  {
    last := Do(states[|states| - 1], a, link);
    states', actions' := states + [last], actions + [a];
    forall i | 0 <= i < |actions'| ensures StepAt(states', actions', link, i) {
      assert i < |actions| ==> StepAt(states, actions, link, i);
    }
  }
}
