// The streaming side of the kitty graphics transcoder: a byte stream arrives in
// arbitrary chunks, complete graphics commands are replaced, everything else
// passes through, and an unfinished tail is carried to the next chunk.
module KittyStream {
  import opened Bytes

  const ESC: byte := 0x1b
  const BEL: byte := 0x07
  const UNDERSCORE: byte := 0x5f
  const LETTER_G: byte := 0x47
  const BACKSLASH: byte := 0x5c

  /** ESC _ G: the start of a graphics command. */
  const INTRO: bytes := [ESC, UNDERSCORE, LETTER_G]

  /** Length of the terminator at `i`: BEL, or ESC followed by a backslash; 0 for none. */
  function TerminatorLength(d: bytes, i: nat): nat {
    if i < |d| && d[i] == BEL then 1
    else if i + 1 < |d| && d[i] == ESC && d[i + 1] == BACKSLASH then 2
    else 0
  }

  datatype Found = Nowhere | At(pos: nat, len: nat)

  /** The first terminator at or after `start`. */
  function FirstTerminator(d: bytes, start: nat): (r: Found)
    ensures r.Nowhere? ==> forall i: nat :: start <= i ==> TerminatorLength(d, i) == 0
    ensures r.At? ==> start <= r.pos && r.len == TerminatorLength(d, r.pos) > 0
    ensures r.At? ==> forall i: nat :: start <= i < r.pos ==> TerminatorLength(d, i) == 0
    decreases |d| - start
  {
    if start >= |d| then Nowhere
    else if TerminatorLength(d, start) > 0 then At(start, TerminatorLength(d, start))
    else FirstTerminator(d, start + 1)
  }

  lemma FirstTerminatorUnique(d: bytes, start: nat, pos: nat)
    requires start <= pos && TerminatorLength(d, pos) > 0
    requires forall i: nat :: start <= i < pos ==> TerminatorLength(d, i) == 0
    ensures FirstTerminator(d, start) == At(pos, TerminatorLength(d, pos))
  {
    var r := FirstTerminator(d, start);
    assert r.At?;
  }

  /** What the front of the stream is. */
  datatype Head = Text(n: nat) | Command(n: nat) | Unfinished

  function HeadOf(d: bytes): (h: Head)
    requires d != []
    ensures !h.Unfinished? ==> 1 <= h.n <= |d|
  {
    if d[0] != ESC then Text(1)
    else if |d| < 2 then Unfinished
    else if d[1] != UNDERSCORE then Text(1)
    else if |d| < 3 then Unfinished
    else if d[2] != LETTER_G then Text(2)
    else
      var t := FirstTerminator(d, 3);
      if t.Nowhere? then Unfinished else Command(t.pos + t.len)
  }

  datatype Scanned = Scanned(out: bytes, carry: bytes)

  /** Emit `x` first. */
  function Emit(x: bytes, s: Scanned): Scanned { Scanned(x + s.out, s.carry) }

  lemma EmitTwice(x: bytes, y: bytes, s: Scanned)
    ensures Emit(x, Emit(y, s)) == Emit(x + y, s)
  {
    AppendAssoc(x, y, s.out);
  }

  lemma EmitNothing(s: Scanned)
    ensures Emit([], s) == s
  {
    assert [] + s.out == s.out;
  }

  /** The whole stream at once: commands through `f`, text as it is, the unfinished tail kept. */
  function Scan(d: bytes, f: bytes -> bytes): Scanned {
    if d == [] then Scanned([], [])
    else
      match HeadOf(d)
      case Unfinished => Scanned([], d)
      case Text(n) => Emit(d[..n], Scan(d[n..], f))
      case Command(n) => Emit(f(d[..n]), Scan(d[n..], f))
  }

  /** Bytes that arrive later do not change a head already recognised. */
  lemma HeadStable(a: bytes, b: bytes)
    requires a != [] && !HeadOf(a).Unfinished?
    ensures HeadOf(a + b) == HeadOf(a)
  {
    if HeadOf(a).Command? {
      var t := FirstTerminator(a, 3);
      forall i: nat | i <= t.pos ensures TerminatorLength(a + b, i) == TerminatorLength(a, i) {}
      FirstTerminatorUnique(a + b, 3, t.pos);
    }
  }

  /** What the front of the stream turns into. */
  function Piece(d: bytes, f: bytes -> bytes): bytes
    requires d != [] && !HeadOf(d).Unfinished?
  {
    if HeadOf(d).Text? then d[..HeadOf(d).n] else f(d[..HeadOf(d).n])
  }

  lemma ScanHead(a: bytes, b: bytes, f: bytes -> bytes)
    requires a != [] && !HeadOf(a).Unfinished?
    ensures Scan(a + b, f) == Emit(Piece(a, f), Scan(a[HeadOf(a).n..] + b, f))
  {
    HeadStable(a, b);
    var n := HeadOf(a).n;
    assert (a + b)[..n] == a[..n];
    assert (a + b)[n..] == a[n..] + b;
  }

  /** Scanning in two parts, the carry of the first put before the second, is scanning at once. */
  lemma {:induction false} ScanSplit(a: bytes, b: bytes, f: bytes -> bytes)
    ensures Scan(a + b, f) == Emit(Scan(a, f).out, Scan(Scan(a, f).carry + b, f))
    decreases |a|
  {
    if a == [] || HeadOf(a).Unfinished? {
      assert a == [] ==> a + b == b;
      EmitNothing(Scan(a + b, f));
    } else {
      ScanHead(a, b, f);
      var rest := a[HeadOf(a).n..];
      ScanSplit(rest, b, f);
      EmitTwice(Piece(a, f), Scan(rest, f).out, Scan(Scan(rest, f).carry + b, f));
    }
  }

  /** Feeding chunks one after the other, starting from a carry. */
  function FeedAll(carry: bytes, chunks: seq<bytes>, f: bytes -> bytes): Scanned
    decreases |chunks|
  {
    if chunks == [] then Scanned([], carry)
    else
      var s := Scan(carry + chunks[0], f);
      Emit(s.out, FeedAll(s.carry, chunks[1..], f))
  }

  /** A carry is always an unfinished tail: rescanning it alone yields nothing new. */
  lemma {:induction false} CarryRescans(d: bytes, f: bytes -> bytes)
    ensures Scan(Scan(d, f).carry, f) == Scanned([], Scan(d, f).carry)
    decreases |d|
  {
    if d != [] && !HeadOf(d).Unfinished? {
      CarryRescans(d[HeadOf(d).n..], f);
    }
  }

  /** Chunking never matters: outputs and carry are those of the whole stream fed at once. */
  lemma {:induction false} ChunkingIrrelevant(carry: bytes, chunks: seq<bytes>, f: bytes -> bytes)
    requires Scan(carry, f) == Scanned([], carry)
    ensures FeedAll(carry, chunks, f) == Scan(carry + Concat(chunks), f)
    decreases |chunks|
  {
    if chunks == [] {
      assert carry + Concat(chunks) == carry;
    } else {
      var first, rest := carry + chunks[0], Concat(chunks[1..]);
      CarryRescans(first, f);
      ChunkingIrrelevant(Scan(first, f).carry, chunks[1..], f);
      ScanSplit(first, rest, f);
      AppendAssoc(carry, chunks[0], rest);
    }
  }

  /** Any two ways of cutting the same stream give the same output and the same carry. */
  lemma SameStreamSameOutput(a: seq<bytes>, b: seq<bytes>, f: bytes -> bytes)
    requires Concat(a) == Concat(b)
    ensures FeedAll([], a, f) == FeedAll([], b, f)
  {
    ChunkingIrrelevant([], a, f);
    ChunkingIrrelevant([], b, f);
  }

  /** Nothing is lost: with commands left as they are, output and carry are the input. */
  lemma {:induction false} NothingLost(d: bytes)
    ensures var s := Scan(d, x => x); s.out + s.carry == d
    decreases |d|
  {
    if d != [] && !HeadOf(d).Unfinished? {
      NothingLost(d[HeadOf(d).n..]);
    }
  }

  // ---- what scanning finds, stated without the scanner ----

  predicate IntroAt(d: bytes, i: nat) {
    i + 2 < |d| && d[i] == ESC && d[i + 1] == UNDERSCORE && d[i + 2] == LETTER_G
  }

  ghost predicate NoIntro(d: bytes) {
    forall i: nat :: !IntroAt(d, i)
  }

  /** Length of the start of an intro the stream ends in: ESC, or ESC _, or nothing. */
  function PartialLength(d: bytes): (n: nat)
    ensures n <= |d|
  {
    if |d| >= 1 && d[|d| - 1] == ESC then 1
    else if |d| >= 2 && d[|d| - 2] == ESC && d[|d| - 1] == UNDERSCORE then 2
    else 0
  }

  /** One complete command: it starts with the intro, and its first terminator ends it. */
  predicate IsCommand(c: bytes) {
    IntroAt(c, 0) && var t := FirstTerminator(c, 3); t.At? && t.pos + t.len == |c|
  }

  lemma NoIntroTail(t: bytes, n: nat)
    requires NoIntro(t) && n <= |t|
    ensures NoIntro(t[n..])
  {
    forall i: nat ensures !IntroAt(t[n..], i) {
      assert !IntroAt(t, i + n);
    }
  }

  lemma PartialLengthTail(t: bytes)
    requires t != [] && HeadOf(t).Text?
    ensures PartialLength(t[HeadOf(t).n..]) == PartialLength(t)
  {
    var n := HeadOf(t).n;
    assert |t| == n ==> t[0] != ESC;
    assert |t| == n + 1 ==> !(t[n - 1] == ESC && t[n] == UNDERSCORE);
  }

  lemma HeadOfText(t: bytes)
    requires t != [] && NoIntro(t)
    ensures !HeadOf(t).Command?
    ensures HeadOf(t).Unfinished? ==> PartialLength(t) == |t|
  {
    assert !IntroAt(t, 0);
  }

  /** The first `k` bytes come out, the others are carried. */
  predicate CutAt(t: bytes, s: Scanned, k: nat) {
    s.out + s.carry == t && |s.out| == k
  }

  lemma ScanTextHead(t: bytes, f: bytes -> bytes, k: nat)
    requires t != [] && HeadOf(t).Text? && HeadOf(t).n <= k <= |t|
    requires var u := t[HeadOf(t).n..]; CutAt(u, Scan(u, f), k - HeadOf(t).n)
    ensures CutAt(t, Scan(t, f), k)
  {
    var n := HeadOf(t).n;
    EmitCut(t, n, Scan(t[n..], f), k);
  }

  lemma EmitCut(t: bytes, n: nat, s: Scanned, k: nat)
    requires n <= k <= |t| && CutAt(t[n..], s, k - n)
    ensures CutAt(t, Emit(t[..n], s), k)
  {
    AppendAssoc(t[..n], s.out, s.carry);
    assert t[..n] + t[n..] == t;
  }

  /** Text with no command in it passes through, all but a possible start of an intro. */
  lemma {:induction false} ScanText(t: bytes, f: bytes -> bytes)
    requires NoIntro(t)
    ensures CutAt(t, Scan(t, f), |t| - PartialLength(t))
    decreases |t|
  {
    if t != [] {
      HeadOfText(t);
      if HeadOf(t).Text? {
        NoIntroTail(t, HeadOf(t).n);
        PartialLengthTail(t);
        ScanText(t[HeadOf(t).n..], f);
        ScanTextHead(t, f, |t| - PartialLength(t));
      }
    }
  }

  /** A complete command after such text is replaced where it stands, and scanning goes on after it. */
  lemma {:induction false} ScanCommand(t: bytes, c: bytes, rest: bytes, f: bytes -> bytes)
    requires NoIntro(t) && IsCommand(c)
    ensures Scan(t + (c + rest), f) == Emit(t + f(c), Scan(rest, f))
    decreases |t|
  {
    if t == [] {
      assert t + (c + rest) == c + rest && t + f(c) == f(c);
      ScanCommandFirst(c, rest, f);
    } else {
      TextBeforeCommand(t, c + rest);
      SkipText(t, c + rest, f);
      var n := HeadOf(t + (c + rest)).n;
      NoIntroTail(t, n);
      ScanCommand(t[n..], c, rest, f);
      EmitSplit(t, n, f(c), Scan(rest, f));
    }
  }

  lemma EmitSplit(t: bytes, n: nat, x: bytes, s: Scanned)
    requires n <= |t|
    ensures Emit(t[..n], Emit(t[n..] + x, s)) == Emit(t + x, s)
  {
    EmitTwice(t[..n], t[n..] + x, s);
    AppendAssoc(t[..n], t[n..], x);
    assert t[..n] + t[n..] == t;
  }

  lemma ScanCommandFirst(c: bytes, rest: bytes, f: bytes -> bytes)
    requires IsCommand(c)
    ensures Scan(c + rest, f) == Emit(f(c), Scan(rest, f))
  {
    ScanHead(c, rest, f);
    assert HeadOf(c) == Command(|c|);
    assert c[..|c|] == c && c[|c|..] + rest == rest;
  }

  /** Text at the front that ends within `t` is emitted, and the scan goes on behind it. */
  lemma SkipText(t: bytes, d: bytes, f: bytes -> bytes)
    requires t != [] && HeadOf(t + d).Text? && HeadOf(t + d).n <= |t|
    ensures Scan(t + d, f) == Emit(t[..HeadOf(t + d).n], Scan(t[HeadOf(t + d).n..] + d, f))
  {
    var n := HeadOf(t + d).n;
    assert (t + d)[..n] == t[..n] && (t + d)[n..] == t[n..] + d;
  }

  lemma TextBeforeCommand(t: bytes, d: bytes)
    requires t != [] && NoIntro(t) && d != [] && d[0] == ESC
    ensures HeadOf(t + d).Text? && HeadOf(t + d).n <= |t|
  {
    assert !IntroAt(t, 0);
    assert (t + d)[|t|] == ESC;
    if |t| > 1 { assert (t + d)[1] == t[1]; }
    if |t| > 2 { assert (t + d)[2] == t[2]; }
  }

  /** A command still without its terminator is carried, the text before it is not. */
  lemma {:induction false} ScanOpen(t: bytes, c: bytes, f: bytes -> bytes)
    requires NoIntro(t) && IntroAt(c, 0) && FirstTerminator(c, 3).Nowhere?
    ensures Scan(t + c, f) == Scanned(t, c)
    decreases |t|
  {
    if t == [] {
      assert t + c == c;
    } else {
      TextBeforeCommand(t, c);
      SkipText(t, c, f);
      var n := HeadOf(t + c).n;
      NoIntroTail(t, n);
      ScanOpen(t[n..], c, f);
      assert t == t[..n] + t[n..];
    }
  }

  // ---- the transcoder ----

  method BytesHasAPC(d: bytes) returns (found: bool)
    ensures found <==> !NoIntro(d)
  {
    var i := 0;
    while i + 2 < |d|
      invariant 0 <= i
      invariant forall k: nat :: k < i ==> !IntroAt(d, k)
    {
      if d[i] == ESC && d[i + 1] == UNDERSCORE && d[i + 2] == LETTER_G {
        assert IntroAt(d, i);
        return true;
      }
      i := i + 1;
    }
    found := false;
  }

  method BytesHasPartialAPC(d: bytes) returns (partial: bool)
    ensures partial <==> PartialLength(d) > 0
  {
    if |d| == 0 || d[|d| - 1] != ESC {
      return |d| >= 2 && d[|d| - 2] == ESC && d[|d| - 1] == UNDERSCORE;
    }
    partial := true;
  }

  /** Position and length of the first terminator, or -1. */
  method KittyTerminator(d: bytes, start: nat) returns (pos: int, len: nat)
    ensures FirstTerminator(d, start) == if pos < 0 then Nowhere else At(pos, len)
  {
    var i := start;
    while i < |d|
      invariant start <= i
      invariant FirstTerminator(d, start) == FirstTerminator(d, i)
      decreases |d| - i
    {
      if d[i] == BEL {
        return i, 1;
      }
      if d[i] == ESC && i + 1 < |d| && d[i + 1] == BACKSLASH {
        return i, 2;
      }
      i := i + 1;
    }
    return -1, 0;
  }

  /** What stands at position `i`: text to skip, a complete command, or the start of an unfinished one. */
  method Classify(data: bytes, i: nat) returns (h: Head)
    requires i < |data|
    ensures h == HeadOf(data[i..]) && (!h.Unfinished? ==> i + h.n <= |data|)
  {
    HeadAt(data, i);
    if data[i] != ESC {
      return Text(1);
    }
    if i + 1 >= |data| {
      return Unfinished;
    }
    if data[i + 1] != UNDERSCORE {
      return Text(1);
    }
    if i + 2 >= |data| {
      return Unfinished;
    }
    if data[i + 2] != LETTER_G {
      return Text(2);
    }
    var term, termLen := KittyTerminator(data, i + 3);
    if term < 0 {
      return Unfinished;
    }
    h := Command(term + termLen - i);
  }

  class KittyTranscoder {
    var carry: bytes
    const transcode: bytes -> bytes

    constructor (transcode: bytes -> bytes)
      ensures this.transcode == transcode && carry == []
    {
      this.transcode := transcode;
      carry := [];
    }

    /** One chunk in, what can be emitted out. The fast path hands the chunk back untouched. */
    method Feed(chunk: bytes) returns (out: bytes)
      modifies this
      ensures Scanned(out, carry) == Scan(old(carry) + chunk, transcode)
    {
      if |carry| == 0 {
        var apc := BytesHasAPC(chunk);
        var partial := BytesHasPartialAPC(chunk);
        if !apc && !partial {
          ScanText(chunk, transcode);
          assert carry == [] && carry + chunk == chunk;
          assert chunk[..|chunk|] == chunk && chunk[|chunk|..] == [];
          return chunk;
        }
      }
      var data := chunk;
      if |carry| != 0 {
        data := carry + chunk;
        carry := [];
      }
      assert data == old(carry) + chunk;
      out := FeedSlow(data);
    }

    /** The scanning loop, over the carry and the chunk together. */
    method FeedSlow(data: bytes) returns (out: bytes)
      requires carry == []
      modifies this
      ensures Scanned(out, carry) == Scan(data, transcode)
    {
      out := [];
      var textStart, i := 0, 0;
      StartOf(data, transcode);
      while i < |data|
        invariant 0 <= textStart <= i <= |data|
        invariant carry == []
        invariant Scan(data, transcode) == Outcome(data, out, textStart, i, transcode)
        decreases |data| - i
      {
        var unfinished, next, outNext, textNext := ScanStep(data, out, textStart, i, transcode);
        if unfinished {
          StepOpen(data, i, Pending(out, data, textStart, i), transcode);
          out := out + data[textStart..i];
          carry := data[i..];
          return;
        }
        out, textStart, i := outNext, textNext, next;
      }
      StepOpen(data, i, Pending(out, data, textStart, i), transcode);
      out := out + data[textStart..];
    }
  }

  /** Output so far: what was emitted, and the text seen since and not yet copied. */
  function Pending(out: bytes, data: bytes, textStart: nat, i: nat): bytes
    requires textStart <= i <= |data|
  {
    out + data[textStart..i]
  }

  /** The outcome the loop is heading for from position `i`. */
  function Outcome(data: bytes, out: bytes, textStart: nat, i: nat, f: bytes -> bytes): Scanned
    requires textStart <= i <= |data|
  {
    Emit(Pending(out, data, textStart, i), Scan(data[i..], f))
  }

  lemma StartOf(data: bytes, f: bytes -> bytes)
    ensures Scan(data, f) == Outcome(data, [], 0, 0, f)
  {
    assert data[0..] == data;
    EmitNothing(Scan(data, f));
  }

  /** One round of the scanning loop: skip text, or copy it and the replaced command. */
  method ScanStep(data: bytes, out: bytes, textStart: nat, i: nat, transcode: bytes -> bytes)
    returns (unfinished: bool, next: nat, outNext: bytes, textNext: nat)
    requires textStart <= i < |data|
    ensures unfinished ==> HeadOf(data[i..]).Unfinished?
    ensures !unfinished ==> i < next && textNext <= next <= |data|
    ensures !unfinished ==> Outcome(data, out, textStart, i, transcode) == Outcome(data, outNext, textNext, next, transcode)
  {
    var head := Classify(data, i);
    unfinished, next, outNext, textNext := false, i, out, textStart;
    if head.Text? {
      StepText(out, data, textStart, i, head.n, transcode);
      next := i + head.n;
    } else if head.Unfinished? {
      unfinished := true;
    } else {
      next := i + head.n;
      StepCommand(out, data, textStart, i, next, transcode);
      outNext := out + data[textStart..i];
      outNext := outNext + transcode(data[i..next]);
      textNext := next;
    }
  }

  /** The head at position `i`, in the terms the loop tests. */
  lemma HeadAt(data: bytes, i: nat)
    requires i < |data|
    ensures HeadOf(data[i..]) ==
              if data[i] != ESC then Text(1)
              else if i + 1 >= |data| then Unfinished
              else if data[i + 1] != UNDERSCORE then Text(1)
              else if i + 2 >= |data| then Unfinished
              else if data[i + 2] != LETTER_G then Text(2)
              else
                var t := FirstTerminator(data, i + 3);
                if t.Nowhere? then Unfinished else Command(t.pos + t.len - i)
  {
    if i + 2 < |data| {
      TerminatorShift(data, i, 3);
    }
  }

  lemma StepOpen(data: bytes, i: nat, emitted: bytes, f: bytes -> bytes)
    requires i <= |data| && (i < |data| ==> HeadOf(data[i..]).Unfinished?)
    ensures Emit(emitted, Scan(data[i..], f)) == Scanned(emitted, data[i..])
  {
    assert emitted + [] == emitted;
  }

  lemma ScanTextAt(data: bytes, i: nat, n: nat, f: bytes -> bytes)
    requires i < |data| && HeadOf(data[i..]) == Text(n)
    ensures i + n <= |data| && Scan(data[i..], f) == Emit(data[i..i + n], Scan(data[i + n..], f))
  {
    TailSlices(data, i, i + n);
  }

  lemma ScanCommandAt(data: bytes, i: nat, end: nat, f: bytes -> bytes)
    requires i < end <= |data| && HeadOf(data[i..]) == Command(end - i)
    ensures Scan(data[i..], f) == Emit(f(data[i..end]), Scan(data[end..], f))
  {
    TailSlices(data, i, end);
  }

  lemma StepText(out: bytes, data: bytes, textStart: nat, i: nat, n: nat, f: bytes -> bytes)
    requires textStart <= i < |data| && HeadOf(data[i..]) == Text(n)
    ensures i + n <= |data|
    ensures Outcome(data, out, textStart, i, f) == Outcome(data, out, textStart, i + n, f)
  {
    ScanTextAt(data, i, n, f);
    SliceGrows(out, data, textStart, i, i + n);
    EmitTwice(Pending(out, data, textStart, i), data[i..i + n], Scan(data[i + n..], f));
  }

  lemma StepCommand(out: bytes, data: bytes, textStart: nat, i: nat, end: nat, f: bytes -> bytes)
    requires textStart <= i < end <= |data| && HeadOf(data[i..]) == Command(end - i)
    ensures Outcome(data, out, textStart, i, f) == Outcome(data, out + data[textStart..i] + f(data[i..end]), end, end, f)
  {
    ScanCommandAt(data, i, end, f);
    EmitTwice(Pending(out, data, textStart, i), f(data[i..end]), Scan(data[end..], f));
    EmptySlice(out + data[textStart..i] + f(data[i..end]), data, end);
  }

  /** A terminator found in the stream is the one found in its tail. */
  lemma {:induction false} TerminatorShift(data: bytes, i: nat, k: nat)
    requires i <= |data|
    ensures FirstTerminator(data, i + k) ==
              var t := FirstTerminator(data[i..], k); if t.Nowhere? then Nowhere else At(t.pos + i, t.len)
    decreases |data| - (i + k)
  {
    if i + k < |data| {
      TerminatorShift(data, i, k + 1);
      assert TerminatorLength(data[i..], k) == TerminatorLength(data, i + k);
    }
  }
}
