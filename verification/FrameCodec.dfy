// The wire protocol between a session daemon and its clients: one type byte, a
// big-endian 32-bit length, the payload.
module FrameCodec {
  import opened Bytes

  const FRAME_OUTPUT: byte := 0x01
  const FRAME_CLOSE: byte := 0x04
  const FRAME_REPLAY: byte := 0x05
  const MAX_FRAME_PAYLOAD: nat := 34 * 1024 * 1024
  const TWO_32: nat := 0x1_0000_0000

  datatype Frame = Frame(ftype: byte, payload: bytes)

  /** PutUint32 in big-endian order. */
  function Uint32(n: nat): bytes
    requires n < TWO_32
  {
    [n / 0x100_0000, n / 0x1_0000 % 256, n / 256 % 256, n % 256]
  }

  function ReadUint32(b: bytes): nat
    requires |b| == 4
  {
    var b0: nat, b1: nat, b2: nat, b3: nat := b[0], b[1], b[2], b[3];
    b0 * 0x100_0000 + b1 * 0x1_0000 + b2 * 256 + b3
  }

  lemma ReadBack(n: nat)
    requires n < TWO_32
    ensures ReadUint32(Uint32(n)) == n
  {
    assert n / 256 / 256 == n / 0x1_0000 && n / 0x1_0000 / 256 == n / 0x100_0000;
  }

  /** The most significant byte comes first. */
  lemma BigEndian()
    ensures Uint32(0x0102_0304) == [1, 2, 3, 4] && ReadUint32([1, 2, 3, 4]) == 0x0102_0304
  {}

  /** encodeFrame; the length is truncated to 32 bits. */
  function Encode(f: Frame): bytes {
    [f.ftype] + (Uint32(|f.payload| % TWO_32) + f.payload)
  }

  function EncodeAll(fs: seq<Frame>): bytes {
    if fs == [] then [] else Encode(fs[0]) + EncodeAll(fs[1..])
  }

  /** The frame at the front of a stream, if the stream holds all of it and its length is acceptable. */
  datatype Front = Incomplete | Oversize | Whole(frame: Frame, size: nat)

  function FrontOf(s: bytes): (r: Front)
    ensures r.Whole? ==> 5 <= r.size <= |s|
  {
    if |s| < 5 then Incomplete
    else
      var plen := ReadUint32(s[1..5]);
      if plen > MAX_FRAME_PAYLOAD then Oversize
      else if |s| < 5 + plen then Incomplete
      else Whole(Frame(s[0], s[5..5 + plen]), 5 + plen)
  }

  /** The frames a reader takes from a stream before it stops: at its end, at an oversize frame, after a close. */
  function Decode(s: bytes): seq<Frame> {
    var r := FrontOf(s);
    if !r.Whole? then []
    else if r.frame.ftype == FRAME_CLOSE then [r.frame]
    else [r.frame] + Decode(s[r.size..])
  }

  /** The front of the stream from `pos` on, in the terms the reader tests. */
  lemma FrontAt(s: bytes, pos: nat)
    requires pos <= |s|
    ensures FrontOf(s[pos..]) ==
              if |s| - pos < 5 then Incomplete
              else
                var plen := ReadUint32(s[pos + 1..pos + 5]);
                if plen > MAX_FRAME_PAYLOAD then Oversize
                else if |s| - pos - 5 < plen then Incomplete
                else Whole(Frame(s[pos], s[pos + 5..pos + 5 + plen]), 5 + plen)
  {
    if |s| - pos >= 5 {
      SubSlice(s, pos, 1, 5);
      var plen := ReadUint32(s[pos + 1..pos + 5]);
      if |s| - pos - 5 >= plen {
        SubSlice(s, pos, 5, 5 + plen);
      }
    }
  }

  lemma SubSlice(s: bytes, pos: nat, i: nat, j: nat)
    requires i <= j && pos + j <= |s|
    ensures s[pos..][i..j] == s[pos + i..pos + j] && s[pos..][j..] == s[pos + j..]
  {}

  /** One frame from position `pos`: the five header bytes, then the payload. */
  method ReadFrame(s: bytes, pos: nat) returns (front: Front)
    requires pos <= |s|
    ensures front == FrontOf(s[pos..])
  {
    FrontAt(s, pos);
    if |s| - pos < 5 {
      return Incomplete;
    }
    var header := s[pos..pos + 5];
    assert header[1..5] == s[pos + 1..pos + 5];
    var plen := ReadUint32(header[1..5]);
    if plen > MAX_FRAME_PAYLOAD {
      return Oversize;
    }
    if |s| - pos - 5 < plen {
      return Incomplete;
    }
    front := Whole(Frame(header[0], s[pos + 5..pos + 5 + plen]), 5 + plen);
  }

  lemma DecodeAt(s: bytes, pos: nat, frames: seq<Frame>, f: Frame, n: nat)
    requires pos <= |s| && FrontOf(s[pos..]) == Whole(f, n)
    ensures pos + n <= |s|
    ensures frames + Decode(s[pos..]) ==
              if f.ftype == FRAME_CLOSE then frames + [f] else (frames + [f]) + Decode(s[pos + n..])
  {
    TailSlices(s, pos, pos + n);
    AppendAssoc(frames, [f], Decode(s[pos + n..]));
  }

  /** readFrames: frame after frame, until the reader stops. */
  method ReadFrames(s: bytes) returns (frames: seq<Frame>)
    ensures frames == Decode(s)
  {
    frames := [];
    var pos := 0;
    assert s[0..] == s && [] + Decode(s) == Decode(s);
    while true
      invariant pos <= |s|
      invariant Decode(s) == frames + Decode(s[pos..])
      decreases |s| - pos
    {
      assert frames + [] == frames;
      var front := ReadFrame(s, pos);
      if !front.Whole? {
        break;
      }
      DecodeAt(s, pos, frames, front.frame, front.size);
      frames := frames + [front.frame];
      pos := pos + front.size;
      if front.frame.ftype == FRAME_CLOSE {
        return;
      }
    }
  }

  predicate Fits(f: Frame) { |f.payload| <= MAX_FRAME_PAYLOAD }

  ghost predicate AllFit(fs: seq<Frame>) { forall f :: f in fs ==> Fits(f) }

  lemma EncodeShape(f: Frame, rest: bytes)
    ensures var s := Encode(f) + rest;
            |s| == 5 + |f.payload| + |rest| && s[0] == f.ftype
            && ReadUint32(s[1..5]) == |f.payload| % TWO_32 && s[5..] == f.payload + rest
  {
    var s := Encode(f) + rest;
    ReadBack(|f.payload| % TWO_32);
    assert s[1..5] == Uint32(|f.payload| % TWO_32);
  }

  lemma FrontOfEncoded(f: Frame, rest: bytes)
    requires Fits(f)
    ensures FrontOf(Encode(f) + rest) == Whole(f, |Encode(f)|)
  {
    EncodeShape(f, rest);
    var s := Encode(f) + rest;
    assert s[5..5 + |f.payload|] == s[5..][..|f.payload|] == f.payload;
  }

  /** Everything up to and including the first close frame. */
  function UpToClose(fs: seq<Frame>): seq<Frame> {
    if fs == [] then []
    else if fs[0].ftype == FRAME_CLOSE then [fs[0]]
    else [fs[0]] + UpToClose(fs[1..])
  }

  /** Round trip: any list of frames within the limit is read back, up to the first close. */
  lemma {:induction false} DecodeEncodeAll(fs: seq<Frame>)
    requires AllFit(fs)
    ensures Decode(EncodeAll(fs)) == UpToClose(fs)
  {
    if fs != [] {
      assert fs[0] in fs;
      FrontOfEncoded(fs[0], EncodeAll(fs[1..]));
      DecodeEncodeAll(fs[1..]);
      assert EncodeAll(fs)[|Encode(fs[0])|..] == EncodeAll(fs[1..]);
    }
  }

  /** How many frames have arrived in full once `cut` bytes have. */
  function Arrived(fs: seq<Frame>, cut: nat): (k: nat)
    ensures k <= |fs|
  {
    if fs == [] || cut < |Encode(fs[0])| then 0 else 1 + Arrived(fs[1..], cut - |Encode(fs[0])|)
  }

  /** Arrived counts the longest prefix of frames whose encoding fits in the bytes that came. */
  lemma {:induction false} ArrivedIsLongest(fs: seq<Frame>, cut: nat)
    ensures var k := Arrived(fs, cut);
            |EncodeAll(fs[..k])| <= cut && (k < |fs| ==> cut < |EncodeAll(fs[..k + 1])|)
  {
    var k := Arrived(fs, cut);
    if fs == [] || cut < |Encode(fs[0])| {
      assert fs[..0] == [];
      if fs != [] { assert fs[..1] == [fs[0]] && fs[..1][1..] == []; }
    } else {
      ArrivedIsLongest(fs[1..], cut - |Encode(fs[0])|);
      assert fs[..k][1..] == fs[1..][..k - 1];
      if k < |fs| { assert fs[..k + 1][1..] == fs[1..][..k]; }
    }
  }

  /** A connection that breaks anywhere still delivers a prefix: exactly the frames that arrived in full. */
  lemma {:induction false} CutDeliversPrefix(fs: seq<Frame>, cut: nat)
    requires AllFit(fs) && cut <= |EncodeAll(fs)|
    ensures Decode(EncodeAll(fs)[..cut]) == UpToClose(fs[..Arrived(fs, cut)])
  {
    if fs != [] {
      var f, tail := fs[0], fs[1..];
      assert f in fs;
      var n, k := |Encode(f)|, Arrived(fs, cut);
      if cut < n {
        CutInsideFirst(f, EncodeAll(tail), cut);
      } else {
        CutDeliversPrefix(tail, cut - n);
        var rest := EncodeAll(tail)[..cut - n];
        assert EncodeAll(fs)[..cut] == Encode(f) + rest;
        FrontOfEncoded(f, rest);
        assert (Encode(f) + rest)[n..] == rest;
        assert fs[..k][0] == f && fs[..k][1..] == tail[..k - 1];
      }
    }
  }

  lemma CutInsideFirst(f: Frame, rest: bytes, cut: nat)
    requires Fits(f) && cut < |Encode(f)|
    ensures Decode((Encode(f) + rest)[..cut]) == []
  {
    EncodeShape(f, rest);
    var s := (Encode(f) + rest)[..cut];
    if |s| >= 5 {
      assert s[1..5] == (Encode(f) + rest)[1..5];
    }
  }

  /** A frame is read back exactly when its payload is within the limit. */
  lemma RoundTripIffFits(f: Frame)
    ensures Decode(Encode(f)) == [f] <==> Fits(f)
  {
    assert Encode(f) + [] == Encode(f);
    if Fits(f) {
      FrontOfEncoded(f, []);
      assert Encode(f)[|Encode(f)|..] == [];
    } else {
      EncodeShape(f, []);
      var r := FrontOf(Encode(f));
      if r.Whole? {
        assert |r.frame.payload| == |f.payload| % TWO_32 < |f.payload|;
        assert Decode(Encode(f))[0] == r.frame;
      }
    }
  }
}
