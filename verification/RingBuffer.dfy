// The replay buffer of a session: a fixed array written with at most two block
// copies, against the plain reading "the last capacity bytes ever written".
module RingBuffer {
  import opened Bytes

  function Min(a: int, b: int): int { if a < b then a else b }

  lemma LastOfLast<T>(s: seq<T>, m: nat, n: nat)
    ensures Last(Last(s, m), n) == Last(s, Min(m, n))
  {}

  lemma DropAppend<T>(x: seq<T>, y: seq<T>, k: nat)
    requires k <= |x|
    ensures (x + y)[k..] == x[k..] + y
  {}

  lemma DropPast<T>(x: seq<T>, y: seq<T>, k: nat)
    requires |x| <= k <= |x| + |y|
    ensures (x + y)[k..] == y[k - |x|..]
  {}

  lemma LastWithinSecond<T>(x: seq<T>, y: seq<T>, n: nat)
    requires |y| >= n
    ensures Last(x + y, n) == Last(y, n)
  {
    DropPast(x, y, |x| + |y| - n);
    if |x + y| <= n {
      assert x == [] && x + y == y;
    }
  }

  lemma LastAcross<T>(x: seq<T>, y: seq<T>, n: nat)
    requires |y| <= n <= |x| + |y|
    ensures Last(x + y, n) == x[|x| + |y| - n..] + y
  {
    DropAppend(x, y, |x| + |y| - n);
    if |x| + |y| == n {
      assert x[0..] == x;
    }
  }

  /** Only the last `n` of each part can matter for the last `n` of the whole. */
  lemma LastOfParts<T>(w: seq<T>, d: seq<T>, n: nat)
    ensures Last(Last(w, n) + Last(d, n), n) == Last(w + d, n)
  {
    if |d| >= n {
      LastWithinSecond(w, d, n);
      LastWithinSecond(Last(w, n), Last(d, n), n);
    } else if |w| > n {
      LastAcross(w, d, n);
      LastAcross(Last(w, n), d, n);
      TailSlices(w, |w| - n, |w| + |d| - n);
    }
  }

  /** Appending `d` to `c` in two parts, the second pushing out the oldest bytes. */
  lemma TwoParts(c: bytes, d: bytes, n: nat, used: nat)
    requires |c| <= n && |d| <= n && used == Min(|d|, n - |c|)
    ensures used == |d| ==> Last(c + d, n) == c + d[..used]
    ensures used < |d| ==> Last(c + d, n) == (c + d[..used])[|d| - used..] + d[used..]
  {
    assert d[..used] + d[used..] == d;
    if used == |d| {
      assert d[..used] == d;
    } else {
      AppendAssoc(c, d[..used], d[used..]);
      DropAppend(c + d[..used], d[used..], |d| - used);
    }
  }

  /** What a write of `data` must leave in a buffer holding `c`, in the two parts it is done in. */
  lemma WriteMeaning(w: bytes, data: bytes, n: nat, c: bytes, d: bytes, used: nat)
    requires c == Last(w, n) && d == Last(data, n) && used == Min(|d|, n - |c|)
    ensures used == |d| ==> Last(w + data, n) == c + d[..used] && |c| + used == Min(n, |w + data|)
    ensures used < |d| ==> Last(w + data, n) == (c + d[..used])[|d| - used..] + d[used..] && Min(n, |w + data|) == n
    ensures used == 0 ==> c + d[..used] == c
  {
    LastOfParts(w, data, n);
    TwoParts(c, d, n, used);
  }

  /** A write longer than the buffer keeps its last bytes only. */
  method Trim(data: bytes, n: nat) returns (d: bytes)
    ensures d == Last(data, n)
  {
    d := data;
    if |data| > n {
      d := data[|data| - n..];
    }
  }

  /** `chunk` written into `b` at `dest`, going round at the end. */
  function Wrapped(b: bytes, dest: nat, chunk: bytes): (r: bytes)
    requires dest <= |b| && |chunk| <= |b|
    ensures |r| == |b|
  {
    if dest + |chunk| <= |b| then b[..dest] + chunk + b[dest + |chunk|..]
    else
      var room := |b| - dest;
      chunk[room..] + b[|chunk| - room..dest] + chunk[..room]
  }

  function Advance(n: nat, dest: nat, k: nat): nat
    requires dest <= n && k <= n
  {
    if dest + k >= n then dest + k - n else dest + k
  }

  /** Bytes of a full buffer, oldest first, when the oldest is at `tail`. */
  function Unrolled(b: bytes, tail: nat): bytes
    requires tail <= |b|
  {
    b[tail..] + b[..tail]
  }

  /** Overwriting the oldest bytes of a full buffer drops them and appends the new ones. */
  lemma OverwriteOldest(b: bytes, h: nat, chunk: bytes)
    requires h < |b| && 0 < |chunk| <= |b|
    ensures Unrolled(Wrapped(b, h, chunk), Advance(|b|, h, |chunk|)) == Unrolled(b, h)[|chunk|..] + chunk
  {
    var r, t := Wrapped(b, h, chunk), Advance(|b|, h, |chunk|);
    if h + |chunk| < |b| {
      assert r[..t] == b[..h] + chunk && r[t..] == b[t..];
      assert Unrolled(b, h)[|chunk|..] == b[t..] + b[..h];
    } else if h + |chunk| == |b| {
      assert r[..t] == [] && r[t..] == b[..h] + chunk;
      assert Unrolled(b, h)[|chunk|..] == b[..h];
    } else {
      var room := |b| - h;
      assert r[..t] == chunk[room..] && r[t..] == b[t..h] + chunk[..room];
      assert Unrolled(b, h)[|chunk|..] == b[t..h];
      assert chunk[..room] + chunk[room..] == chunk;
    }
  }

  /** Go's copy: as many bytes of `src` as fit behind `at`. */
  function Spliced(b: bytes, at: nat, src: bytes): (r: bytes)
    requires at <= |b|
    ensures |r| == |b|
  {
    var k := Min(|src|, |b| - at);
    b[..at] + src[..k] + b[at + k..]
  }

  method Copy(dst: array<byte>, at: nat, src: bytes)
    requires at <= dst.Length
    modifies dst
    ensures dst[..] == Spliced(old(dst[..]), at, src)
  {
    var k := Min(|src|, dst.Length - at);
    forall i | 0 <= i < k {
      dst[at + i] := src[i];
    }
  }

  lemma OneCopy(b: bytes, dest: nat, chunk: bytes)
    requires dest + |chunk| <= |b|
    ensures Spliced(b, dest, chunk) == Wrapped(b, dest, chunk)
  {
    assert chunk[..|chunk|] == chunk;
  }

  lemma TwoCopies(b: bytes, dest: nat, chunk: bytes)
    requires dest < |b| < dest + |chunk| && |chunk| <= |b|
    ensures Spliced(Spliced(b, dest, chunk[..|b| - dest]), 0, chunk[|b| - dest..]) == Wrapped(b, dest, chunk)
  {
    var room := |b| - dest;
    var mid, rest := Spliced(b, dest, chunk[..room]), chunk[room..];
    assert mid == b[..dest] + chunk[..room];
    assert Spliced(mid, 0, rest) == rest + mid[|rest|..];
    assert mid[|rest|..] == b[|rest|..dest] + chunk[..room];
  }

  lemma SnapshotCopies(c: bytes, b: bytes, tail: nat)
    requires |c| == |b| && tail <= |b|
    ensures Spliced(Spliced(c, 0, b[tail..]), |b| - tail, b[..tail]) == Unrolled(b, tail)
  {
    var mid := Spliced(c, 0, b[tail..]);
    assert mid == b[tail..] + c[|b| - tail..];
    assert mid[..|b| - tail] == b[tail..];
  }

  class Ring {
    const buf: array<byte>
    var head: nat
    var tail: nat
    var size: nat
    ghost var written: bytes

    /** A buffer that is not full starts at 0; a full one writes over its oldest byte next. */
    ghost predicate Shape()
      reads this
    {
      && size <= buf.Length
      && (size < buf.Length ==> tail == 0 && head == size)
      && (size == buf.Length ==> head == tail && (head < buf.Length || head == 0))
    }

    ghost predicate Valid()
      reads this, buf
    {
      Shape() && size == Min(buf.Length, |written|) && Contents() == Last(written, buf.Length)
    }

    ghost function Contents(): bytes
      reads this, buf
    {
      if size < buf.Length then buf[..size]
      else if tail <= buf.Length then Unrolled(buf[..], tail)
      else []
    }

    constructor (capacity: nat)
      ensures Valid() && fresh(buf) && buf.Length == capacity && written == []
    {
      buf := new byte[capacity];
      head, tail, size := 0, 0, 0;
      written := [];
    }

    /** The two-copy write of one block at `dest`. */
    method PutAt(dest: nat, chunk: bytes) returns (dest': nat)
      requires dest < buf.Length && |chunk| <= buf.Length
      modifies buf
      ensures buf[..] == Wrapped(old(buf[..]), dest, chunk)
      ensures dest' == Advance(buf.Length, dest, |chunk|)
    {
      var availToEnd := buf.Length - dest;
      dest' := dest;
      if |chunk| <= availToEnd {
        OneCopy(buf[..], dest, chunk);
        Copy(buf, dest, chunk);
        dest' := dest' + |chunk|;
      } else {
        TwoCopies(buf[..], dest, chunk);
        Copy(buf, dest, chunk[..availToEnd]);
        Copy(buf, 0, chunk[availToEnd..]);
        dest' := |chunk| - availToEnd;
      }
      if dest' >= buf.Length {
        dest' := dest' - buf.Length;
      }
    }

    /** First part of a write: what still fits. */
    method Fill(chunk: bytes)
      requires Shape() && 0 < |chunk| <= buf.Length - size
      modifies this`head, this`size, buf
      ensures Shape() && size == old(size) + |chunk|
      ensures Contents() == old(Contents()) + chunk
    {
      ghost var b := buf[..];
      head := PutAt(head, chunk);
      size := size + |chunk|;
      assert buf[..size] == b[..old(size)] + chunk;
      if size == buf.Length {
        assert Unrolled(buf[..], 0) == buf[..size];
      }
    }

    /** Second part of a write: the oldest bytes of a full buffer give way. */
    method Overwrite(chunk: bytes)
      requires Shape() && size == buf.Length && 0 < |chunk| <= buf.Length
      modifies this`head, this`tail, buf
      ensures Shape() && Contents() == old(Contents())[|chunk|..] + chunk
    {
      OverwriteOldest(buf[..], head, chunk);
      head := PutAt(head, chunk);
      tail := head;
    }

    /** Append, dropping the oldest bytes once the capacity is reached. */
    method Write(data: bytes)
      requires Valid()
      modifies this, buf
      ensures Valid() && written == old(written) + data
    {
      ghost var w, c := written, Contents();
      written := written + data;
      if |data| == 0 {
        assert written == w;
        return;
      }
      if buf.Length == 0 {
        return;
      }
      WriteParts(w, data);
    }

    /** A write of some bytes to a buffer with room for some: first what fits, then the rest over the oldest. */
    method WriteParts(ghost w: bytes, data: bytes)
      requires Shape() && buf.Length > 0 && size == Min(buf.Length, |w|) && Contents() == Last(w, buf.Length)
      modifies this`head, this`tail, this`size, buf
      ensures Shape() && size == Min(buf.Length, |w + data|) && Contents() == Last(w + data, buf.Length)
    {
      ghost var c := Contents();
      var d := Trim(data, buf.Length);
      var used := Min(|d|, buf.Length - size);
      WriteMeaning(w, data, buf.Length, c, d, used);
      if used > 0 {
        Fill(d[..used]);
      }
      assert Contents() == c + d[..used];
      if used < |d| {
        Overwrite(d[used..]);
      }
    }

    /** All buffered bytes, oldest first. */
    method Snapshot() returns (out: bytes)
      requires Valid()
      ensures out == Last(written, buf.Length)
    {
      if size == 0 {
        return [];
      }
      if size == buf.Length {
        var first := buf.Length - tail;
        var copied := new byte[buf.Length];
        SnapshotCopies(copied[..], buf[..], tail);
        Copy(copied, 0, buf[tail..]);
        Copy(copied, first, buf[..head]);
        return copied[..];
      }
      out := buf[tail..tail + size];
    }

    /** The last `maxBytes` of them. */
    method SnapshotTail(maxBytes: int) returns (out: bytes)
      requires Valid()
      ensures out == if maxBytes <= 0 then [] else Last(written, Min(buf.Length, maxBytes))
    {
      if size == 0 {
        return [];
      }
      if maxBytes <= 0 {
        return [];
      }
      LastOfLast(written, buf.Length, maxBytes);
      if size <= maxBytes {
        out := Snapshot();
        return;
      }
      out := TailOf(buf[..], tail, size, maxBytes);
    }
  }

  /** Logical index `i` of a buffer whose oldest byte is at `tail`. */
  method PhysicalIndex(tail: nat, i: nat, n: nat) returns (p: nat)
    requires tail < n && i <= n
    ensures p == if tail + i < n then tail + i else tail + i - n
  {
    p := (tail + i) % n;
  }

  /** The last `maxBytes` of a buffer holding more than that, with at most two block copies. */
  method TailOf(b: bytes, tail: nat, size: nat, maxBytes: nat) returns (out: bytes)
    requires maxBytes < size <= |b| && tail < |b| && (size < |b| ==> tail == 0)
    ensures out == Last(if size < |b| then b[..size] else Unrolled(b, tail), maxBytes)
  {
    var n := |b|;
    var start := size - maxBytes;
    var startIdx := PhysicalIndex(tail, start, n);
    var first := n - startIdx;
    if first >= maxBytes {
      out := b[startIdx..startIdx + maxBytes];
    } else {
      out := b[startIdx..] + b[..maxBytes - first];
    }
    if size == n {
      TailOfUnrolled(b, tail, start);
    } else {
      TailOfPartial(b, size, start);
    }
  }

  /** The newest bytes of a full buffer, in the physical order they are stored. */
  lemma TailOfUnrolled(b: bytes, t: nat, start: nat)
    requires t < |b| && start <= |b|
    ensures Last(Unrolled(b, t), |b| - start) ==
              if t + start < |b| then b[t + start..] + b[..t] else b[t + start - |b|..t]
  {}

  lemma TailOfPartial(b: bytes, size: nat, start: nat)
    requires start <= size <= |b|
    ensures Last(b[..size], size - start) == b[start..size]
  {}
}
