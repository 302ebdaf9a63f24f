// Byte strings, and the two ways the terminal path cuts them up.
module Bytes {
  type byte = b: int | 0 <= b < 256
  type bytes = seq<byte>

  function Concat<T>(parts: seq<seq<T>>): seq<T> {
    if parts == [] then [] else parts[0] + Concat(parts[1..])
  }

  lemma AppendAssoc<T>(a: seq<T>, b: seq<T>, c: seq<T>)
    ensures a + (b + c) == (a + b) + c
  {}

  lemma {:induction false} ConcatAppend<T>(a: seq<seq<T>>, b: seq<seq<T>>)
    ensures Concat(a + b) == Concat(a) + Concat(b)
  {
    if a == [] {
      assert a + b == b;
    } else {
      ConcatAppend(a[1..], b);
      AppendAssoc(a[0], Concat(a[1..]), Concat(b));
      assert (a + b)[0] == a[0] && (a + b)[1..] == a[1..] + b;
    }
  }

  lemma ConcatLast<T>(a: seq<seq<T>>, x: seq<T>)
    ensures Concat(a + [x]) == Concat(a) + x
  {
    ConcatAppend(a, [x]);
    assert Concat([x]) == x + Concat([]);
  }

  /** A slice appended piece by piece. */
  lemma SliceGrows<T>(out: seq<T>, s: seq<T>, from: nat, i: nat, j: nat)
    requires from <= i <= j <= |s|
    ensures out + s[from..i] + s[i..j] == out + s[from..j]
  {
    assert s[from..i] + s[i..j] == s[from..j];
    AppendAssoc(out, s[from..i], s[i..j]);
  }

  /** The front and the rest of a tail. */
  lemma TailSlices<T>(s: seq<T>, i: nat, j: nat)
    requires i <= j <= |s|
    ensures s[i..][..j - i] == s[i..j] && s[i..][j - i..] == s[j..]
  {}

  lemma EmptySlice<T>(out: seq<T>, s: seq<T>, i: nat)
    requires i <= |s|
    ensures out + s[i..i] == out
  {}

  /** The last `n` elements, or all of them when there are fewer. */
  function Last<T>(s: seq<T>, n: nat): seq<T> {
    if |s| <= n then s else s[|s| - n..]
  }
}
