// Standard base64 with padding, section 4 of RFC 4648.
module Base64 {
  import opened Bytes
  import opened Options

  const PAD: byte := 61

  function Digit(n: nat): byte
    requires n < 64
  {
    if n < 26 then 65 + n
    else if n < 52 then 97 + (n - 26)
    else if n < 62 then 48 + (n - 52)
    else if n == 62 then 43
    else 47
  }

  function Value(b: byte): Option<nat> {
    if 65 <= b < 91 then Some(b - 65)
    else if 97 <= b < 123 then Some(b - 97 + 26)
    else if 48 <= b < 58 then Some(b - 48 + 52)
    else if b == 43 then Some(62)
    else if b == 47 then Some(63)
    else None
  }

  /** Letters, digits, plus, slash and the padding sign: no control byte, no separator. */
  predicate Printable(b: byte) { 43 <= b < 123 && b != 59 && b != 92 }

  function Encode(d: bytes): (e: bytes)
    ensures |e| % 4 == 0
    ensures forall i :: 0 <= i < |e| ==> Printable(e[i])
  {
    if d == [] then []
    else if |d| == 1 then [Digit(d[0] / 4), Digit(d[0] % 4 * 16), PAD, PAD]
    else if |d| == 2 then [Digit(d[0] / 4), Digit(d[0] % 4 * 16 + d[1] / 16), Digit(d[1] % 16 * 4), PAD]
    else
      [Digit(d[0] / 4), Digit(d[0] % 4 * 16 + d[1] / 16), Digit(d[1] % 16 * 4 + d[2] / 64), Digit(d[2] % 64)]
      + Encode(d[3..])
  }

  /** The decoder on canonical input; None when the text is not an encoding. */
  function Decode(e: bytes): Option<bytes> {
    if e == [] then Some([])
    else if |e| < 4 then None
    else if |e| == 4 && e[3] == PAD then
      var a, b, c := Value(e[0]), Value(e[1]), Value(e[2]);
      if a.None? || b.None? then None
      else if e[2] == PAD then (if b.value % 16 == 0 then Some([a.value * 4 + b.value / 16]) else None)
      else if c.None? || c.value % 4 != 0 then None
      else Some([a.value * 4 + b.value / 16, b.value % 16 * 16 + c.value / 4])
    else
      var a, b, c, d := Value(e[0]), Value(e[1]), Value(e[2]), Value(e[3]);
      if a.None? || b.None? || c.None? || d.None? then None
      else
        var rest := Decode(e[4..]);
        if rest.None? then None
        else Some([a.value * 4 + b.value / 16, b.value % 16 * 16 + c.value / 4, c.value % 4 * 64 + d.value] + rest.value)
  }

  lemma DigitValue(n: nat)
    requires n < 64
    ensures Value(Digit(n)) == Some(n) && Digit(n) != PAD
  {}

  /** Three bytes cut into four digits and put together again. */
  lemma Regroup(x: byte, y: byte, z: byte)
    ensures var a, b, c, d := x / 4, x % 4 * 16 + y / 16, y % 16 * 4 + z / 64, z % 64;
            a < 64 && b < 64 && c < 64 && d < 64
            && a * 4 + b / 16 == x && b % 16 * 16 + c / 4 == y && c % 4 * 64 + d == z
  {
    assert (x % 4 * 16 + y / 16) / 16 == x % 4 && (x % 4 * 16 + y / 16) % 16 == y / 16;
    assert (y % 16 * 4 + z / 64) / 4 == y % 16 && (y % 16 * 4 + z / 64) % 4 == z / 64;
  }

  /** Decoding an encoding gives the data back. */
  lemma {:induction false} DecodeEncode(d: bytes)
    ensures Decode(Encode(d)) == Some(d)
  {
    if |d| >= 3 {
      DecodeEncode(d[3..]);
      DecodeThree(d, Encode(d[3..]));
    } else if |d| == 2 {
      DecodeTwo(d[0], d[1]);
      assert d == [d[0], d[1]];
    } else if |d| == 1 {
      DecodeOne(d[0]);
      assert d == [d[0]];
    }
  }

  lemma DecodeOne(x: byte)
    ensures Decode([Digit(x / 4), Digit(x % 4 * 16), PAD, PAD]) == Some([x])
  {
    Regroup(x, 0, 0);
    DigitValue(x / 4);
    DigitValue(x % 4 * 16);
  }

  lemma DecodeTwo(x: byte, y: byte)
    ensures Decode([Digit(x / 4), Digit(x % 4 * 16 + y / 16), Digit(y % 16 * 4), PAD]) == Some([x, y])
  {
    Regroup(x, y, 0);
    DecodeTail(x / 4, x % 4 * 16 + y / 16, y % 16 * 4, x, y);
  }

  lemma DecodeTail(a: nat, b: nat, c: nat, x: byte, y: byte)
    requires a < 64 && b < 64 && c < 64 && c % 4 == 0
    requires a * 4 + b / 16 == x && b % 16 * 16 + c / 4 == y
    ensures Decode([Digit(a), Digit(b), Digit(c), PAD]) == Some([x, y])
  {
    DigitValue(a);
    DigitValue(b);
    DigitValue(c);
  }

  lemma DecodeQuad(a: nat, b: nat, c: nat, d: nat, x: byte, y: byte, z: byte, e: bytes)
    requires a < 64 && b < 64 && c < 64 && d < 64 && Decode(e).Some?
    requires a * 4 + b / 16 == x && b % 16 * 16 + c / 4 == y && c % 4 * 64 + d == z
    ensures Decode([Digit(a), Digit(b), Digit(c), Digit(d)] + e) == Some([x, y, z] + Decode(e).value)
  {
    DigitValue(a);
    DigitValue(b);
    DigitValue(c);
    DigitValue(d);
    assert ([Digit(a), Digit(b), Digit(c), Digit(d)] + e)[4..] == e;
  }

  lemma DecodeThree(d: bytes, e: bytes)
    requires |d| >= 3 && Encode(d[3..]) == e && Decode(e) == Some(d[3..])
    ensures Decode(Encode(d)) == Some(d)
  {
    var t: bytes := [d[0], d[1], d[2]];
    DecodeBlock(d[0], d[1], d[2], e);
    assert d == t + d[3..];
  }

  lemma DecodeBlock(x: byte, y: byte, z: byte, e: bytes)
    requires Decode(e).Some?
    ensures Decode([Digit(x / 4), Digit(x % 4 * 16 + y / 16), Digit(y % 16 * 4 + z / 64), Digit(z % 64)] + e)
         == Some([x, y, z] + Decode(e).value)
  {
    Regroup(x, y, z);
    DecodeQuad(x / 4, x % 4 * 16 + y / 16, y % 16 * 4 + z / 64, z % 64, x, y, z, e);
  }

  /** Test vectors of section 10 of RFC 4648. */
  lemma Vectors()
    ensures Encode([102]) == [90, 103, 61, 61]
    ensures Encode([102, 111]) == [90, 109, 56, 61]
    ensures Encode([102, 111, 111]) == [90, 109, 57, 118]
  {
    assert [102, 111, 111][3..] == [];
  }

  /** The alphabet: upper case, lower case, figures, plus and slash. */
  lemma Alphabet()
    ensures Digit(0) == 65 && Digit(26) == 97 && Digit(52) == 48 && Digit(62) == 43 && Digit(63) == 47
    ensures forall n: nat :: n < 61 && n != 25 && n != 51 ==> Digit(n + 1) == Digit(n) + 1
  {}
}
