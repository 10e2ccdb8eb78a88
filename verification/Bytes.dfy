/** Big-endian numbers and length-prefixed text. */
module Bytes {

  type Byte = b: nat | b < 256

  /** Text is its UTF-8 encoding; byte order and code-point order agree. */
  type Text = seq<Byte>

  function Pow256(n: nat): (p: nat)
    ensures p > 0
  {
    if n == 0 then 1 else 256 * Pow256(n - 1)
  }

  /** `value.to_bytes(n, "big")`, for a value that fits. */
  function BigEndian(value: nat, n: nat): (s: seq<Byte>)
    requires value < Pow256(n)
    ensures |s| == n
  {
    if n == 0 then [] else BigEndian(value / 256, n - 1) + [value % 256]
  }

  /** `int.from_bytes(s, "big")`. */
  function FromBigEndian(s: seq<Byte>): (value: nat)
    ensures value < Pow256(|s|)
  {
    if s == [] then 0 else FromBigEndian(s[..|s| - 1]) * 256 + s[|s| - 1]
  }

  lemma {:induction false} DecodeEncode(value: nat, n: nat)
    requires value < Pow256(n)
    ensures FromBigEndian(BigEndian(value, n)) == value
  {
    if n > 0 {
      DecodeEncode(value / 256, n - 1);
      var s := BigEndian(value, n);
      assert s[..|s| - 1] == BigEndian(value / 256, n - 1);
    }
  }

  lemma {:induction false} EncodeDecode(s: seq<Byte>)
    ensures BigEndian(FromBigEndian(s), |s|) == s
  {
    if s != [] {
      EncodeDecode(s[..|s| - 1]);
      assert s == s[..|s| - 1] + [s[|s| - 1]];
    }
  }

  /** Equal-length prefixes of equal sequences are equal, and so are the rests. */
  lemma {:induction false} Peel(a: seq<Byte>, x: seq<Byte>, b: seq<Byte>, y: seq<Byte>)
    requires |a| == |b| && a + x == b + y
    ensures a == b && x == y
  {
    assert a == (a + x)[..|a|] == (b + y)[..|b|] == b;
    assert x == (a + x)[|a|..] == (b + y)[|b|..] == y;
  }

  lemma {:induction false} PeelNumber(v: nat, x: seq<Byte>, w: nat, y: seq<Byte>, n: nat)
    requires v < Pow256(n) && w < Pow256(n)
    requires BigEndian(v, n) + x == BigEndian(w, n) + y
    ensures v == w && x == y
  {
    Peel(BigEndian(v, n), x, BigEndian(w, n), y);
    DecodeEncode(v, n);
    DecodeEncode(w, n);
  }

  /** The length prefix and the bytes, before `rest`. */
  function TextThen(t: Text, rest: seq<Byte>): seq<Byte>
    requires |t| < Pow256(4)
  {
    BigEndian(|t|, 4) + (t + rest)
  }

  lemma {:induction false} PeelText(t: Text, x: seq<Byte>, u: Text, y: seq<Byte>)
    requires |t| < Pow256(4) && |u| < Pow256(4)
    requires TextThen(t, x) == TextThen(u, y)
    ensures t == u && x == y
  {
    PeelNumber(|t|, t + x, |u|, u + y, 4);
    Peel(t, x, u, y);
  }

  /** Lexicographic order of byte strings. */
  predicate LexLe(a: Text, b: Text) {
    a == [] || (b != [] && (a[0] < b[0] || (a[0] == b[0] && LexLe(a[1..], b[1..]))))
  }

  lemma {:induction false} LexTotal(a: Text, b: Text)
    ensures LexLe(a, b) || LexLe(b, a)
  {
    if a != [] && b != [] {
      LexTotal(a[1..], b[1..]);
    }
  }

  lemma {:induction false} LexTransitive(a: Text, b: Text, c: Text)
    requires LexLe(a, b) && LexLe(b, c)
    ensures LexLe(a, c)
  {
    if a != [] && a[0] == b[0] && b[0] == c[0] {
      LexTransitive(a[1..], b[1..], c[1..]);
    }
  }

  lemma {:induction false} LexAntisymmetric(a: Text, b: Text)
    requires LexLe(a, b) && LexLe(b, a)
    ensures a == b
  {
    if a != [] {
      LexAntisymmetric(a[1..], b[1..]);
      assert a == [a[0]] + a[1..] && b == [b[0]] + b[1..];
    }
  }

  function Ascii(s: string): Text {
    seq(|s|, k requires 0 <= k < |s| => (s[k] as int) % 256)
  }
}
