/** Signed, unsigned and boolean values in fixed-width ABI words, and single bits of a word. */
module Words {
  import opened Wrappers
  import opened Bytes

  datatype WordError = UnsupportedWidth | OutOfRange | NotExtended | NonzeroHigh | NotBoolean | TooShort

  function Pow2(n: nat): (p: nat)
    ensures p > 0
  {
    if n == 0 then 1 else 2 * Pow2(n - 1)
  }

  lemma {:induction false} Pow2Sum(a: nat, b: nat)
    ensures Pow2(a + b) == Pow2(a) * Pow2(b)
  {
    if a > 0 {
      Pow2Sum(a - 1, b);
      assert Pow2(a + b) == 2 * Pow2(a - 1 + b);
      assert 2 * (Pow2(a - 1) * Pow2(b)) == (2 * Pow2(a - 1)) * Pow2(b);
    }
  }

  lemma {:induction false} Pow256Is(n: nat)
    ensures Pow256(n) == Pow2(8 * n)
  {
    if n > 0 {
      Pow256Is(n - 1);
      Pow2Sum(8, 8 * (n - 1));
    }
  }

  lemma {:induction false} Multiples(d: int, m: int)
    requires m > 0
    ensures d >= 1 ==> d * m >= m
    ensures d <= -1 ==> d * m <= -m
  {
  }

  lemma {:induction false} DivModUnique(u: int, q: int, m: int, r: int)
    requires m > 0 && 0 <= r < m && u == q * m + r
    ensures u / m == q && u % m == r
  {
    var d := u / m - q;
    assert u == (u / m) * m + u % m;
    assert d * m == r - u % m;
    Multiples(d, m);
  }

  /** Adding k divisors adds k to the quotient. */
  lemma {:induction false} ShiftedQuotient(u: int, m: int, k: int)
    requires m > 0
    ensures (u + m * k) / m == u / m + k
  {
    assert u == (u / m) * m + u % m;
    assert (u / m + k) * m == (u / m) * m + m * k;
    DivModUnique(u + m * k, u / m + k, m, u % m);
  }

  // ---- bits --------------------------------------------------------------------------------------

  /** `(value >> bit) & 1`. */
  predicate Bit(value: nat, bit: nat) {
    value / Pow2(bit) % 2 == 1
  }

  /** The top bit of a value below 2^(n+1). */
  lemma {:induction false} TopBit(value: nat, n: nat)
    requires value < Pow2(n + 1)
    ensures Bit(value, n) <==> value >= Pow2(n)
  {
    if value >= Pow2(n) {
      DivModUnique(value, 1, Pow2(n), value - Pow2(n));
    } else {
      DivModUnique(value, 0, Pow2(n), value);
    }
  }

  /** Adding a higher power changes no lower bit. */
  lemma {:induction false} LowerBits(value: nat, n: nat, bit: nat)
    requires bit < n
    ensures Bit(value + Pow2(n), bit) <==> Bit(value, bit)
  {
    var half := Pow2(n - bit - 1);
    Pow2Sum(bit, n - bit);
    SameParity(value, Pow2(bit), half);
    assert Pow2(n - bit) == 2 * half;
  }

  lemma {:induction false} SameParity(u: nat, m: nat, half: nat)
    requires m > 0
    ensures (u + m * (2 * half)) / m % 2 == u / m % 2
  {
    ShiftedQuotient(u, m, 2 * half);
  }

  /** The number whose bit b is set exactly when `set(b)`, over the bits below `n`. */
  function Pack(marked: nat -> bool, n: nat): (value: nat)
    ensures value < Pow2(n)
  {
    if n == 0 then 0 else Pack(marked, n - 1) + if marked(n - 1) then Pow2(n - 1) else 0
  }

  lemma {:induction false} PackBits(marked: nat -> bool, n: nat, bit: nat)
    requires bit < n
    ensures Bit(Pack(marked, n), bit) <==> marked(bit)
  {
    var low := Pack(marked, n - 1);
    if bit == n - 1 {
      TopBit(Pack(marked, n), n - 1);
    } else {
      PackBits(marked, n - 1, bit);
      LowerBits(low, n - 1, bit);
    }
  }

  // ---- signed words ------------------------------------------------------------------------------

  /** The value modulo the word size, as big-endian bytes; out-of-range values are refused. The ABI
      word has 32 bytes. */
  function SignedWord(value: int, bits: int, width: nat := 32): Result<seq<Byte>, WordError> {
    if bits <= 0 || bits > 8 * width then Err(UnsupportedWidth)
    else if !(0 - Pow2(bits - 1) <= value < Pow2(bits - 1)) then Err(OutOfRange)
    else Ok(BigEndian(value % Pow256(width), width))
  }

  function DecodeInt(word: seq<Byte>, bits: int): Result<int, WordError> {
    if !(0 < bits <= 8 * |word|) then Err(UnsupportedWidth) else
      var value := FromBigEndian(word);
      var body := value % Pow2(bits);
      var negative := Bit(body, bits - 1);
      var expectedHigh := if negative then Pow2(8 * |word| - bits) - 1 else 0;
      if value / Pow2(bits) != expectedHigh then Err(NotExtended)
      else Ok(if negative then body - Pow2(bits) else body)
  }

  function DecodeUint(word: seq<Byte>, bits: int): Result<nat, WordError> {
    if bits % 8 != 0 || !(0 < bits <= 8 * |word|) then Err(UnsupportedWidth)
    else
      var high := |word| - bits / 8;
      if exists k :: 0 <= k < high && word[k] != 0 then Err(NonzeroHigh)
      else Ok(FromBigEndian(word))
  }

  /** The residue of a value in the signed range, seen as high part and body. */
  lemma {:induction false} SignedResidue(value: int, low: nat, high: nat, half: nat)
    requires low == 2 * half && half > 0 && high > 0 && 0 - half <= value < half
    ensures var u := value % (low * high);
            u % low == (if value >= 0 then value else value + low) && u / low == (if value >= 0 then 0 else high - 1)
  {
    ResidueOf(value, low, high);
    if value >= 0 {
      DivModUnique(value, 0, low, value);
    } else {
      assert value + low * high == (high - 1) * low + (value + low);
      DivModUnique(value + low * high, high - 1, low, value + low);
    }
  }

  lemma {:induction false} ResidueOf(value: int, low: nat, high: nat)
    requires low > 0 && high > 0 && 0 - low <= value < low
    ensures value % (low * high) == (if value >= 0 then value else value + low * high)
  {
    Multiples(high, low);
    var m := low * high;
    assert m >= low;
    if value >= 0 {
      DivModUnique(value, 0, m, value);
    } else {
      DivModUnique(value, -1, m, value + m);
    }
  }

  /** A sign-extended residue is that of the value it spells. */
  lemma {:induction false} ResidueOfParts(u: nat, low: nat, high: nat, half: nat)
    requires low == 2 * half && half > 0 && high > 0
    requires u / low == if u % low >= half then high - 1 else 0
    ensures var value := if u % low >= half then u % low - low else u % low;
            0 - half <= value < half && value % (low * high) == u
  {
    var body := u % low;
    assert u == (u / low) * low + body;
    if body >= half {
      assert (high - 1) * low == low * high - low;
      ResidueOf(body - low, low, high);
    } else {
      ResidueOf(body, low, high);
    }
  }

  lemma {:induction false} SignedEncodeDecode(value: int, bits: int, width: nat)
    requires SignedWord(value, bits, width).Ok?
    ensures DecodeInt(SignedWord(value, bits, width).value, bits) == Ok(value)
  {
    var low, high, half := Pow2(bits), Pow2(8 * width - bits), Pow2(bits - 1);
    Pow256Is(width);
    Pow2Sum(bits, 8 * width - bits);
    SignedResidue(value, low, high, half);
    var u := value % Pow256(width);
    DecodeEncode(u, width);
    TopBit(u % low, bits - 1);
  }

  lemma {:induction false} SignedDecodeEncode(word: seq<Byte>, bits: int)
    requires DecodeInt(word, bits).Ok?
    ensures SignedWord(DecodeInt(word, bits).value, bits, |word|) == Ok(word)
  {
    var low, high, half := Pow2(bits), Pow2(8 * |word| - bits), Pow2(bits - 1);
    Pow256Is(|word|);
    Pow2Sum(bits, 8 * |word| - bits);
    var u := FromBigEndian(word);
    TopBit(u % low, bits - 1);
    ResidueOfParts(u, low, high, half);
    EncodeDecode(word);
  }

  /** The encoder and the decoder are inverse: a word decodes to a value exactly when the value
      encodes to that word. */
  lemma {:induction false} SignedRoundTrip(value: int, bits: int, word: seq<Byte>)
    ensures SignedWord(value, bits, |word|) == Ok(word) <==> DecodeInt(word, bits) == Ok(value)
  {
    if SignedWord(value, bits, |word|) == Ok(word) {
      SignedEncodeDecode(value, bits, |word|);
    }
    if DecodeInt(word, bits) == Ok(value) {
      SignedDecodeEncode(word, bits);
    }
  }

  // ---- unsigned words ----------------------------------------------------------------------------

  lemma {:induction false} LeadingZeros(word: seq<Byte>, k: nat)
    requires k <= |word|
    ensures (forall i :: 0 <= i < k ==> word[i] == 0) <==> FromBigEndian(word) < Pow256(|word| - k)
    decreases |word|
  {
    if k == 0 {
    } else if k == |word| {
      var front := word[..|word| - 1];
      LeadingZeros(front, k - 1);
      assert forall i :: 0 <= i < k - 1 ==> front[i] == word[i];
      assert Pow256(0) == 1;
    } else {
      var front := word[..|word| - 1];
      LeadingZeros(front, k);
      assert forall i :: 0 <= i < k ==> front[i] == word[i];
    }
  }

  /** A word decodes to `value` exactly when it is the big-endian form of a value below 2^bits. */
  lemma {:induction false} UnsignedRoundTrip(word: seq<Byte>, bits: int, value: nat)
    requires bits % 8 == 0 && 0 < bits <= 8 * |word|
    ensures DecodeUint(word, bits) == Ok(value)
       <==> value < Pow2(bits) && value < Pow256(|word|) && word == BigEndian(value, |word|)
  {
    var high := |word| - bits / 8;
    LeadingZeros(word, high);
    Pow256Is(bits / 8);
    EncodeDecode(word);
    if value < Pow256(|word|) {
      DecodeEncode(value, |word|);
    }
  }
}
