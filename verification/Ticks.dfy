/** Initialized ticks of a concentrated-liquidity pool, read out of its bitmap words. */
module Ticks {
  import opened Wrappers
  import opened Bytes
  import opened SortedSets
  import opened Words
  import Profile

  const MIN_TICK := -887272
  const MAX_TICK := 887272

  /** Uniswap V3 keys its bitmap by tick divided by spacing, Algebra by the tick itself. */
  datatype Convention = Compressed | Raw

  datatype Answer = Answer(success: bool, data: seq<Byte>)

  datatype WordAnswer = WordAnswer(position: int, answer: Answer)

  // ---- which words are read ----------------------------------------------------------------------

  function FirstWord(c: Convention, spacing: int): int
    requires spacing > 0
  {
    (if c.Compressed? then MIN_TICK / spacing else MIN_TICK) / 256
  }

  function LastWord(c: Convention, spacing: int): int
    requires spacing > 0
  {
    (if c.Compressed? then MAX_TICK / spacing else MAX_TICK) / 256
  }

  /** `range(low, high + 1)`. */
  function Ints(low: int, high: int): (r: seq<int>)
    ensures forall p :: p in r <==> low <= p <= high
    ensures |r| == (if low > high then 0 else high - low + 1) && forall i :: 0 <= i < |r| ==> r[i] == low + i
    decreases high - low
  {
    if low > high then [] else Ints(low, high - 1) + [high]
  }

  function BitmapPositions(c: Convention, spacing: int): seq<int>
    requires spacing > 0
  {
    Ints(FirstWord(c, spacing), LastWord(c, spacing))
  }

  lemma {:induction false} QuotientMonotone(a: int, b: int, m: int)
    requires a <= b && m > 0
    ensures a / m <= b / m
  {
    var d := a / m - b / m;
    assert a == (a / m) * m + a % m && b == (b / m) * m + b % m;
    assert d * m == a - a % m - b + b % m;
    Multiples(d, m);
  }

  /** Dividing by a spacing of at least one never leaves the tick bounds. */
  lemma {:induction false} QuotientShrinks(a: int, m: int)
    requires m > 0
    ensures a >= 0 ==> 0 <= a / m <= a
    ensures a <= 0 ==> a <= a / m <= 0
  {
    var q := a / m;
    assert a == q * m + a % m;
    if a >= 0 {
      QuotientMonotone(0, a, m);
      Products(q, m - 1);
      assert q * m == q * (m - 1) + q;
    } else {
      QuotientMonotone(a, 0, m);
      Products(-(q + 1), m - 1);
      assert q * m == (q + 1) * (m - 1) + q + 1 - m;
    }
  }

  lemma {:induction false} Products(x: int, y: int)
    ensures x >= 0 && y >= 0 ==> x * y >= 0
    ensures -x * y == -(x * y)
  {
  }

  lemma {:induction false} WordsInRange(c: Convention, spacing: int)
    requires spacing > 0
    ensures -3466 <= FirstWord(c, spacing) <= 0 <= LastWord(c, spacing) <= 3465
  {
    QuotientShrinks(MIN_TICK, spacing);
    QuotientShrinks(MAX_TICK, spacing);
  }

  /** Every word position asked for, at any spacing, has a calldata word, which decodes back to it. */
  lemma {:induction false} PositionsEncodable(c: Convention, spacing: int, position: int)
    requires spacing > 0 && position in BitmapPositions(c, spacing)
    ensures SignedWord(position, 16).Ok? && DecodeInt(SignedWord(position, 16).value, 16) == Ok(position)
  {
    WordsInRange(c, spacing);
    SmallEncodable(position, 16);
  }

  /** So has every tick within bounds. */
  lemma {:induction false} TicksEncodable(tick: int)
    requires MIN_TICK <= tick <= MAX_TICK
    ensures SignedWord(tick, 24).Ok? && DecodeInt(SignedWord(tick, 24).value, 24) == Ok(tick)
  {
    SmallEncodable(tick, 24);
  }

  lemma {:induction false} SmallEncodable(value: int, bits: int)
    requires (bits == 16 && -32768 <= value < 32768) || (bits == 24 && -8388608 <= value < 8388608)
    ensures SignedWord(value, bits).Ok? && DecodeInt(SignedWord(value, bits).value, bits) == Ok(value)
  {
    assert Pow2(8) == 256 && Pow2(7) == 128;
    Pow2Sum(8, 7);
    Pow2Sum(8, 15);
    assert Pow2(bits - 1) == if bits == 16 then 32768 else 8388608;
    SignedEncodeDecode(value, bits, 32);
  }

  // ---- from words to ticks -----------------------------------------------------------------------

  function TickAt(c: Convention, spacing: int, position: int, bit: int): int {
    var index := position * 256 + bit;
    if c.Compressed? then index * spacing else index
  }

  /** The set bit positions, ascending. */
  function DecodeBitmapWord(data: seq<Byte>): (r: Result<seq<int>, WordError>)
    ensures r.Ok? <==> |data| == 32
    ensures r.Ok? ==> forall b: int :: b in r.value <==> 0 <= b < 256 && Bit(FromBigEndian(data), b)
  {
    if |data| != 32 then Err(TooShort)
    else Ok(SortedSet(set b: nat | b < 256 && Bit(FromBigEndian(data), b) :: b as int))
  }

  predicate Readable(a: Answer) {
    a.success && |a.data| == 32
  }

  /** The word answered at this position marks tick `t`. */
  ghost predicate Marks(c: Convention, spacing: int, w: WordAnswer, t: int) {
    && Readable(w.answer)
    && exists b: nat ::
         b < 256 && Bit(FromBigEndian(w.answer.data), b) && TickAt(c, spacing, w.position, b) == t
  }

  ghost predicate Marked(c: Convention, spacing: int, raw: seq<WordAnswer>, t: int) {
    exists k :: 0 <= k < |raw| && Marks(c, spacing, raw[k], t)
  }

  function Unreadable(raw: seq<WordAnswer>): seq<int> {
    if raw == [] then [] else
      Unreadable(raw[..|raw| - 1]) + if Readable(raw[|raw| - 1].answer) then [] else [raw[|raw| - 1].position]
  }

  /** The marked ticks within bounds, ascending and once each; one error per word that was not read. */
  method DiscoverTicks(c: Convention, spacing: int, raw: seq<WordAnswer>) returns (ticks: seq<int>, errors: seq<int>)
    ensures forall i, j :: 0 <= i < j < |ticks| ==> ticks[i] < ticks[j]
    ensures forall t :: t in ticks <==> MIN_TICK <= t <= MAX_TICK && Marked(c, spacing, raw, t)
    ensures errors == Unreadable(raw)
  {
    var found: set<int> := {};
    errors := [];
    for k := 0 to |raw|
      invariant forall t :: t in found <==> MIN_TICK <= t <= MAX_TICK && Marked(c, spacing, raw[..k], t)
      invariant errors == Unreadable(raw[..k])
    {
      var w := raw[k];
      assert raw[..k + 1][..k] == raw[..k];
      MarkedStep(c, spacing, raw, k);
      if !w.answer.success {
        errors := errors + [w.position];
      } else {
        var bits := DecodeBitmapWord(w.answer.data);
        if bits.Err? {
          errors := errors + [w.position];
        } else {
          found := AddTicks(c, spacing, w, bits.value, found);
        }
      }
    }
    assert raw[..|raw|] == raw;
    ticks := SortedSet(found);
  }

  lemma {:induction false} MarkedStep(c: Convention, spacing: int, raw: seq<WordAnswer>, k: nat)
    requires k < |raw|
    ensures forall t :: Marked(c, spacing, raw[..k + 1], t) <==>
              Marked(c, spacing, raw[..k], t) || Marks(c, spacing, raw[k], t)
  {
    var now, before := raw[..k + 1], raw[..k];
    assert forall i :: 0 <= i < k ==> before[i] == now[i];
    forall t ensures Marked(c, spacing, now, t) <==> Marked(c, spacing, before, t) || Marks(c, spacing, raw[k], t) {
      if i :| 0 <= i < |now| && Marks(c, spacing, now[i], t) {
        assert i < k ==> Marks(c, spacing, before[i], t);
      }
      if i :| 0 <= i < |before| && Marks(c, spacing, before[i], t) {
        assert Marks(c, spacing, now[i], t);
      }
      assert now[k] == raw[k];
    }
  }

  /** One of the first n bits stands for the tick. */
  ghost predicate Reached(c: Convention, spacing: int, position: int, bits: seq<int>, n: nat, t: int)
    requires n <= |bits|
  {
    exists j :: 0 <= j < n && TickAt(c, spacing, position, bits[j]) == t
  }

  method AddTicks(c: Convention, spacing: int, w: WordAnswer, bits: seq<int>, before: set<int>)
      returns (found: set<int>)
    requires Readable(w.answer)
    requires forall b: int :: b in bits <==> 0 <= b < 256 && Bit(FromBigEndian(w.answer.data), b)
    ensures forall t :: t in found <==> t in before || (MIN_TICK <= t <= MAX_TICK && Marks(c, spacing, w, t))
  {
    found := before;
    for i := 0 to |bits|
      invariant forall t :: t in found <==>
                  t in before || (MIN_TICK <= t <= MAX_TICK && Reached(c, spacing, w.position, bits, i, t))
    {
      var tick := TickAt(c, spacing, w.position, bits[i]);
      if MIN_TICK <= tick <= MAX_TICK {
        found := found + {tick};
      }
    }
    forall t
      ensures Reached(c, spacing, w.position, bits, |bits|, t) <==> Marks(c, spacing, w, t)
    {
      SameMarks(c, spacing, w, bits, t);
    }
  }

  lemma {:induction false} SameMarks(c: Convention, spacing: int, w: WordAnswer, bits: seq<int>, t: int)
    requires Readable(w.answer)
    requires forall b: int :: b in bits <==> 0 <= b < 256 && Bit(FromBigEndian(w.answer.data), b)
    ensures Reached(c, spacing, w.position, bits, |bits|, t) <==> Marks(c, spacing, w, t)
  {
    if j :| 0 <= j < |bits| && TickAt(c, spacing, w.position, bits[j]) == t {
      var b := bits[j];
      assert b in bits;
      var bit: nat := b;
      assert Bit(FromBigEndian(w.answer.data), bit) && TickAt(c, spacing, w.position, bit) == t;
    }
    if Marks(c, spacing, w, t) {
      var b: nat :| b < 256 && Bit(FromBigEndian(w.answer.data), b) && TickAt(c, spacing, w.position, b) == t;
      var bit: int := b;
      assert bit in bits;
      var j :| 0 <= j < |bits| && bits[j] == bit;
    }
  }

  // ---- exactness ---------------------------------------------------------------------------------

  predicate ValidTick(c: Convention, spacing: int, t: int)
    requires spacing > 0
  {
    MIN_TICK <= t <= MAX_TICK && (c.Compressed? ==> t % spacing == 0)
  }

  /** The data of the word at `position` in a pool whose initialized ticks are `stored`. */
  ghost predicate StoresWord(c: Convention, spacing: int, stored: set<int>, position: int, data: seq<Byte>) {
    |data| == 32 && forall b: nat :: b < 256 ==>
        (Bit(FromBigEndian(data), b) <==> TickAt(c, spacing, position, b) in stored)
  }

  /** Every set of ticks has such words. */
  lemma {:induction false} WordsExist(c: Convention, spacing: int, stored: set<int>, position: int, width: nat)
      returns (data: seq<Byte>)
    ensures |data| == width
    ensures forall b: nat :: b < 8 * width ==>
              (Bit(FromBigEndian(data), b) <==> TickAt(c, spacing, position, b) in stored)
    ensures width == 32 ==> StoresWord(c, spacing, stored, position, data)
  {
    var marked := (b: nat) => TickAt(c, spacing, position, b) in stored;
    Pow256Is(width);
    var value := Pack(marked, 8 * width);
    data := BigEndian(value, width);
    DecodeEncode(value, width);
    forall b: nat | b < 8 * width ensures Bit(FromBigEndian(data), b) <==> TickAt(c, spacing, position, b) in stored {
      PackBits(marked, 8 * width, b);
    }
  }

  /** Each valid tick has a bit in one of the words that are read. */
  lemma {:induction false} Locate(c: Convention, spacing: int, t: int) returns (position: int, bit: nat)
    requires spacing > 0 && ValidTick(c, spacing, t)
    ensures position in BitmapPositions(c, spacing) && bit < 256 && TickAt(c, spacing, position, bit) == t
  {
    var index := if c.Compressed? then t / spacing else t;
    position, bit := index / 256, index % 256;
    assert position * 256 + bit == index;
    if c.Compressed? {
      assert t == (t / spacing) * spacing;
      QuotientMonotone(MIN_TICK, t, spacing);
      QuotientMonotone(t, MAX_TICK, spacing);
    }
  }

  /** The answers of an honest pool to the bitmap calls: one per position, in any order. */
  ghost predicate HonestWords(c: Convention, spacing: int, stored: set<int>, raw: seq<WordAnswer>)
    requires spacing > 0
  {
    && (forall k :: 0 <= k < |raw| ==>
         raw[k].answer.success && StoresWord(c, spacing, stored, raw[k].position, raw[k].answer.data))
    && forall p :: p in BitmapPositions(c, spacing) ==> Answered(raw, p)
  }

  ghost predicate Answered(raw: seq<WordAnswer>, p: int) {
    exists k :: 0 <= k < |raw| && raw[k].position == p
  }

  lemma {:induction false} NoErrors(raw: seq<WordAnswer>)
    requires forall k :: 0 <= k < |raw| ==> Readable(raw[k].answer)
    ensures Unreadable(raw) == []
  {
    if raw != [] {
      NoErrors(raw[..|raw| - 1]);
    }
  }

  /** Whatever valid ticks the words store, those and no others are marked. */
  lemma {:induction false} MarkedIffStored(c: Convention, spacing: int, stored: set<int>, raw: seq<WordAnswer>, t: int)
    requires spacing > 0 && HonestWords(c, spacing, stored, raw)
    requires forall s :: s in stored ==> ValidTick(c, spacing, s)
    ensures Marked(c, spacing, raw, t) <==> t in stored
  {
    if t in stored {
      var position, bit := Locate(c, spacing, t);
      assert Answered(raw, position);
      var k :| 0 <= k < |raw| && raw[k].position == position;
      assert Bit(FromBigEndian(raw[k].answer.data), bit);
      assert Marks(c, spacing, raw[k], t);
    }
  }

  /** Discovery is exact: from any answers of a pool whose valid ticks are `stored`, the ascending
      ticks so marked are `stored` itself, and there are no errors. */
  lemma {:induction false} DiscoveryExact(c: Convention, spacing: int, stored: set<int>, raw: seq<WordAnswer>,
      ticks: seq<int>)
    requires spacing > 0 && HonestWords(c, spacing, stored, raw)
    requires forall s :: s in stored ==> ValidTick(c, spacing, s)
    requires forall i, j :: 0 <= i < j < |ticks| ==> ticks[i] < ticks[j]
    requires forall t :: t in ticks <==> MIN_TICK <= t <= MAX_TICK && Marked(c, spacing, raw, t)
    ensures ticks == SortedSet(stored) && Unreadable(raw) == []
  {
    NoErrors(raw);
    forall t ensures t in ticks <==> t in stored {
      MarkedIffStored(c, spacing, stored, raw, t);
    }
    SameAscending(ticks, SortedSet(stored));
  }

  lemma {:induction false} SameAscending(a: seq<int>, b: seq<int>)
    requires forall i, j :: 0 <= i < j < |a| ==> a[i] < a[j]
    requires forall i, j :: 0 <= i < j < |b| ==> b[i] < b[j]
    requires forall t :: t in a <==> t in b
    ensures a == b
  {
    assert |b| > 0 ==> b[0] in b && b[0] in a;
    if a != [] {
      var t := a[0];
      assert t in a && t in b;
      forall x ensures x in a[1..] <==> x in b[1..] {
        TailMember(a, x);
        TailMember(b, x);
      }
      SameAscending(a[1..], b[1..]);
    }
  }

  lemma {:induction false} TailMember(a: seq<int>, x: int)
    requires a != [] && forall i, j :: 0 <= i < j < |a| ==> a[i] < a[j]
    ensures x in a[1..] <==> x in a && x != a[0]
  {
    if x in a && x != a[0] {
      var i :| 0 <= i < |a| && a[i] == x;
      assert a[1..][i - 1] == x;
    }
  }

  // ---- the struct behind each tick ---------------------------------------------------------------

  datatype TickStruct = TickStruct(gross: nat, net: int, feeOutside0: nat, feeOutside1: nat, initialized: bool)

  function Slice(data: seq<Byte>, index: nat): (word: seq<Byte>)
    requires 32 * index + 32 <= |data|
    ensures |word| == 32
  {
    data[32 * index..32 * index + 32]
  }

  function DecodeBool(word: seq<Byte>): Result<bool, WordError>
    requires word != []
  {
    if (exists k :: 0 <= k < |word| - 1 && word[k] != 0) || word[|word| - 1] > 1 then Err(NotBoolean)
    else Ok(word[|word| - 1] == 1)
  }

  /** The first four words and the last of the eight-word struct; `bits` is 128 for both protocols. */
  function DecodeTicks(data: seq<Byte>, bits: int := 128): Result<TickStruct, WordError> {
    if |data| < 256 then Err(TooShort) else
      var gross := DecodeUint(Slice(data, 0), bits);
      var net := DecodeInt(Slice(data, 1), bits);
      var flag := DecodeBool(Slice(data, 7));
      if gross.Err? then Err(gross.error)
      else if net.Err? then Err(net.error)
      else if flag.Err? then Err(flag.error)
      else Ok(TickStruct(gross.value, net.value, FromBigEndian(Slice(data, 2)), FromBigEndian(Slice(data, 3)),
          flag.value))
  }

  /** The data that the pool returns for a tick holding `t`. */
  ghost predicate Spells(data: seq<Byte>, t: TickStruct, bits: int) {
    && |data| >= 256
    && 0 < bits <= 256 && bits % 8 == 0 && t.gross < Pow2(bits) && FromBigEndian(Slice(data, 0)) == t.gross
    && SignedWord(t.net, bits) == Ok(Slice(data, 1))
    && FromBigEndian(Slice(data, 2)) == t.feeOutside0 && FromBigEndian(Slice(data, 3)) == t.feeOutside1
    && FromBigEndian(Slice(data, 7)) == if t.initialized then 1 else 0
  }

  lemma {:induction false} BoolWord(word: seq<Byte>, b: bool)
    requires word != []
    ensures DecodeBool(word) == Ok(b) <==> FromBigEndian(word) == if b then 1 else 0
  {
    LeadingZeros(word, |word| - 1);
    assert Pow256(1) == 256;
    var front := word[..|word| - 1];
    LeadingZeros(front, |front|);
    assert forall k :: 0 <= k < |front| ==> front[k] == word[k];
  }

  /** The struct decoder accepts exactly the data of a struct, and yields that struct. */
  lemma {:induction false} StructDecoded(data: seq<Byte>, t: TickStruct, bits: int)
    requires 0 < bits <= 256 && bits % 8 == 0
    ensures DecodeTicks(data, bits) == Ok(t) <==> Spells(data, t, bits)
  {
    if |data| >= 256 {
      UnsignedDecoded(Slice(data, 0), bits, t.gross);
      SignedRoundTrip(t.net, bits, Slice(data, 1));
      BoolWord(Slice(data, 7), t.initialized);
    }
  }

  lemma {:induction false} UnsignedDecoded(word: seq<Byte>, bits: int, value: nat)
    requires 0 < bits <= 8 * |word| && bits % 8 == 0
    ensures DecodeUint(word, bits) == Ok(value) <==> value < Pow2(bits) && FromBigEndian(word) == value
  {
    UnsignedRoundTrip(word, bits, value);
    EncodeDecode(word);
    if value < Pow256(|word|) {
      DecodeEncode(value, |word|);
    }
  }

  /** The struct in an answer that decodes and agrees with the bitmap that the tick is initialized. */
  function Reading(a: Answer, bits: int): Option<TickStruct> {
    if !a.success then None else
      var decoded := DecodeTicks(a.data, bits);
      if decoded.Err? || !decoded.value.initialized || decoded.value.gross == 0 then None else Some(decoded.value)
  }

  function Readings(ticks: seq<int>, raw: map<int, Answer>, bits: int): (rs: seq<Option<TickStruct>>)
    requires forall k :: 0 <= k < |ticks| ==> ticks[k] in raw
    ensures |rs| == |ticks| && forall k :: 0 <= k < |ticks| ==> rs[k] == Reading(raw[ticks[k]], bits)
  {
    seq(|ticks|, k requires 0 <= k < |ticks| => Reading(raw[ticks[k]], bits))
  }

  function Kept<T>(ticks: seq<int>, readings: seq<Option<T>>): seq<(int, T)>
    requires |ticks| == |readings|
  {
    if ticks == [] then [] else
      var n := |ticks| - 1;
      Kept(ticks[..n], readings[..n]) + if readings[n].Some? then [(ticks[n], readings[n].value)] else []
  }

  function Refused<T>(ticks: seq<int>, readings: seq<Option<T>>): seq<int>
    requires |ticks| == |readings|
  {
    if ticks == [] then [] else
      var n := |ticks| - 1;
      Refused(ticks[..n], readings[..n]) + if readings[n].Some? then [] else [ticks[n]]
  }

  /** One row per tick whose struct agrees, one error per other tick, in order. */
  method MaterializeTicks(discovered: seq<int>, raw: map<int, Answer>, bits: int := 128)
      returns (ticks: seq<(int, TickStruct)>, errors: seq<int>)
    requires forall k :: 0 <= k < |discovered| ==> discovered[k] in raw
    ensures ticks == Kept(discovered, Readings(discovered, raw, bits))
    ensures errors == Refused(discovered, Readings(discovered, raw, bits))
  {
    ticks, errors := [], [];
    ghost var readings := Readings(discovered, raw, bits);
    for k := 0 to |discovered|
      invariant ticks == Kept(discovered[..k], readings[..k])
      invariant errors == Refused(discovered[..k], readings[..k])
    {
      var tick := discovered[k];
      assert discovered[..k + 1][..k] == discovered[..k] && readings[..k + 1][..k] == readings[..k];
      var result := raw[tick];
      if !result.success {
        errors := errors + [tick];
        continue;
      }
      var decoded := DecodeTicks(result.data, bits);
      if decoded.Err? {
        errors := errors + [tick];
        continue;
      }
      if !decoded.value.initialized || decoded.value.gross == 0 {
        errors := errors + [tick];
        continue;
      }
      ticks := ticks + [(tick, decoded.value)];
    }
    assert discovered[..|discovered|] == discovered && readings[..|discovered|] == readings;
  }

  /** No tick is dropped without an error: every discovered tick gives one row or one error, there
      is no error exactly when every struct agrees, and then row k is that of tick k. */
  lemma {:induction false} NothingDropped<T>(ticks: seq<int>, readings: seq<Option<T>>)
    requires |ticks| == |readings|
    ensures |Kept(ticks, readings)| + |Refused(ticks, readings)| == |ticks|
    ensures Refused(ticks, readings) == [] <==> forall k :: 0 <= k < |ticks| ==> readings[k].Some?
    ensures Refused(ticks, readings) == [] ==>
              forall k :: 0 <= k < |ticks| ==>
                  readings[k].Some? && Kept(ticks, readings)[k] == (ticks[k], readings[k].value)
  {
    if ticks != [] {
      var n := |ticks| - 1;
      NothingDropped(ticks[..n], readings[..n]);
      assert forall k :: 0 <= k < n ==> readings[..n][k] == readings[k] && ticks[..n][k] == ticks[k];
    }
  }

  // ---- the whole collection ----------------------------------------------------------------------

  function GrossAt(positions: seq<Profile.Position>, t: int): nat {
    if positions == [] then 0 else
      GrossAt(positions[1..], t)
        + if positions[0].lower == t || positions[0].upper == t then positions[0].liquidity else 0
  }

  lemma {:induction false} BoundaryHasGross(positions: seq<Profile.Position>, t: int)
    requires Profile.Proper(positions) && t in Profile.Boundaries(positions)
    ensures GrossAt(positions, t) > 0
  {
    assert positions[0] in positions;
    if positions[0].lower != t && positions[0].upper != t {
      BoundaryHasGross(positions[1..], t);
    }
  }

  /** The pool answers for each boundary with the liquidity that starts or ends there. */
  ghost predicate HonestStructs(positions: seq<Profile.Position>, raw: map<int, Answer>, bits: int) {
    forall t :: t in Profile.Boundaries(positions) ==> t in raw && HonestStruct(positions, t, raw[t], bits)
  }

  ghost predicate HonestStruct(positions: seq<Profile.Position>, t: int, a: Answer, bits: int) {
    && a.success
    && exists v ::
         && Spells(a.data, v, bits) && v.initialized
         && v.gross == GrossAt(positions, t) && v.net == Profile.NetAt(positions, t)
  }

  function NetRows(ticks: seq<(int, TickStruct)>): (rows: seq<Profile.TickRow>)
    ensures |rows| == |ticks|
    ensures forall k :: 0 <= k < |ticks| ==> rows[k] == Profile.TickRow(ticks[k].0, ticks[k].1.net)
  {
    seq(|ticks|, k requires 0 <= k < |ticks| => Profile.TickRow(ticks[k].0, ticks[k].1.net))
  }

  lemma {:induction false} HonestReading(positions: seq<Profile.Position>, t: int, a: Answer, bits: int)
    requires Profile.Proper(positions) && t in Profile.Boundaries(positions)
    requires 0 < bits <= 256 && bits % 8 == 0 && HonestStruct(positions, t, a, bits)
    ensures Reading(a, bits).Some? && Reading(a, bits).value.net == Profile.NetAt(positions, t)
  {
    var v :| Spells(a.data, v, bits) && v.initialized && v.gross == GrossAt(positions, t) &&
        v.net == Profile.NetAt(positions, t);
    StructDecoded(a.data, v, bits);
    BoundaryHasGross(positions, t);
  }

  lemma {:induction false} HonestReadings(positions: seq<Profile.Position>, ticks: seq<int>, raw: map<int, Answer>,
      bits: int)
    requires Profile.Proper(positions) && HonestStructs(positions, raw, bits) && 0 < bits <= 256 && bits % 8 == 0
    requires forall k :: 0 <= k < |ticks| ==> ticks[k] in Profile.Boundaries(positions)
    ensures forall k :: 0 <= k < |ticks| ==> ticks[k] in raw
    ensures forall k :: 0 <= k < |ticks| ==>
              var r := Readings(ticks, raw, bits)[k];
              r.Some? && r.value.net == Profile.NetAt(positions, ticks[k])
  {
    forall k | 0 <= k < |ticks|
      ensures ticks[k] in raw && Reading(raw[ticks[k]], bits).Some?
      ensures Reading(raw[ticks[k]], bits).value.net == Profile.NetAt(positions, ticks[k])
    {
      HonestReading(positions, ticks[k], raw[ticks[k]], bits);
    }
  }

  /** From the answers of a pool that holds these positions, the rounds of the collector recover the
      pool's ticks exactly, with no error. */
  lemma {:induction false} CollectionExact(c: Convention, spacing: int, positions: seq<Profile.Position>,
                        words: seq<WordAnswer>, discovered: seq<int>, raw: map<int, Answer>, bits: int)
    requires spacing > 0 && Profile.Proper(positions) && 0 < bits <= 256 && bits % 8 == 0
    requires forall t :: t in Profile.Boundaries(positions) ==> ValidTick(c, spacing, t)
    requires HonestWords(c, spacing, Profile.Boundaries(positions), words)
    requires forall i, j :: 0 <= i < j < |discovered| ==> discovered[i] < discovered[j]
    requires forall t :: t in discovered <==> MIN_TICK <= t <= MAX_TICK && Marked(c, spacing, words, t)
    requires HonestStructs(positions, raw, bits)
    ensures forall k :: 0 <= k < |discovered| ==> discovered[k] in raw
    ensures var readings := Readings(discovered, raw, bits);
            Refused(discovered, readings) == [] && NetRows(Kept(discovered, readings)) == Profile.PoolTicks(positions)
  {
    DiscoveryExact(c, spacing, Profile.Boundaries(positions), words, discovered);
    RowsExact(positions, discovered, raw, bits);
  }

  lemma {:induction false} RowsExact(positions: seq<Profile.Position>, ticks: seq<int>, raw: map<int, Answer>,
      bits: int)
    requires Profile.Proper(positions) && HonestStructs(positions, raw, bits) && 0 < bits <= 256 && bits % 8 == 0
    requires ticks == SortedSet(Profile.Boundaries(positions))
    ensures forall k :: 0 <= k < |ticks| ==> ticks[k] in raw
    ensures var readings := Readings(ticks, raw, bits);
            Refused(ticks, readings) == [] && NetRows(Kept(ticks, readings)) == Profile.PoolTicks(positions)
  {
    forall k | 0 <= k < |ticks| ensures ticks[k] in Profile.Boundaries(positions) {
      var t := ticks[k];
      assert t in ticks;
    }
    HonestReadings(positions, ticks, raw, bits);
    NetRowsAre(positions, ticks, Readings(ticks, raw, bits));
  }

  lemma {:induction false} NetRowsAre(positions: seq<Profile.Position>, ticks: seq<int>,
      readings: seq<Option<TickStruct>>)
    requires |ticks| == |readings|
    requires forall k :: 0 <= k < |ticks| ==>
               readings[k].Some? && readings[k].value.net == Profile.NetAt(positions, ticks[k])
    ensures Refused(ticks, readings) == [] && NetRows(Kept(ticks, readings)) == Profile.RowsAt(positions, ticks)
  {
    NothingDropped(ticks, readings);
    var rows, expected := NetRows(Kept(ticks, readings)), Profile.RowsAt(positions, ticks);
    assert forall k :: 0 <= k < |ticks| ==> rows[k] == expected[k];
  }

  /** So a profile is always built for such a pool, and both reconcile checks pass exactly when its
      reported liquidity is that of the positions over the current tick. */
  lemma {:induction false} CollectedPoolReconciles(positions: seq<Profile.Position>, current: int, liquidity: int)
    requires Profile.Proper(positions)
    ensures Profile.StoredFor(Profile.PoolTicks(positions), positions)
    ensures Profile.Reconciles(Profile.PoolTicks(positions), current, liquidity) <==>
              liquidity == Profile.Covering(positions, current)
  {
    Profile.PoolTicksStored(positions);
    Profile.PositionsReconcile(Profile.PoolTicks(positions), positions, current, liquidity);
  }
}
