/** The canonical byte streams that are hashed before publication. */
module Digests {
  import opened Wrappers
  import opened Sorting
  import opened Bytes

  datatype BalanceRow = BalanceRow(holder: nat, balance: int, scaled: Option<int>, kind: Text)

  datatype ScalarRow = ScalarRow(name: Text, value: int)

  datatype PoolRow = PoolRow(pool: nat, token: nat, balance: int)

  datatype ClState = ClState(pool: nat, sqrtPrice: int, currentTick: int, liquidity: int, feeGrowth0: int,
                             feeGrowth1: int, tickSpacing: int, fee: int, tickCount: int)

  datatype ClTick = ClTick(pool: nat, tick: int, gross: int, net: int, feeOutside0: int, feeOutside1: int)

  datatype MemberRow = MemberRow(address: nat, sources: seq<Text>)

  /** One tagged record of a stream. */
  datatype Item =
    | Member(address: nat, sources: seq<Text>)
    | Balance(row: BalanceRow)
    | Scalar(scalar: ScalarRow)
    | Pool(poolRow: PoolRow)
    | State(state: ClState)
    | Tick(tick: ClTick)

  /** A field of a record: an unsigned or signed number of fixed width, or length-prefixed text. */
  datatype Part = Number(value: int, width: nat) | Signed(signed: int, width: nat) | Label(text: Text)

  predicate Fits(p: Part) {
    match p
    case Number(value, width) => 0 <= value < Pow256(width)
    case Signed(value, width) => 0 <= 2 * value + Pow256(width) && 2 * value < Pow256(width)
    case Label(text) => |text| < Pow256(4)
  }

  function Labels(ts: seq<Text>): (ps: seq<Part>)
    ensures |ps| == |ts| && forall k :: 0 <= k < |ts| ==> ps[k] == Label(ts[k])
  {
    seq(|ts|, k requires 0 <= k < |ts| => Label(ts[k]))
  }

  /** The tag byte and the fields of a record, in order. The pool of a tick is not part of its record. */
  function Parts(i: Item): seq<Part> {
    match i
    case Member(address, sources) => [Number(0x55, 1), Number(address, 20), Number(|sources|, 4)] + Labels(sources)
    case Balance(r) =>
      [Number(0x42, 1), Number(r.holder, 20), Label(r.kind), Number(r.balance, 32)] +
      if r.scaled.None? then [Number(0, 1)] else [Number(1, 1), Number(r.scaled.value, 32)]
    case Scalar(r) => [Number(0x53, 1), Label(r.name), Number(r.value, 32)]
    case Pool(r) => [Number(0x50, 1), Number(r.pool, 20), Number(r.token, 20), Number(r.balance, 32)]
    case State(s) =>
      [Number(0x43, 1), Number(s.pool, 20), Number(s.sqrtPrice, 32), Signed(s.currentTick, 32), Number(s.liquidity, 32),
       Number(s.feeGrowth0, 32), Number(s.feeGrowth1, 32), Signed(s.tickSpacing, 32), Number(s.fee, 32),
           Number(s.tickCount, 32)]
    case Tick(t) =>
      [Number(0x54, 1), Signed(t.tick, 32), Number(t.gross, 32), Signed(t.net, 32), Number(t.feeOutside0, 32),
          Number(t.feeOutside1, 32)]
  }

  /** Every field is in range; the program raises on any other record. */
  predicate Encodable(i: Item) {
    forall k :: 0 <= k < |Parts(i)| ==> Fits(Parts(i)[k])
  }

  // ---- encoding, always followed by the rest of the stream -------------------------------------

  function PartThen(p: Part, rest: seq<Byte>): seq<Byte>
    requires Fits(p)
  {
    match p
    case Number(value, width) => BigEndian(value, width) + rest
    case Signed(value, width) => BigEndian(if value < 0 then value + Pow256(width) else value, width) + rest
    case Label(text) => TextThen(text, rest)
  }

  function PartsThen(ps: seq<Part>, rest: seq<Byte>): seq<Byte>
    requires forall k :: 0 <= k < |ps| ==> Fits(ps[k])
  {
    if ps == [] then rest else PartThen(ps[0], PartsThen(ps[1..], rest))
  }

  function ItemThen(i: Item, rest: seq<Byte>): seq<Byte>
    requires Encodable(i)
  {
    PartsThen(Parts(i), rest)
  }

  function Stream(items: seq<Item>): seq<Byte>
    requires forall i :: i in items ==> Encodable(i)
  {
    if items == [] then [] else
      assert Encodable(items[0]);
      ItemThen(items[0], Stream(items[1..]))
  }

  // ---- unique parsing -----------------------------------------------------------------------------

  predicate SameShape(p: Part, q: Part) {
    match p
    case Number(_, width) => q.Number? && q.width == width
    case Signed(_, width) => q.Signed? && q.width == width
    case Label(_) => q.Label?
  }

  /** The shape of each field is settled by the fields before it. */
  ghost predicate Aligned(ps: seq<Part>, qs: seq<Part>) {
    && (forall k :: 0 <= k < |ps| && k < |qs| && ps[..k] == qs[..k] ==> SameShape(ps[k], qs[k]))
    && (ps <= qs || qs <= ps ==> |ps| == |qs|)
  }

  lemma {:induction false} PeelPart(p: Part, x: seq<Byte>, q: Part, y: seq<Byte>)
    requires Fits(p) && Fits(q) && SameShape(p, q) && PartThen(p, x) == PartThen(q, y)
    ensures p == q && x == y
  {
    match p {
      case Number(value, width) => PeelNumber(value, x, q.value, y, width);
      case Signed(value, width) =>
        PeelNumber(if value < 0 then value + Pow256(width) else value, x,
                   if q.signed < 0 then q.signed + Pow256(width) else q.signed, y, width);
      case Label(text) => PeelText(text, x, q.text, y);
    }
  }

  lemma {:induction false} PeelParts(ps: seq<Part>, x: seq<Byte>, qs: seq<Part>, y: seq<Byte>)
    requires (forall k :: 0 <= k < |ps| ==> Fits(ps[k])) && (forall k :: 0 <= k < |qs| ==> Fits(qs[k]))
    requires Aligned(ps, qs) && PartsThen(ps, x) == PartsThen(qs, y)
    ensures ps == qs && x == y
  {
    if ps == [] || qs == [] {
      assert ps <= qs || qs <= ps;
    } else {
      assert ps[..0] == qs[..0];
      PeelPart(ps[0], PartsThen(ps[1..], x), qs[0], PartsThen(qs[1..], y));
      AlignedTail(ps, qs);
      PeelParts(ps[1..], x, qs[1..], y);
      assert ps == [ps[0]] + ps[1..] && qs == [qs[0]] + qs[1..];
    }
  }

  lemma {:induction false} AlignedTail(ps: seq<Part>, qs: seq<Part>)
    requires Aligned(ps, qs) && ps != [] && qs != [] && ps[0] == qs[0]
    ensures Aligned(ps[1..], qs[1..])
  {
    forall k | 0 <= k < |ps[1..]| && k < |qs[1..]| && ps[1..][..k] == qs[1..][..k]
      ensures SameShape(ps[1..][k], qs[1..][k])
    {
      assert ps[..k + 1] == [ps[0]] + ps[1..][..k];
      assert qs[..k + 1] == [qs[0]] + qs[1..][..k];
    }
    assert ps == [ps[0]] + ps[1..] && qs == [qs[0]] + qs[1..];
  }

  lemma {:induction false} ItemsAligned(i: Item, j: Item)
    ensures Aligned(Parts(i), Parts(j))
  {
    var ps, qs := Parts(i), Parts(j);
    if ps[0] == qs[0] {
      match i {
        case Member(_, _) => MembersAligned(i, j);
        case Balance(_) => BalancesAligned(i, j);
        case Scalar(_) => assert j.Scalar?;
        case Pool(_) => assert j.Pool?;
        case State(_) => assert j.State?;
        case Tick(_) => assert j.Tick?;
      }
    } else {
      assert forall k :: 0 < k <= |ps| && k <= |qs| ==> ps[..k][0] != qs[..k][0];
      assert !(ps <= qs) && !(qs <= ps);
    }
  }

  lemma {:induction false} MembersAligned(i: Item, j: Item)
    requires i.Member? && j.Member?
    ensures Aligned(Parts(i), Parts(j))
  {
    var ps, qs := Parts(i), Parts(j);
    forall k | 0 <= k < |ps| && k < |qs| && ps[..k] == qs[..k] ensures SameShape(ps[k], qs[k]) {
      assert k > 2 ==> ps[k] == Labels(i.sources)[k - 3] && qs[k] == Labels(j.sources)[k - 3];
    }
    assert ps <= qs || qs <= ps ==> ps[2] == qs[2];
  }

  lemma {:induction false} BalancesAligned(i: Item, j: Item)
    requires i.Balance? && j.Balance?
    ensures Aligned(Parts(i), Parts(j))
  {
    var ps, qs := Parts(i), Parts(j);
    forall k | 0 <= k < |ps| && k < |qs| && ps[..k] == qs[..k] ensures SameShape(ps[k], qs[k]) {
      assert k > 4 ==> ps[..k][4] == qs[..k][4];
    }
    assert ps <= qs || qs <= ps ==> ps[4] == qs[4];
  }

  /** The fields determine the record, up to the pool of a tick. */
  lemma {:induction false} PartsDetermine(i: Item, j: Item)
    requires Parts(i) == Parts(j)
    requires i.Tick? && j.Tick? ==> i.tick.pool == j.tick.pool
    ensures i == j
  {
    var ps, qs := Parts(i), Parts(j);
    assert ps[0] == qs[0];
    match i {
      case Member(_, sources) =>
        forall k | 0 <= k < |sources| ensures sources[k] == j.sources[k] {
          assert ps[k + 3] == Label(sources[k]) && qs[k + 3] == Label(j.sources[k]);
        }
        assert ps[1] == qs[1];
      case Balance(_) =>
        assert ps[1] == qs[1] && ps[2] == qs[2] && ps[3] == qs[3] && ps[4] == qs[4];
        assert i.row.scaled.Some? ==> ps[5] == qs[5];
      case Scalar(_) => assert ps[1] == qs[1] && ps[2] == qs[2];
      case Pool(_) => assert ps[1] == qs[1] && ps[2] == qs[2] && ps[3] == qs[3];
      case State(_) =>
        assert ps[1] == qs[1] && ps[2] == qs[2] && ps[3] == qs[3] && ps[4] == qs[4] && ps[5] == qs[5];
        assert ps[6] == qs[6] && ps[7] == qs[7] && ps[8] == qs[8] && ps[9] == qs[9];
      case Tick(_) =>
        assert ps[1] == qs[1] && ps[2] == qs[2] && ps[3] == qs[3] && ps[4] == qs[4] && ps[5] == qs[5];
    }
  }

  /** All tick records of a sequence belong to the given pool. */
  predicate TicksOf(items: seq<Item>, pool: nat) {
    forall i :: i in items && i.Tick? ==> i.tick.pool == pool
  }

  lemma {:induction false} NonemptyStream(items: seq<Item>)
    requires items != [] && forall i :: i in items ==> Encodable(i)
    ensures Stream(items) != []
  {
    assert items[0] in items;
    var ps := Parts(items[0]);
    assert ps[0].Number? && ps[0].width == 1;
  }

  lemma {:induction false} PeelItem(i: Item, x: seq<Byte>, j: Item, y: seq<Byte>)
    requires Encodable(i) && Encodable(j) && ItemThen(i, x) == ItemThen(j, y)
    requires i.Tick? && j.Tick? ==> i.tick.pool == j.tick.pool
    ensures i == j && x == y
  {
    ItemsAligned(i, j);
    PeelParts(Parts(i), x, Parts(j), y);
    PartsDetermine(i, j);
  }

  lemma {:induction false} StreamSplits(items: seq<Item>, pool: nat)
    requires items != [] && (forall i :: i in items ==> Encodable(i)) && TicksOf(items, pool)
    ensures Encodable(items[0]) && (items[0].Tick? ==> items[0].tick.pool == pool)
    ensures (forall i :: i in items[1..] ==> Encodable(i)) && TicksOf(items[1..], pool)
    ensures Stream(items) == ItemThen(items[0], Stream(items[1..]))
  {
    assert items[0] in items && forall i :: i in items[1..] ==> i in items;
  }

  /** A stream has one reading: equal byte streams come from equal record sequences. */
  lemma {:induction false} StreamInjective(items: seq<Item>, others: seq<Item>, pool: nat)
    requires (forall i :: i in items ==> Encodable(i)) && (forall i :: i in others ==> Encodable(i))
    requires TicksOf(items, pool) && TicksOf(others, pool)
    requires Stream(items) == Stream(others)
    ensures items == others
  {
    if items == [] || others == [] {
      if items != [] {
        NonemptyStream(items);
      } else if others != [] {
        NonemptyStream(others);
      }
    } else {
      StreamSplits(items, pool);
      StreamSplits(others, pool);
      PeelItem(items[0], Stream(items[1..]), others[0], Stream(others[1..]));
      StreamInjective(items[1..], others[1..], pool);
      assert items == [items[0]] + items[1..] && others == [others[0]] + others[1..];
    }
  }

  // ---- the sort keys ----------------------------------------------------------------------------

  function ScaledKey(v: Option<int>): int {
    if v.None? then -1 else v.value
  }

  predicate BalanceLe(a: BalanceRow, b: BalanceRow) {
    a.holder < b.holder || (a.holder == b.holder &&
    ((a.kind != b.kind && LexLe(a.kind, b.kind)) || (a.kind == b.kind &&
    (a.balance < b.balance || (a.balance == b.balance && ScaledKey(a.scaled) <= ScaledKey(b.scaled))))))
  }

  predicate ScalarLe(a: ScalarRow, b: ScalarRow) {
    (a.name != b.name && LexLe(a.name, b.name)) || (a.name == b.name && a.value <= b.value)
  }

  predicate PoolLe(a: PoolRow, b: PoolRow) {
    a.pool < b.pool || (a.pool == b.pool && (a.token < b.token || (a.token == b.token && a.balance <= b.balance)))
  }

  predicate TickLe(a: ClTick, b: ClTick) {
    a.tick <= b.tick
  }

  predicate MemberLe(a: MemberRow, b: MemberRow) {
    a.address <= b.address
  }

  lemma {:induction false} BalanceOrder()
    ensures TotalPreorder(BalanceLe)
  {
    forall a, b ensures BalanceLe(a, b) || BalanceLe(b, a) {
      LexTotal(a.kind, b.kind);
    }
    forall a, b, c | BalanceLe(a, b) && BalanceLe(b, c) ensures BalanceLe(a, c) {
      BalanceTransitive(a, b, c);
    }
  }

  lemma {:induction false} BalanceTransitive(a: BalanceRow, b: BalanceRow, c: BalanceRow)
    requires BalanceLe(a, b) && BalanceLe(b, c)
    ensures BalanceLe(a, c)
  {
    if LexLe(a.kind, b.kind) && LexLe(b.kind, c.kind) {
      LexTransitive(a.kind, b.kind, c.kind);
    }
    if LexLe(a.kind, b.kind) && LexLe(b.kind, a.kind) {
      LexAntisymmetric(a.kind, b.kind);
    }
  }

  lemma {:induction false} ScalarOrder()
    ensures TotalPreorder(ScalarLe)
  {
    forall a, b ensures ScalarLe(a, b) || ScalarLe(b, a) {
      LexTotal(a.name, b.name);
    }
    forall a, b, c | ScalarLe(a, b) && ScalarLe(b, c) ensures ScalarLe(a, c) {
      if LexLe(a.name, b.name) && LexLe(b.name, c.name) {
        LexTransitive(a.name, b.name, c.name);
      }
      if LexLe(a.name, b.name) && LexLe(b.name, a.name) {
        LexAntisymmetric(a.name, b.name);
      }
    }
  }

  lemma {:induction false} PoolPermutation(p: seq<PoolRow>, p': seq<PoolRow>)
    requires multiset(p) == multiset(p')
    ensures Sort(p, PoolLe) == Sort(p', PoolLe)
  {
    PoolOrder();
    SortPermutation(p, p', PoolLe);
  }

  lemma {:induction false} PoolOrder()
    ensures TotalPreorder(PoolLe)
  {
  }

  lemma {:induction false} TickOrder()
    ensures TotalPreorder(TickLe)
  {
  }

  lemma {:induction false} TickPermutation(ticks: seq<ClTick>, other: seq<ClTick>)
    requires multiset(ticks) == multiset(other) && TicksAgree(ticks)
    ensures Sort(ticks, TickLe) == Sort(other, TickLe)
  {
    TickOrder();
    SortPermutation(ticks, other, TickLe);
  }

  lemma {:induction false} BalanceTies(a: BalanceRow, b: BalanceRow)
    requires Encodable(Balance(a)) && Encodable(Balance(b)) && BalanceLe(a, b) && BalanceLe(b, a)
    ensures a == b
  {
    if LexLe(a.kind, b.kind) && LexLe(b.kind, a.kind) {
      LexAntisymmetric(a.kind, b.kind);
    }
    assert a.scaled.Some? ==> Fits(Parts(Balance(a))[5]);
    assert b.scaled.Some? ==> Fits(Parts(Balance(b))[5]);
  }

  lemma {:induction false} ScalarTies(a: ScalarRow, b: ScalarRow)
    requires ScalarLe(a, b) && ScalarLe(b, a)
    ensures a == b
  {
    if LexLe(a.name, b.name) && LexLe(b.name, a.name) {
      LexAntisymmetric(a.name, b.name);
    }
  }

  // ---- token and pool observations ----------------------------------------------------------------

  function Balances(rows: seq<BalanceRow>): (items: seq<Item>)
    ensures |items| == |rows| && forall k :: 0 <= k < |rows| ==> items[k] == Balance(rows[k])
  {
    seq(|rows|, k requires 0 <= k < |rows| => Balance(rows[k]))
  }

  function Scalars(rows: seq<ScalarRow>): (items: seq<Item>)
    ensures |items| == |rows| && forall k :: 0 <= k < |rows| ==> items[k] == Scalar(rows[k])
  {
    seq(|rows|, k requires 0 <= k < |rows| => Scalar(rows[k]))
  }

  function Pools(rows: seq<PoolRow>): (items: seq<Item>)
    ensures |items| == |rows| && forall k :: 0 <= k < |rows| ==> items[k] == Pool(rows[k])
  {
    seq(|rows|, k requires 0 <= k < |rows| => Pool(rows[k]))
  }

  /** The records of a token digest: balances in key order, then scalars in key order. */
  function TokenItems(balances: seq<BalanceRow>, scalars: seq<ScalarRow>): seq<Item> {
    Balances(Sort(balances, BalanceLe)) + Scalars(Sort(scalars, ScalarLe))
  }

  ghost predicate TokenEncodable(balances: seq<BalanceRow>, scalars: seq<ScalarRow>) {
    (forall r :: r in balances ==> Encodable(Balance(r))) && (forall r :: r in scalars ==> Encodable(Scalar(r)))
  }

  lemma {:induction false} TokenItemsEncodable(balances: seq<BalanceRow>, scalars: seq<ScalarRow>)
    requires TokenEncodable(balances, scalars)
    ensures forall i :: i in TokenItems(balances, scalars) ==> Encodable(i) && !i.Tick?
  {
    var bs, ss := Sort(balances, BalanceLe), Sort(scalars, ScalarLe);
    BalanceOrder();
    ScalarOrder();
    SortCorrect(balances, BalanceLe);
    SortCorrect(scalars, ScalarLe);
    forall k | 0 <= k < |bs| ensures Encodable(Balances(bs)[k]) {
      assert bs[k] in balances;
    }
    forall k | 0 <= k < |ss| ensures Encodable(Scalars(ss)[k]) {
      assert ss[k] in scalars;
    }
  }

  lemma {:induction false} TokenItemsDetermine(b: seq<BalanceRow>, s: seq<ScalarRow>, b': seq<BalanceRow>,
      s': seq<ScalarRow>)
    requires Balances(b) + Scalars(s) == Balances(b') + Scalars(s')
    ensures b == b' && s == s'
  {
    var items := Balances(b) + Scalars(s);
    assert b != [] <==> items != [] && items[0].Balance?;
    assert b' != [] <==> items != [] && items[0].Balance?;
    if b != [] {
      assert items[0] == Balance(b[0]) == Balance(b'[0]);
      assert items[1..] == Balances(b[1..]) + Scalars(s) == Balances(b'[1..]) + Scalars(s');
      TokenItemsDetermine(b[1..], s, b'[1..], s');
      assert b == [b[0]] + b[1..] && b' == [b'[0]] + b'[1..];
    } else {
      assert items == Scalars(s) == Scalars(s');
      assert |s| == |items| == |s'|;
      forall k | 0 <= k < |s| ensures s[k] == s'[k] {
        assert items[k] == Scalar(s[k]) == Scalar(s'[k]);
      }
    }
  }

  /** Canonicity of the token stream: equal bytes exactly for the same multisets of rows. */
  lemma {:induction false} TokenStreamCanonical(b: seq<BalanceRow>, s: seq<ScalarRow>, b': seq<BalanceRow>,
      s': seq<ScalarRow>)
    requires TokenEncodable(b, s) && TokenEncodable(b', s')
    ensures forall i :: i in TokenItems(b, s) ==> Encodable(i)
    ensures forall i :: i in TokenItems(b', s') ==> Encodable(i)
    ensures Stream(TokenItems(b, s)) == Stream(TokenItems(b', s')) <==>
            multiset(b) == multiset(b') && multiset(s) == multiset(s')
  {
    TokenItemsEncodable(b, s);
    TokenItemsEncodable(b', s');
    BalanceOrder();
    ScalarOrder();
    if Stream(TokenItems(b, s)) == Stream(TokenItems(b', s')) {
      StreamInjective(TokenItems(b, s), TokenItems(b', s'), 0);
      TokenItemsDetermine(Sort(b, BalanceLe), Sort(s, ScalarLe), Sort(b', BalanceLe), Sort(s', ScalarLe));
      SortCorrect(b, BalanceLe);
      SortCorrect(b', BalanceLe);
      SortCorrect(s, ScalarLe);
      SortCorrect(s', ScalarLe);
    }
    if multiset(b) == multiset(b') && multiset(s) == multiset(s') {
      forall x, y | x in b && y in b && BalanceLe(x, y) && BalanceLe(y, x) ensures x == y {
        BalanceTies(x, y);
      }
      forall x, y | x in s && y in s && ScalarLe(x, y) && ScalarLe(y, x) ensures x == y {
        ScalarTies(x, y);
      }
      SortPermutation(b, b', BalanceLe);
      SortPermutation(s, s', ScalarLe);
    }
  }

  /** Canonicity of the pool stream. */
  lemma {:induction false} PoolStreamCanonical(p: seq<PoolRow>, p': seq<PoolRow>)
    requires (forall r :: r in p ==> Encodable(Pool(r))) && (forall r :: r in p' ==> Encodable(Pool(r)))
    ensures forall i :: i in Pools(Sort(p, PoolLe)) ==> Encodable(i)
    ensures forall i :: i in Pools(Sort(p', PoolLe)) ==> Encodable(i)
    ensures Stream(Pools(Sort(p, PoolLe))) == Stream(Pools(Sort(p', PoolLe))) <==> multiset(p) == multiset(p')
  {
    PoolItemsEncodable(p);
    PoolItemsEncodable(p');
    var s, s' := Sort(p, PoolLe), Sort(p', PoolLe);
    if Stream(Pools(s)) == Stream(Pools(s')) {
      StreamInjective(Pools(s), Pools(s'), 0);
      assert |Pools(s)| == |s| == |s'|;
      forall k | 0 <= k < |s| ensures s[k] == s'[k] {
        assert Pools(s)[k] == Pool(s[k]) == Pool(s'[k]);
      }
      assert s == s';
      PoolOrder();
      SortCorrect(p, PoolLe);
      SortCorrect(p', PoolLe);
    }
    if multiset(p) == multiset(p') {
      PoolPermutation(p, p');
    }
  }

  lemma {:induction false} PoolItemsEncodable(p: seq<PoolRow>)
    requires forall r :: r in p ==> Encodable(Pool(r))
    ensures forall i :: i in Pools(Sort(p, PoolLe)) ==> Encodable(i) && !i.Tick?
  {
    PoolOrder();
    SortCorrect(p, PoolLe);
    var s := Sort(p, PoolLe);
    forall k | 0 <= k < |s| ensures Encodable(Pools(s)[k]) {
      assert s[k] in p;
    }
  }

  // ---- concentrated liquidity -----------------------------------------------------------------------

  function Ticks(rows: seq<ClTick>): (items: seq<Item>)
    ensures |items| == |rows| && forall k :: 0 <= k < |rows| ==> items[k] == Tick(rows[k])
  {
    seq(|rows|, k requires 0 <= k < |rows| => Tick(rows[k]))
  }

  /** The records of a CL digest: the state, then the ticks in a stable sort by tick alone. */
  function ClItems(state: ClState, ticks: seq<ClTick>): seq<Item> {
    [State(state)] + Ticks(Sort(ticks, TickLe))
  }

  /** The program also raises when a tick row names another pool than the state. */
  ghost predicate ClEncodable(state: ClState, ticks: seq<ClTick>) {
    Encodable(State(state)) && forall t :: t in ticks ==> Encodable(Tick(t)) && t.pool == state.pool
  }

  lemma {:induction false} ClItemsEncodable(state: ClState, ticks: seq<ClTick>)
    requires ClEncodable(state, ticks)
    ensures forall i :: i in ClItems(state, ticks) ==> Encodable(i)
    ensures TicksOf(ClItems(state, ticks), state.pool)
  {
    TickOrder();
    SortCorrect(ticks, TickLe);
    var s := Sort(ticks, TickLe);
    forall k | 0 <= k < |s| ensures Encodable(Ticks(s)[k]) && s[k].pool == state.pool {
      assert s[k] in ticks;
    }
  }

  /** Equal CL streams come from equal states and equal sorted ticks. */
  lemma {:induction false} ClStreamDetermines(state: ClState, ticks: seq<ClTick>, state': ClState, ticks': seq<ClTick>)
    requires ClEncodable(state, ticks) && ClEncodable(state', ticks')
    ensures forall i :: i in ClItems(state, ticks) ==> Encodable(i)
    ensures forall i :: i in ClItems(state', ticks') ==> Encodable(i)
    ensures Stream(ClItems(state, ticks)) == Stream(ClItems(state', ticks')) <==>
            state == state' && Sort(ticks, TickLe) == Sort(ticks', TickLe)
  {
    ClItemsEncodable(state, ticks);
    ClItemsEncodable(state', ticks');
    var s, s' := Sort(ticks, TickLe), Sort(ticks', TickLe);
    if Stream(ClItems(state, ticks)) == Stream(ClItems(state', ticks')) {
      assert ClItems(state, ticks)[1..] == Ticks(s) && ClItems(state', ticks')[1..] == Ticks(s');
      PeelItem(State(state), Stream(Ticks(s)), State(state'), Stream(Ticks(s')));
      StreamInjective(ClItems(state, ticks), ClItems(state', ticks'), state.pool);
      assert Ticks(s) == Ticks(s');
      assert |s| == |Ticks(s)| == |s'|;
      forall k | 0 <= k < |s| ensures s[k] == s'[k] {
        assert Ticks(s)[k] == Tick(s[k]) == Tick(s'[k]);
      }
    }
  }

  /** No two different rows carry the same tick. */
  predicate TicksAgree(ticks: seq<ClTick>) {
    forall x, y :: x in ticks && y in ticks && x.tick == y.tick ==> x == y
  }

  /** Canonicity of the CL stream, where no two different rows share a tick. */
  lemma {:induction false} ClStreamCanonical(state: ClState, ticks: seq<ClTick>, state': ClState, ticks': seq<ClTick>)
    requires ClEncodable(state, ticks) && ClEncodable(state', ticks') && TicksAgree(ticks)
    ensures forall i :: i in ClItems(state, ticks) ==> Encodable(i)
    ensures forall i :: i in ClItems(state', ticks') ==> Encodable(i)
    ensures Stream(ClItems(state, ticks)) == Stream(ClItems(state', ticks')) <==>
            state == state' && multiset(ticks) == multiset(ticks')
  {
    ClStreamDetermines(state, ticks, state', ticks');
    TickOrder();
    SortCorrect(ticks, TickLe);
    SortCorrect(ticks', TickLe);
    if multiset(ticks) == multiset(ticks') {
      TickPermutation(ticks, ticks');
    }
  }

  ghost predicate Reorders(other: seq<ClTick>, ticks: seq<ClTick>) {
    multiset(other) == multiset(ticks)
  }

  /** The CL stream is independent of the order of the tick rows exactly when no two different rows share
      a tick. */
  lemma {:induction false} ClStreamOrderIff(state: ClState, ticks: seq<ClTick>)
    requires ClEncodable(state, ticks)
    ensures (forall other :: Reorders(other, ticks) ==> SameClStream(state, other, ticks)) <==> TicksAgree(ticks)
  {
    ClOrderIndependentIff(ticks);
    forall other | Reorders(other, ticks)
      ensures SameClStream(state, other, ticks) <==> Sort(other, TickLe) == Sort(ticks, TickLe)
    {
      forall t | t in other ensures t in ticks {
        assert t in multiset(other);
      }
      ClStreamDetermines(state, other, state, ticks);
    }
  }

  ghost predicate SameClStream(state: ClState, a: seq<ClTick>, b: seq<ClTick>) {
    && (forall i :: i in ClItems(state, a) ==> Encodable(i)) && (forall i :: i in ClItems(state, b) ==> Encodable(i))
    && Stream(ClItems(state, a)) == Stream(ClItems(state, b))
  }

  /** The sort by tick alone is order-independent exactly when no two different rows share a tick. */
  lemma {:induction false} ClOrderIndependentIff(ticks: seq<ClTick>)
    ensures (forall other :: Reorders(other, ticks) ==> Sort(other, TickLe) == Sort(ticks, TickLe)) <==>
              TicksAgree(ticks)
  {
    if TicksAgree(ticks) {
      forall other | Reorders(other, ticks) ensures Sort(other, TickLe) == Sort(ticks, TickLe) {
        TickPermutation(ticks, other);
      }
    } else {
      var a, b := ClashingOrders(ticks);
      assert Reorders(a, ticks) && Reorders(b, ticks);
    }
  }

  lemma {:induction false} ClashingOrders(ticks: seq<ClTick>) returns (a: seq<ClTick>, b: seq<ClTick>)
    requires !TicksAgree(ticks)
    ensures Reorders(a, ticks) && Reorders(b, ticks) && Sort(a, TickLe) != Sort(b, TickLe)
  {
    var x, y :| x in ticks && y in ticks && x.tick == y.tick && x != y;
    a := Sort(ticks, TickLe);
    TickOrder();
    SortCorrect(ticks, TickLe);
    assert x in a && y in a;
    var i :| 0 <= i < |a| && a[i] == x;
    var j :| 0 <= j < |a| && a[j] == y;
    SwapTies(a, i, j);
    b := a[i := a[j]][j := a[i]];
  }

  /** Exchanging two rows with the same tick gives another sorted list, which sorting leaves alone. */
  lemma {:induction false} SwapTies(s: seq<ClTick>, i: nat, j: nat)
    requires SortedBy(s, TickLe) && i < |s| && j < |s| && s[i].tick == s[j].tick && s[i] != s[j]
    ensures var swapped := s[i := s[j]][j := s[i]];
            multiset(swapped) == multiset(s) && Sort(swapped, TickLe) != Sort(s, TickLe)
  {
    var swapped := s[i := s[j]][j := s[i]];
    SwapKeeps(s, i, j);
    SortOfSorted(s, TickLe);
    SortOfSorted(swapped, TickLe);
    assert swapped[i] != s[i];
  }

  lemma {:induction false} SwapKeeps(s: seq<ClTick>, i: nat, j: nat)
    requires SortedBy(s, TickLe) && i < |s| && j < |s| && s[i].tick == s[j].tick
    ensures var swapped := s[i := s[j]][j := s[i]];
            multiset(swapped) == multiset(s) && SortedBy(swapped, TickLe)
  {
    var swapped := s[i := s[j]][j := s[i]];
    assert forall k :: 0 <= k < |s| ==> swapped[k].tick == s[k].tick;
  }

  /** A concrete clash: the same two rows in two orders give two different streams. */
  lemma {:induction false} ClashingTicks(state: ClState, x: ClTick, y: ClTick)
    requires ClEncodable(state, [x, y]) && x.tick == y.tick && x != y
    ensures forall i :: i in ClItems(state, [x, y]) ==> Encodable(i)
    ensures forall i :: i in ClItems(state, [y, x]) ==> Encodable(i)
    ensures multiset([x, y]) == multiset([y, x])
    ensures Stream(ClItems(state, [x, y])) != Stream(ClItems(state, [y, x]))
  {
    var ticks := [x, y];
    SwapTies(ticks, 0, 1);
    assert ticks[0 := ticks[1]][1 := ticks[0]] == [y, x];
    ClStreamDetermines(state, ticks, state, [y, x]);
  }

  // ---- universes ------------------------------------------------------------------------------------

  function DistinctTexts(ts: seq<Text>): (ds: seq<Text>)
    ensures Distinct(ds) && forall t :: t in ds <==> t in ts
  {
    if ts == [] then [] else
      var last := ts[|ts| - 1];
      var front := DistinctTexts(ts[..|ts| - 1]);
      assert ts == ts[..|ts| - 1] + [last];
      if last in front then front else front + [last]
  }

  /** `tuple(sorted(set(sources)))`. */
  function CanonicalSources(ts: seq<Text>): seq<Text> {
    Sort(DistinctTexts(ts), LexLe)
  }

  lemma {:induction false} LexOrder()
    ensures TotalPreorder(LexLe)
  {
    forall a, b ensures LexLe(a, b) || LexLe(b, a) {
      LexTotal(a, b);
    }
    forall a, b, c | LexLe(a, b) && LexLe(b, c) ensures LexLe(a, c) {
      LexTransitive(a, b, c);
    }
  }

  /** Source lists canonicalize alike exactly when they are the same set. */
  lemma {:induction false} CanonicalSourcesIff(ts: seq<Text>, us: seq<Text>)
    ensures CanonicalSources(ts) == CanonicalSources(us) <==> forall t :: t in ts <==> t in us
  {
    LexOrder();
    SortCorrect(DistinctTexts(ts), LexLe);
    SortCorrect(DistinctTexts(us), LexLe);
    if CanonicalSources(ts) == CanonicalSources(us) {
      forall t ensures t in ts <==> t in us {
        assert t in CanonicalSources(ts) <==> t in DistinctTexts(ts);
        assert t in CanonicalSources(us) <==> t in DistinctTexts(us);
      }
    }
    if forall t :: t in ts <==> t in us {
      DistinctSameElements(DistinctTexts(ts), DistinctTexts(us));
      forall x, y | x in DistinctTexts(ts) && y in DistinctTexts(ts) && LexLe(x, y) && LexLe(y, x) ensures x == y {
        LexAntisymmetric(x, y);
      }
      SortPermutation(DistinctTexts(ts), DistinctTexts(us), LexLe);
    }
  }

  predicate DistinctAddresses(members: seq<MemberRow>) {
    forall i, j :: 0 <= i < j < |members| ==> members[i].address != members[j].address
  }

  function MemberItem(r: MemberRow): Item {
    Member(r.address, CanonicalSources(r.sources))
  }

  function Members(rows: seq<MemberRow>): (items: seq<Item>)
    ensures |items| == |rows| && forall k :: 0 <= k < |rows| ==> items[k] == MemberItem(rows[k])
  {
    seq(|rows|, k requires 0 <= k < |rows| => MemberItem(rows[k]))
  }

  /** The records of a universe digest: one per member, by address. */
  function UniverseItems(members: seq<MemberRow>): seq<Item> {
    Members(Sort(members, MemberLe))
  }

  ghost predicate HasMember(members: seq<MemberRow>, a: nat) {
    exists r :: r in members && r.address == a
  }

  ghost predicate HasSource(members: seq<MemberRow>, a: nat, t: Text) {
    exists r :: r in members && r.address == a && t in r.sources
  }

  /** The same map from address to set of sources. */
  ghost predicate SameUniverse(m: seq<MemberRow>, m': seq<MemberRow>) {
    && (forall a :: HasMember(m, a) <==> HasMember(m', a))
    && (forall a, t :: HasSource(m, a, t) <==> HasSource(m', a, t))
  }

  predicate ItemLe(i: Item, j: Item) {
    i.Member? && j.Member? && i.address <= j.address
  }

  lemma {:induction false} UniverseItemsAre(m: seq<MemberRow>)
    requires DistinctAddresses(m)
    ensures SortedBy(UniverseItems(m), ItemLe) && Distinct(UniverseItems(m))
    ensures forall i :: i in UniverseItems(m) <==> exists r :: r in m && MemberItem(r) == i
    ensures forall r, r' :: r in m && r' in m && r.address == r'.address ==> r == r'
  {
    UniqueByAddress(m);
    SortedMembers(m);
    MemberItems(m);
  }

  lemma {:induction false} SortedMembers(m: seq<MemberRow>)
    requires DistinctAddresses(m)
    ensures var s := Sort(m, MemberLe);
            (forall r :: r in s <==> r in m) && forall i, j :: 0 <= i < j < |s| ==> s[i].address < s[j].address
  {
    var s := Sort(m, MemberLe);
    MemberOrder();
    SortCorrect(m, MemberLe);
    DistinctMultiset(m, s);
    UniqueByAddress(m);
    forall i, j | 0 <= i < j < |s| ensures s[i].address < s[j].address {
      assert s[i] in m && s[j] in m && s[i] != s[j] && MemberLe(s[i], s[j]);
    }
  }

  lemma {:induction false} MemberItems(m: seq<MemberRow>)
    requires DistinctAddresses(m)
    ensures forall i :: i in UniverseItems(m) <==> exists r :: r in m && MemberItem(r) == i
  {
    var s := Sort(m, MemberLe);
    SortedMembers(m);
    forall r | r in m ensures MemberItem(r) in UniverseItems(m) {
      assert r in s;
      var k :| 0 <= k < |s| && s[k] == r;
      assert UniverseItems(m)[k] == MemberItem(r);
    }
    forall i | i in UniverseItems(m) ensures exists r :: r in m && MemberItem(r) == i {
      var k :| 0 <= k < |s| && UniverseItems(m)[k] == i;
      assert s[k] in m;
    }
  }

  lemma {:induction false} UniqueByAddress(m: seq<MemberRow>)
    requires DistinctAddresses(m)
    ensures forall r, r' :: r in m && r' in m && r.address == r'.address ==> r == r'
  {
  }

  lemma {:induction false} MemberOrder()
    ensures TotalPreorder(MemberLe)
  {
  }

  /** The item of an address carries exactly the sources of its row. */
  lemma {:induction false} SameItemsIff(m: seq<MemberRow>, m': seq<MemberRow>)
    requires DistinctAddresses(m) && DistinctAddresses(m')
    ensures (forall i :: i in UniverseItems(m) <==> i in UniverseItems(m')) <==> SameUniverse(m, m')
  {
    UniverseItemsAre(m);
    UniverseItemsAre(m');
    if SameUniverse(m, m') {
      forall i ensures i in UniverseItems(m) <==> i in UniverseItems(m') {
        if i in UniverseItems(m) {
          ItemTransfers(m, m', i);
        }
        if i in UniverseItems(m') {
          ItemTransfers(m', m, i);
        }
      }
    }
    if forall i :: i in UniverseItems(m) <==> i in UniverseItems(m') {
      RowsTransfer(m, m');
      RowsTransfer(m', m);
    }
  }

  lemma {:induction false} ItemTransfers(m: seq<MemberRow>, m': seq<MemberRow>, i: Item)
    requires DistinctAddresses(m) && DistinctAddresses(m') && SameUniverse(m, m') && i in UniverseItems(m)
    ensures i in UniverseItems(m')
  {
    UniverseItemsAre(m);
    UniverseItemsAre(m');
    var r :| r in m && MemberItem(r) == i;
    assert HasMember(m, r.address) && HasMember(m', r.address);
    var r' :| r' in m' && r'.address == r.address;
    forall t ensures t in r.sources <==> t in r'.sources {
      assert HasSource(m, r.address, t) <==> t in r.sources;
      assert HasSource(m', r.address, t) <==> t in r'.sources;
    }
    CanonicalSourcesIff(r.sources, r'.sources);
    assert MemberItem(r') == i;
  }

  lemma {:induction false} RowsTransfer(m: seq<MemberRow>, m': seq<MemberRow>)
    requires DistinctAddresses(m) && DistinctAddresses(m')
    requires forall i :: i in UniverseItems(m) ==> i in UniverseItems(m')
    ensures forall a :: HasMember(m, a) ==> HasMember(m', a)
    ensures forall a, t :: HasSource(m, a, t) ==> HasSource(m', a, t)
  {
    UniverseItemsAre(m);
    UniverseItemsAre(m');
    forall r | r in m
      ensures exists r' :: r' in m' && r'.address == r.address && forall t :: t in r.sources <==> t in r'.sources
    {
      assert MemberItem(r) in UniverseItems(m');
      var r' :| r' in m' && MemberItem(r') == MemberItem(r);
      CanonicalSourcesIff(r.sources, r'.sources);
    }
  }

  /** Canonicity of the universe stream: equal bytes exactly for the same map from address to sources. */
  lemma {:induction false} UniverseStreamCanonical(m: seq<MemberRow>, m': seq<MemberRow>)
    requires DistinctAddresses(m) && DistinctAddresses(m')
    requires forall i :: i in UniverseItems(m) ==> Encodable(i)
    requires forall i :: i in UniverseItems(m') ==> Encodable(i)
    ensures Stream(UniverseItems(m)) == Stream(UniverseItems(m')) <==> SameUniverse(m, m')
  {
    UniverseItemsAre(m);
    UniverseItemsAre(m');
    SameItemsIff(m, m');
    if Stream(UniverseItems(m)) == Stream(UniverseItems(m')) {
      StreamInjective(UniverseItems(m), UniverseItems(m'), 0);
    }
    if SameUniverse(m, m') {
      DistinctSameElements(UniverseItems(m), UniverseItems(m'));
      MemberItemTies(m);
      SortedUnique(UniverseItems(m), UniverseItems(m'), ItemLe);
    }
  }

  lemma {:induction false} MemberItemTies(m: seq<MemberRow>)
    requires DistinctAddresses(m)
    ensures forall x, y :: x in UniverseItems(m) && y in UniverseItems(m) && ItemLe(x, y) && ItemLe(y, x) ==> x == y
  {
    UniverseItemsAre(m);
  }

  // ---- feeding the hasher ---------------------------------------------------------------------------

  datatype Kind = UniverseDigest | TokenDigest | PoolDigest | ClDigest

  datatype DigestError = DuplicateMember | NotEncodable | ForeignTick

  /** The domain tag that opens each kind of stream. */
  function Domain(kind: Kind): Text {
    match kind
    case UniverseDigest => Ascii("rpc-state-indexer/universe/v1") + [0]
    case TokenDigest => Ascii("rpc-state-indexer/token-observations/v1") + [0]
    case PoolDigest => Ascii("rpc-state-indexer/pool-observations/v1") + [0]
    case ClDigest => Ascii("rpc-state-indexer/cl-observations/v1") + [0]
  }

  /** Streams of different kinds never coincide, whatever they carry. */
  lemma {:induction false} DomainsSeparate(kind: Kind, x: seq<Byte>, other: Kind, y: seq<Byte>)
    requires Domain(kind) + x == Domain(other) + y
    ensures kind == other && x == y
  {
    assert (Domain(kind) + x)[18] == Domain(kind)[18];
    assert (Domain(other) + y)[18] == Domain(other)[18];
    assert kind == other;
    Peel(Domain(kind), x, Domain(other), y);
  }

  lemma {:induction false} StreamAppend(items: seq<Item>, i: Item)
    requires (forall j :: j in items ==> Encodable(j)) && Encodable(i)
    ensures forall j :: j in items + [i] ==> Encodable(j)
    ensures Stream(items + [i]) == Stream(items) + ItemThen(i, [])
  {
    if items == [] {
      assert items + [i] == [i] && [i][1..] == [];
    } else {
      assert items[0] in items;
      StreamAppend(items[1..], i);
      assert (items + [i])[1..] == items[1..] + [i];
      PartsThenAppend(Parts(items[0]), Stream(items[1..]), ItemThen(i, []));
    }
  }

  lemma {:induction false} Associative(a: seq<Byte>, b: seq<Byte>, c: seq<Byte>)
    ensures a + (b + c) == (a + b) + c
  {
  }

  lemma {:induction false} PartThenAppend(p: Part, x: seq<Byte>, y: seq<Byte>)
    requires Fits(p)
    ensures PartThen(p, x + y) == PartThen(p, x) + y
  {
    match p
    case Number(value, width) => Associative(BigEndian(value, width), x, y);
    case Signed(value, width) =>
      Associative(BigEndian(if value < 0 then value + Pow256(width) else value, width), x, y);
    case Label(text) =>
      Associative(text, x, y);
      Associative(BigEndian(|text|, 4), text + x, y);
  }

  lemma {:induction false} PartsThenAppend(ps: seq<Part>, x: seq<Byte>, y: seq<Byte>)
    requires forall k :: 0 <= k < |ps| ==> Fits(ps[k])
    ensures PartsThen(ps, x + y) == PartsThen(ps, x) + y
  {
    if ps != [] {
      PartsThenAppend(ps[1..], x, y);
      PartThenAppend(ps[0], PartsThen(ps[1..], x), y);
    }
  }

  /** The hashing loop: a domain tag, then record after record, until one is out of range. */
  method Feed(kind: Kind, items: seq<Item>) returns (r: Result<seq<Byte>, DigestError>)
    ensures r.Ok? <==> forall i :: i in items ==> Encodable(i)
    ensures r.Ok? ==> r.value == Domain(kind) + Stream(items)
    ensures r.Err? ==> r.error == NotEncodable
  {
    var body: seq<Byte> := [];
    for k := 0 to |items|
      invariant forall i :: i in items[..k] ==> Encodable(i)
      invariant body == Stream(items[..k])
    {
      assert items[k] in items;
      if !Encodable(items[k]) {
        return Err(NotEncodable);
      }
      StreamAppend(items[..k], items[k]);
      assert items[..k + 1] == items[..k] + [items[k]];
      body := body + ItemThen(items[k], []);
    }
    assert items[..|items|] == items;
    return Ok(Domain(kind) + body);
  }

  /** The bytes hashed for a universe; a repeated address is refused. */
  method UniverseBytes(members: seq<MemberRow>) returns (r: Result<seq<Byte>, DigestError>)
    ensures r == Err(DuplicateMember) <==> !DistinctAddresses(members)
    ensures r.Ok? <==> DistinctAddresses(members) && forall i :: i in UniverseItems(members) ==> Encodable(i)
    ensures r.Ok? ==> r.value == Domain(UniverseDigest) + Stream(UniverseItems(members))
  {
    var seen: set<nat> := {};
    for k := 0 to |members|
      invariant forall a :: a in seen <==> exists j :: 0 <= j < k && members[j].address == a
      invariant DistinctAddresses(members[..k])
    {
      if members[k].address in seen {
        return Err(DuplicateMember);
      }
      seen := seen + {members[k].address};
    }
    assert members[..|members|] == members;
    r := Feed(UniverseDigest, UniverseItems(members));
  }

  method TokenBytes(balances: seq<BalanceRow>, scalars: seq<ScalarRow>) returns (r: Result<seq<Byte>, DigestError>)
    ensures r.Ok? <==> forall i :: i in TokenItems(balances, scalars) ==> Encodable(i)
    ensures r.Ok? ==> r.value == Domain(TokenDigest) + Stream(TokenItems(balances, scalars))
  {
    r := Feed(TokenDigest, TokenItems(balances, scalars));
  }

  method PoolBytes(rows: seq<PoolRow>) returns (r: Result<seq<Byte>, DigestError>)
    ensures r.Ok? <==> forall i :: i in Pools(Sort(rows, PoolLe)) ==> Encodable(i)
    ensures r.Ok? ==> r.value == Domain(PoolDigest) + Stream(Pools(Sort(rows, PoolLe)))
  {
    r := Feed(PoolDigest, Pools(Sort(rows, PoolLe)));
  }

  /** The bytes hashed for a CL pool; a tick of another pool is refused. */
  method ClBytes(state: ClState, ticks: seq<ClTick>) returns (r: Result<seq<Byte>, DigestError>)
    ensures r.Ok? <==>
              (forall i :: i in ClItems(state, ticks) ==> Encodable(i)) && forall t :: t in ticks ==>
                t.pool == state.pool
    ensures r.Ok? ==> r.value == Domain(ClDigest) + Stream(ClItems(state, ticks))
  {
    var sorted := Sort(ticks, TickLe);
    TickOrder();
    SortCorrect(ticks, TickLe);
    for k := 0 to |sorted|
      invariant forall j :: 0 <= j < k ==> sorted[j].pool == state.pool
    {
      if sorted[k].pool != state.pool {
        assert sorted[k] in ticks;
        return Err(ForeignTick);
      }
    }
    forall t | t in ticks ensures t.pool == state.pool {
      assert t in sorted;
    }
    r := Feed(ClDigest, ClItems(state, ticks));
  }
}
