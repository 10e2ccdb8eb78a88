/** The liquidity profile of a concentrated-liquidity pool, from its tick primitives. */
module Profile {
  import opened Wrappers
  import opened SortedSets

  datatype TickRow = TickRow(tick: int, net: int)

  datatype Segment = Segment(lower: int, upper: int, liquidity: int)

  datatype ProfileError = NegativeLiquidity

  ghost predicate Ascending(ticks: seq<TickRow>) {
    forall i, j :: 0 <= i < j < |ticks| ==> ticks[i].tick < ticks[j].tick
  }

  function NetSum(ticks: seq<TickRow>): int {
    if ticks == [] then 0 else NetSum(ticks[..|ticks| - 1]) + ticks[|ticks| - 1].net
  }

  /** The running sum through tick `i`: the liquidity on the gap above it. */
  function LevelAt(ticks: seq<TickRow>, i: int): int
    requires 0 <= i < |ticks|
  {
    NetSum(ticks[..i + 1])
  }

  ghost predicate PerGap(rows: seq<Segment>, ticks: seq<TickRow>) {
    && |rows| == (if |ticks| == 0 then 0 else |ticks| - 1)
    && forall i {:trigger rows[i]} :: 0 <= i < |rows| ==>
         rows[i] == Segment(ticks[i].tick, ticks[i + 1].tick, LevelAt(ticks, i))
  }

  /** One segment per gap between neighbours, carrying the running sum; fails exactly when one of
      those sums is negative. */
  method Segments(ticks: seq<TickRow>) returns (r: Result<seq<Segment>, ProfileError>)
    ensures r.Err? <==> exists i :: 0 <= i < |ticks| - 1 && LevelAt(ticks, i) < 0
    ensures r.Ok? ==> PerGap(r.value, ticks)
  {
    var rows: seq<Segment> := [];
    var cumulative := 0;
    var i := 0;
    while i + 1 < |ticks|
      invariant 0 <= i && (i == 0 || i < |ticks|) && |rows| == i
      invariant i <= |ticks| && cumulative == NetSum(ticks[..i])
      invariant forall j :: 0 <= j < i ==> LevelAt(ticks, j) >= 0
      invariant forall j :: 0 <= j < i ==> rows[j] == Segment(ticks[j].tick, ticks[j + 1].tick, LevelAt(ticks, j))
    {
      cumulative := cumulative + ticks[i].net;
      assert ticks[..i + 1][..i] == ticks[..i];
      assert cumulative == LevelAt(ticks, i);
      if cumulative < 0 {
        return Err(NegativeLiquidity);
      }
      rows := rows + [Segment(ticks[i].tick, ticks[i + 1].tick, cumulative)];
      i := i + 1;
    }
    return Ok(rows);
  }

  // ---- the reconcile checks of the collector -------------------------------------------------

  function ActiveSum(ticks: seq<TickRow>, current: int): int {
    if ticks == [] then 0 else
      ActiveSum(ticks[..|ticks| - 1], current)
        + if ticks[|ticks| - 1].tick <= current then ticks[|ticks| - 1].net else 0
  }

  /** Net liquidity sums to zero, and the ticks at or below the current one sum to the pool's liquidity. */
  predicate Reconciles(ticks: seq<TickRow>, current: int, liquidity: int) {
    NetSum(ticks) == 0 && ActiveSum(ticks, current) == liquidity
  }

  lemma {:induction false} ActiveIsPrefix(ticks: seq<TickRow>, n: nat, current: int)
    requires Ascending(ticks) && n <= |ticks|
    requires forall i :: 0 <= i < n ==> ticks[i].tick <= current
    requires forall i :: n <= i < |ticks| ==> current < ticks[i].tick
    ensures ActiveSum(ticks, current) == NetSum(ticks[..n])
  {
    if ticks != [] {
      var front := ticks[..|ticks| - 1];
      if n == |ticks| {
        ActiveIsPrefix(front, n - 1, current);
        assert ticks[..n] == ticks && front[..n - 1] == front;
      } else {
        ActiveIsPrefix(front, n, current);
        assert front[..n] == ticks[..n];
      }
    }
  }

  /** Whenever the checks pass and the profile is built, the segment that holds the current tick
      carries exactly the pool's on-chain liquidity. */
  lemma {:induction false} CurrentSegment(ticks: seq<TickRow>, current: int, liquidity: int, i: nat)
    requires Ascending(ticks) && Reconciles(ticks, current, liquidity) && i + 1 < |ticks|
    requires ticks[i].tick <= current < ticks[i + 1].tick
    ensures LevelAt(ticks, i) == liquidity
  {
    ActiveIsPrefix(ticks, i + 1, current);
  }

  /** The two checks alone do not keep the running sums nonnegative: these ticks reconcile, and the
      first segment is negative. */
  lemma {:induction false} ReconciledYetNegative()
    ensures var ticks := [TickRow(-10, -5), TickRow(0, 10), TickRow(10, -5)];
            Ascending(ticks) && Reconciles(ticks, 0, 5) && LevelAt(ticks, 0) < 0
  {
    var t1, t2, t3 := TickRow(-10, -5), TickRow(0, 10), TickRow(10, -5);
    AppendTick([], t1, 0);
    AppendTick([t1], t2, 0);
    AppendTick([t1, t2], t3, 0);
    assert [] + [t1] == [t1] && [t1] + [t2] == [t1, t2] && [t1, t2] + [t3] == [t1, t2, t3];
    assert [t1, t2, t3][..1] == [t1];
  }

  lemma {:induction false} AppendTick(ticks: seq<TickRow>, t: TickRow, current: int)
    ensures NetSum(ticks + [t]) == NetSum(ticks) + t.net
    ensures ActiveSum(ticks + [t], current) == ActiveSum(ticks, current) + if t.tick <= current then t.net else 0
  {
    assert (ticks + [t])[..|ticks + [t]| - 1] == ticks;
  }

  // ---- positions ---------------------------------------------------------------------------------

  /** Liquidity provided on [lower, upper). */
  datatype Position = Position(lower: int, upper: int, liquidity: nat)

  ghost predicate Proper(positions: seq<Position>) {
    forall q :: q in positions ==> q.lower < q.upper && q.liquidity > 0
  }

  function Covering(positions: seq<Position>, p: int): nat {
    if positions == [] then 0 else
      Covering(positions[1..], p) + if positions[0].lower <= p < positions[0].upper then positions[0].liquidity else 0
  }

  /** What crossing `t` upward changes: liquidity starting there minus liquidity ending there. */
  function NetAt(positions: seq<Position>, t: int): int {
    if positions == [] then 0 else
      NetAt(positions[1..], t) + Change(positions[0], t)
  }

  function Change(q: Position, t: int): int {
    (if q.lower == t then q.liquidity else 0) - (if q.upper == t then q.liquidity else 0)
  }

  function RowsAt(positions: seq<Position>, ts: seq<int>): (rows: seq<TickRow>)
    ensures |rows| == |ts| && forall k :: 0 <= k < |ts| ==> rows[k] == TickRow(ts[k], NetAt(positions, ts[k]))
  {
    seq(|ts|, k requires 0 <= k < |ts| => TickRow(ts[k], NetAt(positions, ts[k])))
  }

  function TickNumbers(ticks: seq<TickRow>): (ts: seq<int>)
    ensures |ts| == |ticks| && forall k :: 0 <= k < |ts| ==> ts[k] == ticks[k].tick
  {
    seq(|ticks|, k requires 0 <= k < |ticks| => ticks[k].tick)
  }

  /** `ticks` is what a pool holding exactly these positions stores: every position boundary is one
      of the ticks, and each tick carries the net liquidity crossed there. */
  ghost predicate StoredFor(ticks: seq<TickRow>, positions: seq<Position>) {
    && Proper(positions)
    && Ascending(ticks)
    && (forall q :: q in positions ==> q.lower in TickNumbers(ticks) && q.upper in TickNumbers(ticks))
    && forall k :: 0 <= k < |ticks| ==> ticks[k].net == NetAt(positions, ticks[k].tick)
  }

  function Boundaries(positions: seq<Position>): (bs: set<int>)
    ensures forall q :: q in positions ==> q.lower in bs && q.upper in bs
    ensures forall b :: b in bs ==> exists q :: q in positions && (b == q.lower || b == q.upper)
  {
    if positions == [] then {} else
      assert positions[0] in positions;
      Boundaries(positions[1..]) + {positions[0].lower, positions[0].upper}
  }

  /** The initialized ticks of a pool: the boundaries of its positions, each with its net liquidity. */
  function PoolTicks(positions: seq<Position>): seq<TickRow> {
    RowsAt(positions, SortedSet(Boundaries(positions)))
  }

  function ChangeSum(q: Position, ts: seq<int>): int {
    if ts == [] then 0 else ChangeSum(q, ts[..|ts| - 1]) + Change(q, ts[|ts| - 1])
  }

  ghost predicate Increasing(ts: seq<int>) {
    forall i, j :: 0 <= i < j < |ts| ==> ts[i] < ts[j]
  }

  lemma {:induction false} ChangeSumIs(q: Position, ts: seq<int>)
    requires Increasing(ts)
    ensures ChangeSum(q, ts) == (if q.lower in ts then q.liquidity else 0) - (if q.upper in ts then q.liquidity else 0)
  {
    if ts != [] {
      var front, last := ts[..|ts| - 1], ts[|ts| - 1];
      ChangeSumIs(q, front);
      assert ts == front + [last];
      assert last !in front;
    }
  }

  lemma {:induction false} NetSumSplits(positions: seq<Position>, ts: seq<int>)
    requires positions != []
    ensures NetSum(RowsAt(positions, ts)) == NetSum(RowsAt(positions[1..], ts)) + ChangeSum(positions[0], ts)
  {
    if ts != [] {
      var front := ts[..|ts| - 1];
      NetSumSplits(positions, front);
      assert RowsAt(positions, ts)[..|ts| - 1] == RowsAt(positions, front);
      assert RowsAt(positions[1..], ts)[..|ts| - 1] == RowsAt(positions[1..], front);
    }
  }

  lemma {:induction false} EmptyNetSum(ts: seq<int>)
    ensures NetSum(RowsAt([], ts)) == 0
  {
    if ts != [] {
      EmptyNetSum(ts[..|ts| - 1]);
      assert RowsAt([], ts)[..|ts| - 1] == RowsAt([], ts[..|ts| - 1]);
    }
  }

  /** The running sum at a point is the liquidity of the positions that cover it. */
  lemma {:induction false} PrefixIsCovering(positions: seq<Position>, ts: seq<int>, p: int)
    requires Proper(positions) && Increasing(ts)
    requires forall q :: q in positions ==> (q.lower in ts <==> q.lower <= p) && (q.upper in ts <==> q.upper <= p)
    ensures NetSum(RowsAt(positions, ts)) == Covering(positions, p)
  {
    if positions == [] {
      EmptyNetSum(ts);
    } else {
      assert positions[0] in positions;
      PrefixIsCovering(positions[1..], ts, p);
      NetSumSplits(positions, ts);
      ChangeSumIs(positions[0], ts);
    }
  }

  /** Cutting increasing numbers at p keeps exactly those at or below p. */
  lemma {:induction false} CutMembership(ts: seq<int>, n: nat, p: int, b: int)
    requires n <= |ts| && b in ts
    requires forall i :: 0 <= i < n ==> ts[i] <= p
    requires forall i :: n <= i < |ts| ==> p < ts[i]
    ensures b in ts[..n] <==> b <= p
  {
    var k :| 0 <= k < |ts| && ts[k] == b;
    assert k < n ==> ts[..n][k] == b;
  }

  /** The running sum over the ticks at or below p is the total liquidity of the positions that
      cover p. */
  lemma {:induction false} SumIsCovering(ticks: seq<TickRow>, positions: seq<Position>, n: nat, p: int)
    requires StoredFor(ticks, positions) && n <= |ticks|
    requires forall i :: 0 <= i < n ==> ticks[i].tick <= p
    requires forall i :: n <= i < |ticks| ==> p < ticks[i].tick
    ensures NetSum(ticks[..n]) == Covering(positions, p)
  {
    var ts := TickNumbers(ticks);
    forall q | q in positions ensures (q.lower in ts[..n] <==> q.lower <= p) && (q.upper in ts[..n] <==> q.upper <= p) {
      CutMembership(ts, n, p, q.lower);
      CutMembership(ts, n, p, q.upper);
    }
    PrefixIsCovering(positions, ts[..n], p);
    assert ticks[..n] == RowsAt(positions, ts[..n]);
  }

  /** Above the highest boundary no position is active. */
  lemma {:induction false} NothingAbove(positions: seq<Position>, p: int)
    requires forall q :: q in positions ==> q.upper <= p
    ensures Covering(positions, p) == 0
  {
    if positions != [] {
      assert positions[0] in positions;
      NothingAbove(positions[1..], p);
    }
  }

  lemma {:induction false} NetSumZero(ticks: seq<TickRow>, positions: seq<Position>)
    requires StoredFor(ticks, positions)
    ensures NetSum(ticks) == 0
  {
    if ticks != [] {
      var top := ticks[|ticks| - 1].tick;
      forall q | q in positions ensures q.upper <= top {
        var k :| 0 <= k < |ticks| && TickNumbers(ticks)[k] == q.upper;
        assert k < |ticks| - 1 ==> ticks[k].tick < ticks[|ticks| - 1].tick;
      }
      SumIsCovering(ticks, positions, |ticks|, top);
      assert ticks[..|ticks|] == ticks;
      NothingAbove(positions, top);
    }
  }

  lemma {:induction false} CountAtMost(ticks: seq<TickRow>, current: int) returns (n: nat)
    requires Ascending(ticks)
    ensures n <= |ticks|
    ensures forall i :: 0 <= i < n ==> ticks[i].tick <= current
    ensures forall i :: n <= i < |ticks| ==> current < ticks[i].tick
  {
    n := 0;
    while n < |ticks| && ticks[n].tick <= current
      invariant n <= |ticks| && forall i :: 0 <= i < n ==> ticks[i].tick <= current
    {
      n := n + 1;
    }
  }

  /** Ticks stored for positions pass both reconcile checks exactly when the pool reports, as its
      liquidity, that of the positions covering the current tick. */
  lemma {:induction false} PositionsReconcile(ticks: seq<TickRow>, positions: seq<Position>, current: int,
      liquidity: int)
    requires StoredFor(ticks, positions)
    ensures Reconciles(ticks, current, liquidity) <==> liquidity == Covering(positions, current)
  {
    var n := CountAtMost(ticks, current);
    SumIsCovering(ticks, positions, n, current);
    ActiveIsPrefix(ticks, n, current);
    NetSumZero(ticks, positions);
  }

  // ---- exactly when ticks come from positions ----------------------------------------------------

  ghost predicate NonnegativeLevels(ticks: seq<TickRow>) {
    forall i :: 0 <= i < |ticks| ==> LevelAt(ticks, i) >= 0
  }

  /** One position per gap, holding that gap's running sum. */
  function Layers(ticks: seq<TickRow>): seq<Position>
    requires NonnegativeLevels(ticks)
    decreases |ticks|
  {
    if |ticks| <= 1 then [] else
      LowerLevels(ticks);
      var rest := Layers(ticks[..|ticks| - 1]);
      var level := LevelAt(ticks, |ticks| - 2);
      if level == 0 then rest else [Position(ticks[|ticks| - 2].tick, ticks[|ticks| - 1].tick, level)] + rest
  }

  lemma {:induction false} LowerLevels(ticks: seq<TickRow>)
    requires ticks != []
    ensures forall i :: 0 <= i < |ticks| - 1 ==> LevelAt(ticks[..|ticks| - 1], i) == LevelAt(ticks, i)
    ensures NonnegativeLevels(ticks) ==> NonnegativeLevels(ticks[..|ticks| - 1])
  {
    forall i | 0 <= i < |ticks| - 1 ensures LevelAt(ticks[..|ticks| - 1], i) == LevelAt(ticks, i) {
      assert ticks[..|ticks| - 1][..i + 1] == ticks[..i + 1];
    }
    if NonnegativeLevels(ticks) {
      var front := ticks[..|ticks| - 1];
      forall i | 0 <= i < |front| ensures LevelAt(front, i) >= 0 {
        assert LevelAt(front, i) == LevelAt(ticks, i);
      }
    }
  }

  lemma {:induction false} NoBoundaryAt(positions: seq<Position>, t: int)
    requires forall q :: q in positions ==> q.lower != t && q.upper != t
    ensures NetAt(positions, t) == 0
  {
    if positions != [] {
      assert positions[0] in positions;
      NoBoundaryAt(positions[1..], t);
    }
  }

  lemma {:induction false} LayersBounded(ticks: seq<TickRow>)
    requires Ascending(ticks) && NonnegativeLevels(ticks)
    ensures Proper(Layers(ticks))
    ensures forall q :: q in Layers(ticks) ==> q.lower in TickNumbers(ticks) && q.upper in TickNumbers(ticks)
    decreases |ticks|
  {
    if |ticks| > 1 {
      LowerLevels(ticks);
      var front := ticks[..|ticks| - 1];
      LayersBounded(front);
      assert TickNumbers(ticks) == TickNumbers(front) + [ticks[|ticks| - 1].tick];
      assert TickNumbers(front)[|ticks| - 2] == ticks[|ticks| - 2].tick;
    }
  }

  /** The layers cross, at every tick but the last, that tick's net liquidity; at the last, they end. */
  lemma {:induction false} LayersNet(ticks: seq<TickRow>, k: nat)
    requires Ascending(ticks) && NonnegativeLevels(ticks) && k < |ticks|
    ensures NetAt(Layers(ticks), ticks[k].tick)
         == ticks[k].net - if k == |ticks| - 1 then LevelAt(ticks, k) else 0
    decreases |ticks|
  {
    var n := |ticks|;
    assert ticks[..n] == ticks;
    assert NetSum(ticks) == NetSum(ticks[..n - 1]) + ticks[n - 1].net;
    if n > 1 {
      LowerLevels(ticks);
      var front := ticks[..n - 1];
      var rest := Layers(front);
      assert LevelAt(ticks, n - 2) == NetSum(front);
      if k < n - 1 {
        LayersNet(front, k);
        assert Layers(ticks) == rest || Layers(ticks)[1..] == rest;
      } else {
        LayersBounded(front);
        NoBoundaryAt(rest, ticks[k].tick);
        assert Layers(ticks) == rest || Layers(ticks)[1..] == rest;
      }
    }
  }

  /** Ascending ticks are those of some collection of positions if and only if they sum to zero and no
      running sum is negative: the first reconcile check together with the guard of the profile. */
  lemma {:induction false} PositionsExistIff(ticks: seq<TickRow>)
    requires Ascending(ticks)
    ensures (exists positions :: StoredFor(ticks, positions)) <==> NetSum(ticks) == 0 && NonnegativeLevels(ticks)
  {
    if positions :| StoredFor(ticks, positions) {
      NetSumZero(ticks, positions);
      LayeredLevels(ticks, positions);
    }
    if NetSum(ticks) == 0 && NonnegativeLevels(ticks) {
      LayersBounded(ticks);
      assert ticks[..|ticks|] == ticks;
      forall k | 0 <= k < |ticks| ensures ticks[k].net == NetAt(Layers(ticks), ticks[k].tick) {
        LayersNet(ticks, k);
      }
      assert StoredFor(ticks, Layers(ticks));
    }
  }

  lemma {:induction false} LevelIsCovering(ticks: seq<TickRow>, positions: seq<Position>, i: nat, p: int)
    requires StoredFor(ticks, positions) && i < |ticks|
    requires ticks[i].tick <= p && (i + 1 < |ticks| ==> p < ticks[i + 1].tick)
    ensures LevelAt(ticks, i) == Covering(positions, p)
  {
    forall j | 0 <= j < i + 1 ensures ticks[j].tick <= p {
      assert j < i ==> ticks[j].tick < ticks[i].tick;
    }
    forall j | i + 1 <= j < |ticks| ensures p < ticks[j].tick {
      assert i + 1 < j ==> ticks[i + 1].tick < ticks[j].tick;
    }
    SumIsCovering(ticks, positions, i + 1, p);
  }

  lemma {:induction false} PoolTicksStored(positions: seq<Position>)
    requires Proper(positions)
    ensures StoredFor(PoolTicks(positions), positions)
  {
    assert TickNumbers(PoolTicks(positions)) == SortedSet(Boundaries(positions));
  }

  /** Segments that tile the span from the first tick to the last. */
  ghost predicate TilesSpan(rows: seq<Segment>, ticks: seq<TickRow>) {
    && (|ticks| < 2 ==> rows == [])
    && (|ticks| >= 2 ==>
         rows != [] && rows[0].lower == ticks[0].tick && rows[|rows| - 1].upper == ticks[|ticks| - 1].tick)
    && (forall i :: 0 <= i < |rows| ==> rows[i].lower < rows[i].upper)
    && forall i, j :: 0 <= i && j == i + 1 < |rows| ==> rows[i].upper == rows[j].lower
  }

  lemma {:induction false} NeighboursTile(rows: seq<Segment>, ticks: seq<TickRow>)
    requires Ascending(ticks) && PerGap(rows, ticks)
    ensures TilesSpan(rows, ticks)
  {
  }

  lemma {:induction false} LayeredLevels(ticks: seq<TickRow>, positions: seq<Position>)
    requires StoredFor(ticks, positions)
    ensures NonnegativeLevels(ticks)
  {
    forall i | 0 <= i < |ticks| ensures LevelAt(ticks, i) >= 0 {
      LevelIsCovering(ticks, positions, i, ticks[i].tick);
    }
  }

  /** The profile of any collection of positions: it is always built, it tiles the span from the
      lowest boundary to the highest, and each segment carries, at each of its points, the liquidity
      of the positions that cover that point. */
  method ProfileOfPositions(ghost positions: seq<Position>, ticks: seq<TickRow>)
      returns (r: Result<seq<Segment>, ProfileError>)
    requires StoredFor(ticks, positions)
    ensures r.Ok? && TilesSpan(r.value, ticks)
    ensures forall i, p :: 0 <= i < |r.value| && r.value[i].lower <= p < r.value[i].upper ==>
              r.value[i].liquidity == Covering(positions, p)
  {
    LayeredLevels(ticks, positions);
    r := Segments(ticks);
    var rows := r.value;
    NeighboursTile(rows, ticks);
    forall i, p | 0 <= i < |rows| && rows[i].lower <= p < rows[i].upper
      ensures rows[i].liquidity == Covering(positions, p)
    {
      LevelIsCovering(ticks, positions, i, p);
    }
  }
}
