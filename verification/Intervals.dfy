/** The half-open block ranges of discovery and their coverage algebra. */
module Intervals {
  import opened Sorting

  datatype Range = Range(start: nat, end: nat) {
    predicate Has(b: int) {
      start <= b < end
    }

    function Size(): int {
      end - start
    }
  }

  /** A range object of the program is never empty. */
  type BlockRange = r: Range | r.start < r.end witness Range(0, 1)

  function Split(r: BlockRange): (halves: (BlockRange, BlockRange))
    requires r.Size() >= 2
    ensures halves.0.start == r.start && halves.0.end == halves.1.start && halves.1.end == r.end
    ensures 0 <= halves.1.Size() - halves.0.Size() <= 1
  {
    var middle := r.start + r.Size() / 2;
    (Range(r.start, middle), Range(middle, r.end))
  }

  ghost predicate Covered(rs: seq<BlockRange>, b: int) {
    exists i :: 0 <= i < |rs| && rs[i].Has(b)
  }

  /** In ascending order, with at least one uncovered block between neighbours. */
  ghost predicate Separated(rs: seq<BlockRange>) {
    forall i, j :: 0 <= i < j < |rs| ==> rs[i].end < rs[j].start
  }

  predicate RangeLe(r: BlockRange, s: BlockRange) {
    r.start < s.start || (r.start == s.start && r.end <= s.end)
  }

  lemma {:induction false} CoveredSameElements(rs: seq<BlockRange>, ss: seq<BlockRange>, b: int)
    requires forall r :: r in rs <==> r in ss
    ensures Covered(rs, b) <==> Covered(ss, b)
  {
    if Covered(rs, b) {
      var i :| 0 <= i < |rs| && rs[i].Has(b);
      assert rs[i] in ss;
    }
    if Covered(ss, b) {
      var i :| 0 <= i < |ss| && ss[i].Has(b);
      assert ss[i] in rs;
    }
  }

  ghost predicate SameBlocks(rs: seq<BlockRange>, ss: seq<BlockRange>) {
    forall b :: Covered(rs, b) <==> Covered(ss, b)
  }

  lemma {:induction false} SortedRanges(ranges: seq<BlockRange>)
    ensures SortedBy(Sort(ranges, RangeLe), RangeLe)
    ensures SameBlocks(Sort(ranges, RangeLe), ranges)
  {
    SortCorrect(ranges, RangeLe);
    forall b ensures Covered(Sort(ranges, RangeLe), b) <==> Covered(ranges, b) {
      CoveredSameElements(Sort(ranges, RangeLe), ranges, b);
    }
  }

  /** Widens the last run by a range that touches it, or starts a new run. */
  function MergeNext(merged: seq<BlockRange>, current: BlockRange): seq<BlockRange>
    requires merged != []
  {
    var last := |merged| - 1;
    var previous := merged[last];
    if current.start <= previous.end then
      var end := if previous.end < current.end then current.end else previous.end;
      merged[..last] + [Range(previous.start, end)]
    else
      merged + [current]
  }

  lemma {:induction false} MergeStep(merged: seq<BlockRange>, ordered: seq<BlockRange>, k: nat)
    requires merged != [] && Separated(merged) && k < |ordered|
    requires merged[|merged| - 1].start <= ordered[k].start
    requires SameBlocks(merged, ordered[..k])
    ensures Separated(MergeNext(merged, ordered[k]))
    ensures SameBlocks(MergeNext(merged, ordered[k]), ordered[..k + 1])
  {
    var last := |merged| - 1;
    var current := ordered[k];
    var next := MergeNext(merged, current);
    forall b ensures Covered(next, b) <==> Covered(ordered[..k + 1], b) {
      CoveredSplitLast(ordered[..k + 1], b);
      assert ordered[..k + 1][..k] == ordered[..k];
      CoveredSplitLast(merged, b);
      CoveredSplitLast(next, b);
      assert next[..|next| - 1] == if current.start <= merged[last].end then merged[..last] else merged;
    }
  }

  /** The union of the ranges, as the sorted list of its maximal runs. */
  method MergeCoverage(ranges: seq<BlockRange>) returns (merged: seq<BlockRange>)
    ensures SameBlocks(merged, ranges)
    ensures Separated(merged)
  {
    var ordered := Sort(ranges, RangeLe);
    SortedRanges(ranges);
    if ordered == [] {
      return [];
    }
    merged := [ordered[0]];
    var k := 1;
    while k < |ordered|
      invariant 1 <= k <= |ordered| && 0 < |merged|
      invariant Separated(merged)
      invariant merged[|merged| - 1].start <= ordered[k - 1].start
      invariant SameBlocks(merged, ordered[..k])
    {
      assert RangeLe(ordered[k - 1], ordered[k]);
      MergeStep(merged, ordered, k);
      merged := MergeNext(merged, ordered[k]);
      k := k + 1;
    }
    assert ordered[..k] == ordered;
  }

  lemma {:induction false} CoveredSplitLast(rs: seq<BlockRange>, b: int)
    requires rs != []
    ensures Covered(rs, b) <==> Covered(rs[..|rs| - 1], b) || rs[|rs| - 1].Has(b)
  {
    var front := rs[..|rs| - 1];
    if Covered(rs, b) {
      var i :| 0 <= i < |rs| && rs[i].Has(b);
      assert i < |front| ==> front[i].Has(b);
    }
    if Covered(front, b) {
      var i :| 0 <= i < |front| && front[i].Has(b);
      assert rs[i].Has(b);
    }
  }

  /** Separated lists are a normal form: the set of covered blocks determines the list, so merged
      coverage and gaps consist of maximal runs and do not depend on how the input was cut or ordered. */
  lemma {:induction false} SeparatedUnique(rs: seq<BlockRange>, ss: seq<BlockRange>)
    requires Separated(rs) && Separated(ss)
    requires forall b :: Covered(rs, b) <==> Covered(ss, b)
    ensures rs == ss
  {
    if rs == [] || ss == [] {
      if ss != [] {
        assert ss[0].Has(ss[0].start) && Covered(ss, ss[0].start);
      } else if rs != [] {
        assert rs[0].Has(rs[0].start) && Covered(rs, rs[0].start);
      }
    } else {
      FirstRunAtMost(rs, ss);
      FirstRunAtMost(ss, rs);
      assert rs[0] == ss[0];
      forall b ensures Covered(rs[1..], b) <==> Covered(ss[1..], b) {
        CoveredTail(rs, b);
        CoveredTail(ss, b);
      }
      SeparatedUnique(rs[1..], ss[1..]);
    }
  }

  lemma {:induction false} FirstRunAtMost(rs: seq<BlockRange>, ss: seq<BlockRange>)
    requires Separated(rs) && Separated(ss) && rs != [] && ss != []
    requires forall b :: Covered(rs, b) <==> Covered(ss, b)
    ensures ss[0].start <= rs[0].start
    ensures rs[0].start == ss[0].start ==> rs[0].end <= ss[0].end
  {
    assert rs[0].Has(rs[0].start) && Covered(rs, rs[0].start);
    var i :| 0 <= i < |ss| && ss[i].Has(rs[0].start);
    if rs[0].start == ss[0].start && ss[0].end < rs[0].end {
      assert rs[0].Has(ss[0].end) && Covered(rs, ss[0].end);
      var j :| 0 <= j < |ss| && ss[j].Has(ss[0].end);
    }
  }

  lemma {:induction false} CoveredTail(rs: seq<BlockRange>, b: int)
    requires Separated(rs) && rs != []
    ensures Covered(rs[1..], b) <==> Covered(rs, b) && !rs[0].Has(b)
  {
    if Covered(rs[1..], b) {
      var i :| 0 <= i < |rs[1..]| && rs[1..][i].Has(b);
      assert rs[i + 1].Has(b);
    }
    if Covered(rs, b) && !rs[0].Has(b) {
      var i :| 0 <= i < |rs| && rs[i].Has(b);
      assert rs[1..][i - 1].Has(b);
    }
  }

  /** Exactly the required blocks that no completed range holds, as maximal runs. */
  method CoverageGaps(required: BlockRange, completed: seq<BlockRange>) returns (gaps: seq<BlockRange>)
    ensures forall b :: Covered(gaps, b) <==> required.Has(b) && !Covered(completed, b)
    ensures Separated(gaps)
    ensures forall g :: g in gaps ==> required.start <= g.start && g.end <= required.end
  {
    gaps := [];
    var cursor := required.start;
    var merged := MergeCoverage(completed);
    var k := 0;
    while k < |merged|
      invariant 0 <= k <= |merged|
      invariant required.start <= cursor < required.end
      invariant forall i :: 0 <= i < k ==> merged[i].end <= cursor
      invariant cursor == required.start || forall i :: k <= i < |merged| ==> cursor <= merged[i].start
      invariant GapsUpTo(gaps, merged, required.start, cursor) && EndBefore(gaps, cursor)
    {
      var covered := merged[k];
      if covered.end <= required.start {
        k := k + 1;
        continue;
      }
      if covered.start >= required.end {
        break;
      }
      var clippedStart := if covered.start < required.start then required.start else covered.start;
      var clippedEnd := if covered.end < required.end then covered.end else required.end;
      GapStep(gaps, merged, required.start, cursor, k, clippedStart, clippedEnd);
      if clippedStart > cursor {
        gaps := gaps + [Range(cursor, clippedStart)];
      }
      cursor := if cursor < clippedEnd then clippedEnd else cursor;
      if cursor >= required.end {
        return;
      }
      k := k + 1;
    }
    forall b | cursor <= b < required.end ensures !Covered(merged, b) {
      UncoveredBetween(merged, k, cursor, required.end, b);
    }
    GapsExtend(gaps, merged, required.start, cursor, required.end);
    gaps := gaps + [Range(cursor, required.end)];
  }

  /** Nothing is covered between the ranges before index `k` and the ranges from it on. */
  lemma {:induction false} UncoveredBetween(merged: seq<BlockRange>, k: nat, lo: int, hi: int, b: int)
    requires k <= |merged| && Separated(merged) && lo <= b < hi
    requires forall i :: 0 <= i < k ==> merged[i].end <= lo
    requires k < |merged| ==> hi <= merged[k].start
    ensures !Covered(merged, b)
  {
  }

  /** One covered range closes the gap before it, if there is one. */
  lemma {:induction false} GapStep(gaps: seq<BlockRange>, merged: seq<BlockRange>, lo: nat, cursor: nat, k: nat,
      from: nat, to: nat)
    requires Separated(merged) && k < |merged| && lo <= cursor <= from < to
    requires GapsUpTo(gaps, merged, lo, cursor) && EndBefore(gaps, cursor)
    requires forall i :: 0 <= i < k ==> merged[i].end <= cursor
    requires merged[k].start <= from && to <= merged[k].end && (cursor < from ==> merged[k].start == from)
    ensures var closed := if cursor < from then gaps + [Range(cursor, from)] else gaps;
            GapsUpTo(closed, merged, lo, to) && EndBefore(closed, to)
  {
    forall b | from <= b < to ensures Covered(merged, b) {
      assert merged[k].Has(b);
    }
    var closed := gaps;
    if cursor < from {
      forall b | cursor <= b < from ensures !Covered(merged, b) {
        UncoveredBetween(merged, k, cursor, from, b);
      }
      GapsExtend(gaps, merged, lo, cursor, from);
      closed := gaps + [Range(cursor, from)];
    }
    GapsSkip(closed, merged, lo, from, to);
  }

  ghost predicate EndBefore(gaps: seq<BlockRange>, b: int) {
    forall g :: g in gaps ==> g.end < b
  }

  /** The gaps found so far are right for every block in [lo, hi). */
  ghost predicate GapsUpTo(gaps: seq<BlockRange>, merged: seq<BlockRange>, lo: int, hi: int) {
    && Separated(gaps)
    && (forall g :: g in gaps ==> lo <= g.start && g.end <= hi)
    && (forall b :: Covered(gaps, b) <==> lo <= b < hi && !Covered(merged, b))
  }

  lemma {:induction false} GapsExtend(gaps: seq<BlockRange>, merged: seq<BlockRange>, lo: nat, mid: nat, hi: nat)
    requires GapsUpTo(gaps, merged, lo, mid) && EndBefore(gaps, mid) && lo <= mid < hi
    requires forall b :: mid <= b < hi ==> !Covered(merged, b)
    ensures GapsUpTo(gaps + [Range(mid, hi)], merged, lo, hi)
  {
    var more := gaps + [Range(mid, hi)];
    forall b ensures Covered(more, b) <==> lo <= b < hi && !Covered(merged, b) {
      CoveredSplitLast(more, b);
      assert more[..|more| - 1] == gaps;
    }
  }

  lemma {:induction false} GapsSkip(gaps: seq<BlockRange>, merged: seq<BlockRange>, lo: nat, mid: nat, hi: nat)
    requires GapsUpTo(gaps, merged, lo, mid) && lo <= mid < hi
    requires forall b :: mid <= b < hi ==> Covered(merged, b)
    ensures GapsUpTo(gaps, merged, lo, hi)
  {
  }

  /** The least block from `coverageStart` on that no range holds. */
  method ContiguousFrontier(coverageStart: nat, ranges: seq<BlockRange>) returns (frontier: nat)
    ensures coverageStart <= frontier && !Covered(ranges, frontier)
    ensures forall b :: coverageStart <= b < frontier ==> Covered(ranges, b)
  {
    frontier := coverageStart;
    var merged := MergeCoverage(ranges);
    var k := 0;
    while k < |merged|
      invariant 0 <= k <= |merged| && coverageStart <= frontier
      invariant forall b :: coverageStart <= b < frontier ==> Covered(merged, b)
      invariant forall i :: 0 <= i < k ==> merged[i].end <= frontier
    {
      var r := merged[k];
      if r.end <= frontier {
        k := k + 1;
        continue;
      }
      if r.start > frontier {
        break;
      }
      forall b | frontier <= b < r.end ensures Covered(merged, b) {
        assert r.Has(b);
      }
      frontier := r.end;
      k := k + 1;
    }
    UncoveredBetween(merged, k, frontier, frontier + 1, frontier);
  }

  /** The frontier and the gap list are two views of one fact: the frontier clears the required range
      exactly when there is no gap, and otherwise it stands on the first gap. */
  lemma {:induction false} FrontierMeetsGaps(required: BlockRange, completed: seq<BlockRange>, gaps: seq<BlockRange>,
      frontier: nat)
    requires required.start <= frontier && !Covered(completed, frontier)
    requires forall b :: required.start <= b < frontier ==> Covered(completed, b)
    requires Separated(gaps) && forall b :: Covered(gaps, b) <==> required.Has(b) && !Covered(completed, b)
    ensures frontier >= required.end <==> gaps == []
    ensures gaps != [] ==> frontier == gaps[0].start
  {
    if gaps != [] {
      var g := gaps[0];
      assert g.Has(g.start) && Covered(gaps, g.start);
      assert required.Has(g.start);
      if frontier < required.end {
        assert Covered(gaps, frontier);
        var i :| 0 <= i < |gaps| && gaps[i].Has(frontier);
      }
    } else {
      assert frontier < required.end ==> Covered(gaps, frontier);
    }
  }

  /** Consecutive ranges from `lo` to `hi` without overlap or gap. */
  ghost predicate Tiles(rs: seq<BlockRange>, lo: int, hi: int) {
    if rs == [] then lo == hi else rs[0].start == lo && Tiles(rs[1..], rs[0].end, hi)
  }

  lemma {:induction false} TilesAppend(rs: seq<BlockRange>, lo: int, r: BlockRange)
    requires Tiles(rs, lo, r.start)
    ensures Tiles(rs + [r], lo, r.end)
  {
    if rs == [] {
      assert rs + [r] == [r] && [r][1..] == [];
    } else {
      TilesAppend(rs[1..], rs[0].end, r);
      assert (rs + [r])[1..] == rs[1..] + [r];
    }
  }

  lemma {:induction false} TilesConcat(rs: seq<BlockRange>, ss: seq<BlockRange>, lo: int, mid: int, hi: int)
    requires Tiles(rs, lo, mid) && Tiles(ss, mid, hi)
    ensures Tiles(rs + ss, lo, hi)
  {
    if rs == [] {
      assert rs + ss == ss;
    } else {
      TilesConcat(rs[1..], ss, rs[0].end, mid, hi);
      assert (rs + ss)[1..] == rs[1..] + ss;
    }
  }

  /** A tiling covers each block of [lo, hi) by exactly one range, and nothing else. */
  lemma {:induction false} TilesPartition(rs: seq<BlockRange>, lo: int, hi: int)
    requires Tiles(rs, lo, hi)
    ensures lo <= hi
    ensures forall b :: Covered(rs, b) <==> lo <= b < hi
    ensures forall i, j :: 0 <= i < j < |rs| ==> rs[i].end <= rs[j].start
    ensures forall i :: 0 <= i < |rs| ==> lo <= rs[i].start && rs[i].end <= hi
  {
    if rs != [] {
      var rest := rs[1..];
      TilesPartition(rest, rs[0].end, hi);
      assert rs == [rs[0]] + rest;
      forall b ensures Covered(rs, b) <==> lo <= b < hi {
        if Covered(rs, b) {
          var i :| 0 <= i < |rs| && rs[i].Has(b);
          assert i > 0 ==> rest[i - 1].Has(b);
        }
        if lo <= b < hi {
          if b < rs[0].end {
            assert rs[0].Has(b);
          } else {
            assert Covered(rest, b);
            var i :| 0 <= i < |rest| && rest[i].Has(b);
            assert rs[i + 1].Has(b);
          }
        }
      }
      forall i, j | 0 <= i < j < |rs| ensures rs[i].end <= rs[j].start {
        assert rs[j] == rest[j - 1];
        assert i > 0 ==> rs[i] == rest[i - 1];
      }
      forall i | 0 <= i < |rs| ensures lo <= rs[i].start && rs[i].end <= hi {
        assert i > 0 ==> rs[i] == rest[i - 1];
      }
    }
  }
}
