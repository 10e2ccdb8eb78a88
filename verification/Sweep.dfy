/** Wallet sweeps: every log that carries a wallet in a topic position, in resumable windows. */
module Sweep {
  import opened Wrappers
  import opened Sorting
  import opened SortedSets
  import opened Intervals
  import opened Logs
  import opened Scanner
  import D = Discovery

  datatype SweepRow = SweepRow(wallet: Address, position: nat, range: BlockRange, completed: bool)

  datatype LogRow = LogRow(wallet: Address, position: nat, log: Log)

  datatype SweepError = EmptyUniverse | EmptyRange | ScanFailed(cause: ScanError) | ForeignTopic | StoreFailed

  datatype Config = Config(startBlock: nat, positions: seq<nat>, checkpointBlocks: nat)

  /** The wallets that miss exactly these blocks. */
  datatype Group = Group(gaps: seq<BlockRange>, wallets: seq<Address>)

  /** One scan that was started. */
  datatype Scanned = Scanned(position: nat, wallets: seq<Address>, window: BlockRange)

  /** What scanning changes: the log of scans, the counts of requests and store calls, and the markers. */
  datatype Footprint = Footprint(sent: seq<Scanned>, requests: nat, calls: nat, ranges: seq<SweepRow>)

  // ---- what the tables say about the chain ---------------------------------------------------------

  ghost predicate Carries(l: Log, position: nat, wallet: Address) {
    position < |l.topics| && l.topics[position] == wallet
  }

  ghost predicate Claims(row: SweepRow, wallet: Address, position: nat, b: int) {
    row.completed && row.wallet == wallet && row.position == position && row.range.Has(b)
  }

  ghost predicate CoveredBy(ranges: seq<SweepRow>, wallet: Address, position: nat, b: int) {
    exists row :: row in ranges && Claims(row, wallet, position, b)
  }

  /** Every log row is a log of the chain that carries its wallet. */
  ghost predicate SoundLogs(chain: Chain, logs: seq<LogRow>) {
    forall row :: row in logs ==> row.log in chain(row.log.block) && Carries(row.log, row.position, row.wallet)
  }

  /** Every block under a completed marker has all its logs of that wallet stored. */
  ghost predicate Justified(chain: Chain, ranges: seq<SweepRow>, logs: seq<LogRow>) {
    forall row, b: nat, l ::
      row in ranges && Claims(row, row.wallet, row.position, b) && l in chain(b)
      && Carries(l, row.position, row.wallet) ==>
        LogRow(row.wallet, row.position, l) in logs
  }

  ghost predicate Invariant(chain: Chain, ranges: seq<SweepRow>, logs: seq<LogRow>) {
    SoundLogs(chain, logs) && Justified(chain, ranges, logs)
  }

  /** A well-formed chain, and complete answers below the cap for every filter. */
  ghost predicate Trusted(rpc: D.Rpc, cap: nat, chain: Chain) {
    WellFormedChain(chain) && forall filter :: Honest(D.Fixed(rpc, filter, 0), chain, filter, cap)
  }

  /** Besides, every single block is served. */
  ghost predicate Served(rpc: D.Rpc, cap: nat, chain: Chain) {
    Trusted(rpc, cap, chain) && forall filter :: ServesSingleBlocks(D.Fixed(rpc, filter, 0), cap)
  }

  // ---- windows -------------------------------------------------------------------------------------

  /** Ascending windows of at most `size` blocks that tile the range. */
  method ScanWindows(range: BlockRange, size: nat) returns (windows: seq<BlockRange>)
    requires size >= 1
    ensures Tiles(windows, range.start, range.end)
    ensures forall w :: w in windows ==> w.Size() <= size
  {
    windows := [];
    var cursor := range.start;
    while cursor < range.end
      invariant range.start <= cursor <= range.end
      invariant Tiles(windows, range.start, cursor)
      invariant forall w :: w in windows ==> w.Size() <= size
    {
      var end := if cursor + size < range.end then cursor + size else range.end;
      var window: BlockRange := Range(cursor, end);
      TilesAppend(windows, range.start, window);
      windows := windows + [window];
      cursor := end;
    }
  }

  /** In ascending order, without overlap. */
  ghost predicate Ordered(windows: seq<BlockRange>) {
    forall i, j :: 0 <= i < j < |windows| ==> windows[i].end <= windows[j].start
  }

  lemma {:induction false} CoveredConcat(a: seq<BlockRange>, b: seq<BlockRange>, x: int)
    ensures Covered(a + b, x) <==> Covered(a, x) || Covered(b, x)
  {
    if Covered(a, x) {
      var i :| 0 <= i < |a| && a[i].Has(x);
      assert (a + b)[i].Has(x);
    }
    if Covered(b, x) {
      var i :| 0 <= i < |b| && b[i].Has(x);
      assert (a + b)[|a| + i].Has(x);
    }
    if Covered(a + b, x) {
      var i :| 0 <= i < |a + b| && (a + b)[i].Has(x);
      assert i < |a| ==> a[i].Has(x);
      assert i >= |a| ==> b[i - |a|].Has(x);
    }
  }

  /** The windows of all the gaps: the same blocks, in order, none twice. */
  method GapWindows(gaps: seq<BlockRange>, size: nat) returns (windows: seq<BlockRange>)
    requires size >= 1 && Separated(gaps)
    ensures Ordered(windows) && SameBlocks(windows, gaps)
  {
    windows := [];
    for g := 0 to |gaps|
      invariant Ordered(windows) && SameBlocks(windows, gaps[..g])
      invariant forall i :: 0 <= i < |windows| && g < |gaps| ==> windows[i].end <= gaps[g].start
    {
      var more := ScanWindows(gaps[g], size);
      TilesPartition(more, gaps[g].start, gaps[g].end);
      var before := windows;
      windows := windows + more;
      forall b ensures Covered(windows, b) <==> Covered(gaps[..g + 1], b) {
        CoveredConcat(before, more, b);
        assert gaps[..g + 1] == gaps[..g] + [gaps[g]];
        CoveredConcat(gaps[..g], [gaps[g]], b);
        assert Covered([gaps[g]], b) <==> gaps[g].Has(b);
      }
    }
    assert gaps[..|gaps|] == gaps;
  }

  // ---- one scanned window --------------------------------------------------------------------------

  function WalletFilter(position: nat, wallets: seq<Address>): LogFilter {
    LogFilter(None, seq(position, i => None) + [Some(wallets)])
  }

  lemma {:induction false} FilterMatches(position: nat, wallets: seq<Address>, l: Log)
    ensures WalletFilter(position, wallets).Matches(l) <==> exists w: Address :: w in wallets && Carries(l, position, w)
  {
    var f := WalletFilter(position, wallets);
    assert f.topics[position] == Some(wallets);
    if f.Matches(l) {
      var k :| 0 <= k < |wallets| && wallets[k] == l.topics[position];
      var w: Address := wallets[k];
      assert w in wallets && Carries(l, position, w);
    }
    if w: Address :| w in wallets && Carries(l, position, w) {
      var k :| 0 <= k < |wallets| && wallets[k] == w;
      assert f.topics[position].value[k] == l.topics[position];
    }
  }

  ghost predicate MarksWindow(row: SweepRow, wallets: seq<Address>, position: nat, window: BlockRange) {
    row.completed && row.wallet in wallets && row.position == position && window.start <= row.range.start &&
    row.range.end <= window.end
  }

  ghost predicate RowsCover(rows: seq<SweepRow>, wallets: seq<Address>, position: nat, window: BlockRange) {
    forall w: Address, b :: w in wallets && window.Has(b) ==> CoveredBy(rows, w, position, b)
  }

  /** Rows for different wallets, at different positions, or without a common block. */
  ghost predicate Apart(a: SweepRow, b: SweepRow) {
    a.wallet == b.wallet && a.position == b.position ==> a.range.end <= b.range.start || b.range.end <= a.range.start
  }

  /** No two of the rows from this index on claim the same block for a wallet and position. */
  ghost predicate AllApart(rows: seq<SweepRow>, from: nat) {
    forall k, l :: from <= k < l < |rows| ==> Apart(rows[k], rows[l])
  }

  /** The rows so far mark earlier ranges, or the same one for other wallets. */
  ghost predicate Before(rows: seq<SweepRow>, range: BlockRange, wallets: seq<Address>) {
    forall q :: 0 <= q < |rows| ==> rows[q].range.end <= range.start || rows[q].wallet in wallets
  }

  /** A completed marker per completed range and wallet. */
  method RangeRows(wallets: seq<Address>, position: nat, window: BlockRange, completed: seq<CompletedRange>)
      returns (rows: seq<SweepRow>)
    requires Tiles(Ranges(completed), window.start, window.end)
    ensures forall row :: row in rows ==> MarksWindow(row, wallets, position, window)
    ensures RowsCover(rows, wallets, position, window)
    ensures Distinct(wallets) ==> AllApart(rows, 0)
  {
    rows := [];
    ghost var ranges := Ranges(completed);
    TilesPartition(ranges, window.start, window.end);
    for c := 0 to |completed|
      invariant forall row :: row in rows ==> MarksWindow(row, wallets, position, window)
      invariant forall i, w: Address :: 0 <= i < c && w in wallets ==>
                  SweepRow(w, position, completed[i].range, true) in rows
      invariant c < |completed| ==> Before(rows, ranges[c], [])
      invariant Distinct(wallets) ==> AllApart(rows, 0)
    {
      assert ranges[c] == completed[c].range;
      for k := 0 to |wallets|
        invariant forall row :: row in rows ==> MarksWindow(row, wallets, position, window)
        invariant forall i, w: Address :: 0 <= i < c && w in wallets ==>
                    SweepRow(w, position, completed[i].range, true) in rows
        invariant forall j :: 0 <= j < k ==> SweepRow(wallets[j], position, completed[c].range, true) in rows
        invariant Before(rows, ranges[c], wallets[..k])
        invariant forall q :: 0 <= q < |rows| ==> rows[q].range.end <= ranges[c].end
        invariant Distinct(wallets) ==> AllApart(rows, 0)
      {
        assert wallets[..k + 1] == wallets[..k] + [wallets[k]];
        rows := rows + [SweepRow(wallets[k], position, completed[c].range, true)];
      }
    }
    forall w: Address, b | w in wallets && window.Has(b) ensures CoveredBy(rows, w, position, b) {
      assert Covered(ranges, b);
      var i :| 0 <= i < |ranges| && ranges[i].Has(b);
      var row := SweepRow(w, position, completed[i].range, true);
      assert row in rows && Claims(row, w, position, b);
    }
  }

  /** A row per log, under the wallet that it carries; a log that carries none is refused. */
  method LogRows(wallets: seq<Address>, position: nat, logs: seq<Log>) returns (r: Option<seq<LogRow>>)
    requires forall l :: l in logs ==> WalletFilter(position, wallets).Matches(l)
    ensures r.Some?
    ensures forall row :: row in r.value ==>
              row.log in logs && row.position == position && Carries(row.log, position, row.wallet)
    ensures forall l, w: Address :: l in logs && Carries(l, position, w) ==> LogRow(w, position, l) in r.value
  {
    var rows: seq<LogRow> := [];
    for k := 0 to |logs|
      invariant forall row :: row in rows ==>
                  row.log in logs && row.position == position && Carries(row.log, position, row.wallet)
      invariant forall j, w: Address :: 0 <= j < k && Carries(logs[j], position, w) ==>
                  LogRow(w, position, logs[j]) in rows
    {
      var l := logs[k];
      assert l in logs;
      FilterMatches(position, wallets, l);
      var word := l.topics[position];
      if word !in wallets {
        return None;
      }
      rows := rows + [LogRow(word, position, l)];
    }
    return Some(rows);
  }

  lemma {:induction false} CoveredByMono(ranges: seq<SweepRow>, more: seq<SweepRow>, wallet: Address, position: nat,
      b: int)
    requires CoveredBy(ranges, wallet, position, b) && ranges <= more
    ensures CoveredBy(more, wallet, position, b)
  {
    var row :| row in ranges && Claims(row, wallet, position, b);
    var i :| 0 <= i < |ranges| && ranges[i] == row;
    assert more[i] == row;
  }

  lemma {:induction false} AppendLogs(chain: Chain, ranges: seq<SweepRow>, logs: seq<LogRow>, rows: seq<LogRow>)
    requires Invariant(chain, ranges, logs) && SoundLogs(chain, rows)
    ensures Invariant(chain, ranges, logs + rows)
  {
  }

  lemma {:induction false} AppendRanges(chain: Chain, ranges: seq<SweepRow>, logs: seq<LogRow>, rows: seq<SweepRow>)
    requires Invariant(chain, ranges, logs) && Justified(chain, rows, logs)
    ensures Invariant(chain, ranges + rows, logs)
  {
  }

  /** Once the logs of a window are stored, its markers are justified. */
  lemma {:induction false} WindowJustified(chain: Chain, wallets: seq<Address>, position: nat, window: BlockRange,
      found: seq<Log>, stored: seq<LogRow>, rows: seq<SweepRow>)
    requires WellFormedChain(chain)
    requires ExactLogs(found, chain, WalletFilter(position, wallets), window.start, window.end)
    requires forall l, w: Address :: l in found && Carries(l, position, w) ==> LogRow(w, position, l) in stored
    requires forall row :: row in rows ==> MarksWindow(row, wallets, position, window)
    ensures Justified(chain, rows, stored)
  {
    forall row, b: nat, l | row in rows && Claims(row, row.wallet, row.position, b) && l in chain(b) &&
    Carries(l, row.position, row.wallet)
      ensures LogRow(row.wallet, row.position, l) in stored
    {
      assert MarksWindow(row, wallets, position, window);
      FilterMatches(position, wallets, l);
      assert OnChain(chain, WalletFilter(position, wallets), window.start, window.end, l);
    }
  }

  // ---- reading the markers back --------------------------------------------------------------------

  function CompletedFor(ranges: seq<SweepRow>, wallet: Address, position: nat): (rs: seq<BlockRange>)
    ensures forall b :: Covered(rs, b) <==> CoveredBy(ranges, wallet, position, b)
  {
    if ranges == [] then []
    else
      var last := ranges[|ranges| - 1];
      var front := CompletedFor(ranges[..|ranges| - 1], wallet, position);
      var rs := if last.completed && last.wallet == wallet && last.position == position then front +
          [last.range] else front;
      assert forall b :: Covered(rs, b) <==> CoveredBy(ranges, wallet, position, b) by {
        forall b ensures Covered(rs, b) <==> CoveredBy(ranges, wallet, position, b) {
          CoveredBySplit(ranges, wallet, position, b);
          if rs != front {
            CoveredSplitLast(rs, b);
            assert rs[..|rs| - 1] == front;
          }
        }
      }
      rs
  }

  lemma {:induction false} CoveredBySplit(ranges: seq<SweepRow>, wallet: Address, position: nat, b: int)
    requires ranges != []
    ensures CoveredBy(ranges, wallet, position, b) <==>
            CoveredBy(ranges[..|ranges| - 1], wallet, position, b) || Claims(ranges[|ranges| - 1], wallet, position, b)
  {
    assert ranges == ranges[..|ranges| - 1] + [ranges[|ranges| - 1]];
  }

  // ---- grouping wallets by what they miss ------------------------------------------------------------

  /** Each group's gaps are what each of its wallets misses; no wallet is in two groups, and no two groups
      have the same gaps; the wallets in no group miss nothing. */
  ghost predicate Grouped(groups: seq<Group>, wallets: seq<Address>, required: BlockRange, ranges: seq<SweepRow>,
      position: nat)
  {
    && (forall g :: 0 <= g < |groups| ==> WellShaped(groups[g], required, ranges, position))
    && Separate(groups, wallets)
    && (forall w: Address :: w in wallets ==> Placed(groups, w) || UpToDate(w, required, ranges, position))
  }

  /** The gaps are not empty and are what each of the wallets misses. */
  ghost predicate WellShaped(g: Group, required: BlockRange, ranges: seq<SweepRow>, position: nat) {
    Separated(g.gaps) && g.gaps != [] && Misses(g, required, ranges, position) && Distinct(g.wallets)
  }

  /** No wallet is in two groups, and no two groups have the same gaps. */
  ghost predicate Separate(groups: seq<Group>, wallets: seq<Address>) {
    && (forall g, w: Address :: 0 <= g < |groups| && w in groups[g].wallets ==> w in wallets)
    && (forall g, h, w: Address :: 0 <= g < h < |groups| && w in groups[g].wallets ==> w !in groups[h].wallets)
    && (forall g, h :: 0 <= g < h < |groups| ==> groups[g].gaps != groups[h].gaps)
  }

  ghost predicate Misses(g: Group, required: BlockRange, ranges: seq<SweepRow>, position: nat) {
    forall w: Address, b :: w in g.wallets ==>
        (Covered(g.gaps, b) <==> required.Has(b) && !CoveredBy(ranges, w, position, b))
  }

  ghost predicate Placed(groups: seq<Group>, w: Address) {
    exists g :: 0 <= g < |groups| && w in groups[g].wallets
  }

  ghost predicate UpToDate(w: Address, required: BlockRange, ranges: seq<SweepRow>, position: nat) {
    forall b :: required.Has(b) ==> CoveredBy(ranges, w, position, b)
  }

  /** Adds a wallet to the group with its gaps, or to a new one. */
  method AddToGroup(groups: seq<Group>, gaps: seq<BlockRange>, wallet: Address, ghost done: seq<Address>,
      ghost required: BlockRange, ghost ranges: seq<SweepRow>, ghost position: nat)
      returns (next: seq<Group>)
    requires Grouped(groups, done, required, ranges, position) && wallet !in done
    requires Separated(gaps) && forall b :: Covered(gaps, b) <==>
               required.Has(b) && !CoveredBy(ranges, wallet, position, b)
    ensures Grouped(next, done + [wallet], required, ranges, position)
  {
    if gaps == [] {
      forall b | required.Has(b) ensures CoveredBy(ranges, wallet, position, b) {
        assert !Covered(gaps, b);
      }
      assert UpToDate(wallet, required, ranges, position);
      next := groups;
      return;
    }
    var g := 0;
    while g < |groups| && groups[g].gaps != gaps
      invariant 0 <= g <= |groups| && forall h :: 0 <= h < g ==> groups[h].gaps != gaps
    {
      g := g + 1;
    }
    if g == |groups| {
      next := groups + [Group(gaps, [wallet])];
    } else {
      next := groups[g := Group(gaps, groups[g].wallets + [wallet])];
    }
    Regrouped(groups, next, g, gaps, wallet, done, required, ranges, position);
  }

  /** One more wallet in the group with its gaps, or in a new one. */
  lemma {:induction false} Regrouped(groups: seq<Group>, next: seq<Group>, g: nat, gaps: seq<BlockRange>,
      wallet: Address, done: seq<Address>, required: BlockRange, ranges: seq<SweepRow>, position: nat)
    requires Grouped(groups, done, required, ranges, position) && wallet !in done && g <= |groups|
    requires Separated(gaps) && gaps != [] && forall b :: Covered(gaps, b) <==>
               required.Has(b) && !CoveredBy(ranges, wallet, position, b)
    requires if g < |groups| then groups[g].gaps == gaps else forall h :: 0 <= h < |groups| ==> groups[h].gaps != gaps
    requires next == if g < |groups| then groups[g := Group(gaps, groups[g].wallets + [wallet])]
                     else groups + [Group(gaps, [wallet])]
    ensures Grouped(next, done + [wallet], required, ranges, position)
  {
    if g < |groups| {
      assert WellShaped(groups[g], required, ranges, position) && wallet !in groups[g].wallets;
    }
    assert WellShaped(next[g], required, ranges, position);
    StillSeparate(groups, next, g, gaps, wallet, done);
    PlacedStill(groups, next, done, wallet, g);
  }

  lemma {:induction false} StillSeparate(groups: seq<Group>, next: seq<Group>, g: nat, gaps: seq<BlockRange>,
      wallet: Address, done: seq<Address>)
    requires Separate(groups, done) && wallet !in done && g <= |groups|
    requires if g < |groups| then groups[g].gaps == gaps else forall h :: 0 <= h < |groups| ==> groups[h].gaps != gaps
    requires next == if g < |groups| then groups[g := Group(gaps, groups[g].wallets + [wallet])]
                     else groups + [Group(gaps, [wallet])]
    ensures Separate(next, done + [wallet])
  {
    forall h, w: Address | 0 <= h < |next| && w in next[h].wallets
      ensures w in done + [wallet] && (w == wallet ==> h == g)
    {
      assert h < |groups| && h != g ==> next[h] == groups[h];
    }
    forall h, k, w: Address | 0 <= h < k < |next| && w in next[h].wallets ensures w !in next[k].wallets {
      assert h < |groups| && (w != wallet ==> w in groups[h].wallets);
      assert k < |groups| && w in next[k].wallets ==> w == wallet || w in groups[k].wallets;
    }
  }

  lemma {:induction false} PlacedStill(groups: seq<Group>, next: seq<Group>, done: seq<Address>, wallet: Address,
      g: nat)
    requires g < |next| && |groups| <= |next| && wallet in next[g].wallets
    requires forall h, w: Address :: 0 <= h < |groups| && w in groups[h].wallets ==> w in next[h].wallets
    ensures forall w: Address :: Placed(groups, w) ==> Placed(next, w)
    ensures Placed(next, wallet)
  {
    forall w: Address | Placed(groups, w) ensures Placed(next, w) {
      var h :| 0 <= h < |groups| && w in groups[h].wallets;
      assert w in next[h].wallets;
    }
  }

  // ---- the trace of a run ----------------------------------------------------------------------------

  /** Only rows of this position were added. */
  ghost predicate GrowsAt(before: seq<SweepRow>, after: seq<SweepRow>, position: nat) {
    before <= after && forall k :: |before| <= k < |after| ==> after[k].position == position
  }

  lemma {:induction false} OtherPositions(before: seq<SweepRow>, after: seq<SweepRow>, position: nat, w: Address,
      other: nat, b: int)
    requires GrowsAt(before, after, position) && other != position
    ensures CoveredBy(after, w, other, b) <==> CoveredBy(before, w, other, b)
  {
    if CoveredBy(before, w, other, b) {
      CoveredByMono(before, after, w, other, b);
    }
    if CoveredBy(after, w, other, b) {
      var row :| row in after && Claims(row, w, other, b);
      var k :| 0 <= k < |after| && after[k] == row;
      assert before[k] == row;
    }
  }

  /** The row was written for this scan. */
  ghost predicate Within(row: SweepRow, s: Scanned) {
    && row.position == s.position && row.wallet in s.wallets
    && s.window.start <= row.range.start && row.range.end <= s.window.end
  }

  ghost predicate Explained(row: SweepRow, trace: seq<Scanned>) {
    exists i :: 0 <= i < |trace| && Within(row, trace[i])
  }

  /** Every added row was written for one of these scans. */
  ghost predicate Writes(before: seq<SweepRow>, after: seq<SweepRow>, trace: seq<Scanned>) {
    before <= after && forall k :: |before| <= k < |after| ==> Explained(after[k], trace)
  }

  /** The rows of one scan. */
  lemma {:induction false} RowsWritten(before: seq<SweepRow>, rows: seq<SweepRow>, s: Scanned)
    requires forall row :: row in rows ==> Within(row, s)
    ensures Writes(before, before + rows, [s]) && Writes(before, before, [s])
    ensures AllApart(rows, 0) ==> AllApart(before + rows, |before|)
    ensures AllApart(before, |before|)
  {
    forall k | |before| <= k < |before + rows| ensures Explained((before + rows)[k], [s]) {
      assert (before + rows)[k] in rows && Within((before + rows)[k], [s][0]);
    }
    if AllApart(rows, 0) {
      forall k, l | |before| <= k < l < |before + rows| ensures Apart((before + rows)[k], (before + rows)[l]) {
        assert Apart(rows[k - |before|], rows[l - |before|]);
      }
    }
  }

  lemma {:induction false} ExplainedMore(row: SweepRow, trace: seq<Scanned>, part: seq<Scanned>)
    requires Explained(row, trace) || Explained(row, part)
    ensures Explained(row, trace + part)
  {
    if Explained(row, trace) {
      var i :| 0 <= i < |trace| && Within(row, trace[i]);
      assert Within(row, (trace + part)[i]);
    } else {
      var i :| 0 <= i < |part| && Within(row, part[i]);
      assert Within(row, (trace + part)[|trace| + i]);
    }
  }

  /** Rows of scans that touch nothing in common are apart. */
  lemma {:induction false} ScansApart(a: SweepRow, b: SweepRow, trace: seq<Scanned>, part: seq<Scanned>)
    requires NoneTwice(trace + part) && Explained(a, trace) && Explained(b, part)
    ensures Apart(a, b)
  {
    var i :| 0 <= i < |trace| && Within(a, trace[i]);
    var j :| 0 <= j < |part| && Within(b, part[j]);
    if !Apart(a, b) {
      var x := if a.range.start >= b.range.start then a.range.start else b.range.start;
      assert Touches((trace + part)[i], a.wallet, a.position, x);
      assert Touches((trace + part)[|trace| + j], a.wallet, a.position, x);
    }
  }

  /** What two consecutive parts of a run write. */
  lemma {:induction false} WritesJoin(before: seq<SweepRow>, mid: seq<SweepRow>, after: seq<SweepRow>,
      trace: seq<Scanned>, part: seq<Scanned>)
    requires Writes(before, mid, trace) && Writes(mid, after, part)
    ensures Writes(before, after, trace + part)
    ensures NoneTwice(trace + part) && AllApart(mid, |before|) && AllApart(after, |mid|) ==> AllApart(after, |before|)
  {
    forall k | |before| <= k < |after| ensures Explained(after[k], trace + part) {
      assert k < |mid| ==> after[k] == mid[k];
      ExplainedMore(after[k], trace, part);
    }
    if NoneTwice(trace + part) && AllApart(mid, |before|) && AllApart(after, |mid|) {
      forall k, l | |before| <= k < l < |after| ensures Apart(after[k], after[l]) {
        if l < |mid| {
          assert after[k] == mid[k] && after[l] == mid[l];
        } else if k < |mid| {
          assert after[k] == mid[k];
          ScansApart(after[k], after[l], trace, part);
        }
      }
    }
  }

  /** How many requests these scans may take: fewer than two per block of each. */
  function Allowance(trace: seq<Scanned>): int {
    if trace == [] then 0 else Allowance(trace[..|trace| - 1]) + 2 * trace[|trace| - 1].window.Size()
  }

  lemma {:induction false} AllowanceConcat(a: seq<Scanned>, b: seq<Scanned>)
    ensures Allowance(a + b) == Allowance(a) + Allowance(b)
  {
    if b == [] {
      assert a + b == a;
    } else {
      AllowanceConcat(a, b[..|b| - 1]);
      assert (a + b)[..|a + b| - 1] == a + b[..|b| - 1];
    }
  }

  /** What a run leaves behind: the scans it logged, at most so many requests, and only rows of those scans. */
  ghost predicate Logged(was: Footprint, now: Footprint, trace: seq<Scanned>) {
    && now.sent == was.sent + trace && now.requests <= was.requests + Allowance(trace)
    && was.calls <= now.calls && Writes(was.ranges, now.ranges, trace)
  }

  /** The same, and no block is claimed twice by what was added. */
  ghost predicate Left(was: Footprint, now: Footprint, trace: seq<Scanned>) {
    Logged(was, now, trace) && AllApart(now.ranges, |was.ranges|)
  }

  lemma {:induction false} LeftJoin(was: Footprint, mid: Footprint, now: Footprint, trace: seq<Scanned>,
      part: seq<Scanned>)
    requires Left(was, mid, trace) && Left(mid, now, part) && NoneTwice(trace + part)
    ensures Left(was, now, trace + part)
  {
    AllowanceConcat(trace, part);
    WritesJoin(was.ranges, mid.ranges, now.ranges, trace, part);
  }

  ghost predicate Touches(s: Scanned, w: Address, position: nat, b: int) {
    s.position == position && w in s.wallets && s.window.Has(b)
  }

  /** No block is scanned for a wallet that already had it, or outside the required range. */
  ghost predicate OnlyMissing(trace: seq<Scanned>, before: seq<SweepRow>, required: BlockRange) {
    forall i, w: Address, b :: 0 <= i < |trace| && Touches(trace[i], w, trace[i].position, b) ==>
      required.Has(b) && !CoveredBy(before, w, trace[i].position, b)
  }

  /** No block is scanned twice for a wallet and position. */
  ghost predicate NoneTwice(trace: seq<Scanned>) {
    forall i, j, w: Address, b :: 0 <= i < j < |trace| && Touches(trace[i], w, trace[i].position, b) ==>
        !Touches(trace[j], w, trace[i].position, b)
  }

  ghost predicate Scans(trace: seq<Scanned>, w: Address, position: nat, b: int) {
    exists i :: 0 <= i < |trace| && Touches(trace[i], w, position, b)
  }

  /** Every missing block is scanned. */
  ghost predicate AllMissing(trace: seq<Scanned>, before: seq<SweepRow>, required: BlockRange, wallets: seq<Address>,
      position: nat)
  {
    forall w: Address, b :: w in wallets && required.Has(b) && !CoveredBy(before, w, position, b) ==>
        Scans(trace, w, position, b)
  }

  lemma {:induction false} ScansConcat(a: seq<Scanned>, b: seq<Scanned>, w: Address, position: nat, x: int)
    ensures Scans(a + b, w, position, x) <==> Scans(a, w, position, x) || Scans(b, w, position, x)
  {
    if Scans(a, w, position, x) {
      var i :| 0 <= i < |a| && Touches(a[i], w, position, x);
      assert Touches((a + b)[i], w, position, x);
    }
    if Scans(b, w, position, x) {
      var i :| 0 <= i < |b| && Touches(b[i], w, position, x);
      assert Touches((a + b)[|a| + i], w, position, x);
    }
  }

  function Trace(position: nat, wallets: seq<Address>, windows: seq<BlockRange>): (t: seq<Scanned>)
    ensures |t| == |windows| && forall i :: 0 <= i < |windows| ==> t[i] == Scanned(position, wallets, windows[i])
  {
    seq(|windows|, i requires 0 <= i < |windows| => Scanned(position, wallets, windows[i]))
  }

  /** The windows of a group touch exactly what its wallets miss, each block once. */
  lemma {:induction false} GroupTrace(g: Group, required: BlockRange, ranges: seq<SweepRow>, position: nat,
      windows: seq<BlockRange>, n: nat)
    requires Misses(g, required, ranges, position) && Ordered(windows) && SameBlocks(windows, g.gaps) && n <= |windows|
    ensures var t := Trace(position, g.wallets, windows[..n]);
            OnlyMissing(t, ranges, required) && NoneTwice(t)
            && (n == |windows| ==> AllMissing(t, ranges, required, g.wallets, position))
  {
    var t := Trace(position, g.wallets, windows[..n]);
    forall i, w: Address, b | 0 <= i < |t| && Touches(t[i], w, t[i].position, b)
      ensures required.Has(b) && !CoveredBy(ranges, w, t[i].position, b)
    {
      assert windows[i].Has(b) && Covered(windows, b) && Covered(g.gaps, b);
    }
    if n == |windows| {
      forall w: Address, b | w in g.wallets && required.Has(b) && !CoveredBy(ranges, w, position, b)
        ensures Scans(t, w, position, b)
      {
        assert Covered(g.gaps, b) && Covered(windows, b);
        var i :| 0 <= i < |windows| && windows[i].Has(b);
        assert Touches(t[i], w, position, b);
      }
    }
  }

  /** Two traces that share no wallet at a position join without repetition. */
  lemma {:induction false} JoinTraces(a: seq<Scanned>, b: seq<Scanned>, before: seq<SweepRow>, required: BlockRange)
    requires OnlyMissing(a, before, required) && OnlyMissing(b, before, required) && NoneTwice(a) && NoneTwice(b)
    requires forall i, j, w: Address ::
               0 <= i < |a| && 0 <= j < |b| && a[i].position == b[j].position && w in a[i].wallets ==>
                 w !in b[j].wallets
    ensures OnlyMissing(a + b, before, required) && NoneTwice(a + b)
  {
    var t := a + b;
    forall i, w: Address, x | 0 <= i < |t| && Touches(t[i], w, t[i].position, x)
      ensures required.Has(x) && !CoveredBy(before, w, t[i].position, x)
    {
      assert i < |a| ==> t[i] == a[i];
      assert i >= |a| ==> t[i] == b[i - |a|];
    }
    forall i, j, w: Address, x | 0 <= i < j < |t| && Touches(t[i], w, t[i].position, x)
      ensures !Touches(t[j], w, t[i].position, x)
    {
      if j < |a| {
        assert t[i] == a[i] && t[j] == a[j];
      } else if i >= |a| {
        assert t[i] == b[i - |a|] && t[j] == b[j - |a|];
      } else {
        assert t[i] == a[i] && t[j] == b[j - |a|];
      }
    }
  }

  /** `sorted(set(wallets))`. */
  function SortedWallets(wallets: seq<Address>): (r: seq<Address>)
    ensures forall w: Address :: w in r <==> w in wallets
    ensures forall i, j :: 0 <= i < j < |r| ==> r[i] < r[j]
  {
    var numbers: set<int> := set k | 0 <= k < |wallets| :: wallets[k] as int;
    var s := SortedSet(numbers);
    assert forall k :: 0 <= k < |s| ==> 0 <= s[k] < TWO_160 by {
      forall k | 0 <= k < |s| ensures 0 <= s[k] < TWO_160 {
        var n := s[k];
        assert n in s && n in numbers;
      }
    }
    var r: seq<Address> := seq(|s|, k requires 0 <= k < |s| => s[k]);
    assert forall w: Address :: w in r <==> w in wallets by {
      forall w: Address ensures w in r <==> w in wallets {
        var n: int := w;
        assert n in s <==> n in numbers;
        if n in s {
          var k :| 0 <= k < |s| && s[k] == n;
          assert r[k] == w;
        }
      }
    }
    r
  }

  /** The topic positions in ascending order; the configuration refuses repeated ones. */
  function SortedPositions(positions: seq<nat>): (r: seq<nat>)
    ensures forall p: nat :: p in r <==> p in positions
    ensures forall i, j :: 0 <= i < j < |r| ==> r[i] < r[j]
  {
    var numbers: set<int> := set k | 0 <= k < |positions| :: positions[k] as int;
    var s := SortedSet(numbers);
    assert forall k :: 0 <= k < |s| ==> s[k] >= 0 by {
      forall k | 0 <= k < |s| ensures s[k] >= 0 {
        var n := s[k];
        assert n in s && n in numbers;
      }
    }
    var r: seq<nat> := seq(|s|, k requires 0 <= k < |s| => s[k]);
    assert forall p: nat :: p in r <==> p in positions by {
      forall p: nat ensures p in r <==> p in positions {
        var n: int := p;
        assert n in s <==> n in numbers;
        if n in s {
          var k :| 0 <= k < |s| && s[k] == n;
          assert r[k] == p;
        }
      }
    }
    r
  }

  // ---- the store and the service ---------------------------------------------------------------------

  class SweepStore {
    var ranges: seq<SweepRow>
    var logs: seq<LogRow>
    var calls: nat
    const faults: nat -> D.Fault

    constructor (faults: nat -> D.Fault)
      ensures ranges == [] && logs == [] && this.faults == faults
    {
      this.faults := faults;
      ranges, logs, calls := [], [], 0;
    }

    /** None of these calls met a fault. */
    ghost predicate Quiet(from: nat, to: nat) {
      forall k: nat :: from <= k < to ==> faults(k).NoFault?
    }

    method CompletedRanges(wallet: Address, position: nat) returns (r: Option<seq<BlockRange>>)
      modifies `calls
      ensures calls == old(calls) + 1 && (r.Some? <==> faults(old(calls)).NoFault?)
      ensures r.Some? ==> forall b :: Covered(r.value, b) <==> CoveredBy(ranges, wallet, position, b)
    {
      var fault := faults(calls);
      calls := calls + 1;
      return if fault.NoFault? then Some(CompletedFor(ranges, wallet, position)) else None;
    }

    method InsertLogs(rows: seq<LogRow>) returns (ok: bool)
      modifies `calls, `logs
      ensures calls == old(calls) + 1 && (ok <==> faults(old(calls)).NoFault?)
      ensures logs == old(logs) || logs == old(logs) + rows
      ensures ok ==> logs == old(logs) + rows
    {
      var fault := faults(calls);
      calls := calls + 1;
      if !fault.LostRequest? {
        logs := logs + rows;
      }
      return fault.NoFault?;
    }

    method InsertRanges(rows: seq<SweepRow>) returns (ok: bool)
      modifies `calls, `ranges
      ensures calls == old(calls) + 1 && (ok <==> faults(old(calls)).NoFault?)
      ensures ranges == old(ranges) || ranges == old(ranges) + rows
      ensures ok ==> ranges == old(ranges) + rows
    {
      var fault := faults(calls);
      calls := calls + 1;
      if !fault.LostRequest? {
        ranges := ranges + rows;
      }
      return fault.NoFault?;
    }
  }

  function FailedRows(wallets: seq<Address>, position: nat, window: BlockRange): (rows: seq<SweepRow>)
    ensures forall row :: row in rows ==>
              !row.completed && row.position == position && row.wallet in wallets && row.range == window
    ensures Distinct(wallets) ==> AllApart(rows, 0)
  {
    seq(|wallets|, k requires 0 <= k < |wallets| => SweepRow(wallets[k], position, window, false))
  }

  class SweepService {
    const store: SweepStore
    const rpc: D.Rpc
    const chunkSize: nat
    const cap: nat
    var requests: nat
    /** The scans that were started, in order. */
    ghost var sent: seq<Scanned>

    constructor (store: SweepStore, rpc: D.Rpc, chunkSize: nat, cap: nat)
      requires chunkSize >= 1 && cap >= 1
      ensures this.store == store && this.rpc == rpc && this.cap == cap && this.chunkSize == chunkSize
    {
      this.store, this.rpc, this.chunkSize, this.cap, requests := store, rpc, chunkSize, cap, 0;
    }

    ghost function Traces(): Footprint
      reads this, store
    {
      Footprint(sent, requests, store.calls, store.ranges)
    }

    /** Scans one window and stores its logs before its markers. */
    method ScanWindow(position: nat, wallets: seq<Address>, window: BlockRange, ghost chain: Chain)
        returns (r: Result<(), SweepError>)
      requires chunkSize >= 1 && cap >= 1
      modifies this, store
      ensures GrowsAt(old(store.ranges), store.ranges, position) && old(store.logs) <= store.logs
      ensures Logged(old(Traces()), Traces(), [Scanned(position, wallets, window)])
      ensures Distinct(wallets) ==> AllApart(store.ranges, |old(store.ranges)|)
      ensures r.Ok? ==> RowsCover(store.ranges, wallets, position, window)
      ensures r != Err(ForeignTopic)
      ensures Served(rpc, cap, chain) && store.Quiet(old(store.calls), store.calls) ==> r.Ok?
      ensures Trusted(rpc, cap, chain) && old(Invariant(chain, store.ranges, store.logs)) ==>
                Invariant(chain, store.ranges, store.logs)
    {
      ghost var trusted := Trusted(rpc, cap, chain) && Invariant(chain, store.ranges, store.logs);
      var filter := WalletFilter(position, wallets);
      if trusted || Served(rpc, cap, chain) {
        D.HonestFrom(rpc, chain, filter, cap, requests);
      }
      if Served(rpc, cap, chain) {
        D.ServesFrom(rpc, filter, cap, requests);
      }
      var scan, asked := ScanFilter(D.Fixed(rpc, filter, requests), chunkSize, cap, filter, window, chain);
      requests := requests + asked;
      ghost var scanned := Scanned(position, wallets, window);
      sent := sent + [scanned];
      assert [scanned][..0] == [] && Allowance([scanned]) == 2 * window.Size();
      if scan.Err? {
        var failed := FailedRows(wallets, position, window);
        RowsGrow(store.ranges, failed, position);
        RowsWritten(store.ranges, failed, scanned);
        if trusted {
          AppendRanges(chain, store.ranges, store.logs, failed);
        }
        var _ := store.InsertRanges(failed);
        return Err(ScanFailed(scan.error));
      }
      var logRows := LogRows(wallets, position, scan.value.logs);
      if logRows.None? {
        return Err(ForeignTopic);
      }
      var rows := RangeRows(wallets, position, window, scan.value.completed);
      RowsWritten(store.ranges, rows, scanned);
      r := Commit(position, wallets, window, logRows.value, rows, scan.value.logs, chain);
    }

    /** Logs first, markers second: a crash in between leaves logs without markers, never the reverse. */
    method Commit(position: nat, wallets: seq<Address>, window: BlockRange, logRows: seq<LogRow>, rows: seq<SweepRow>,
                  ghost found: seq<Log>, ghost chain: Chain) returns (r: Result<(), SweepError>)
      requires forall row :: row in rows ==> MarksWindow(row, wallets, position, window)
      requires RowsCover(rows, wallets, position, window)
      requires forall row :: row in logRows ==> row.log in found && Carries(row.log, row.position, row.wallet)
      requires forall l, w: Address :: l in found && Carries(l, position, w) ==> LogRow(w, position, l) in logRows
      modifies store
      ensures store.ranges == old(store.ranges) || store.ranges == old(store.ranges) + rows
      ensures GrowsAt(old(store.ranges), store.ranges, position) && old(store.logs) <= store.logs
      ensures r.Ok? ==> RowsCover(store.ranges, wallets, position, window)
      ensures r.Err? ==> r.error == StoreFailed
      ensures store.calls >= old(store.calls) && (store.Quiet(old(store.calls), store.calls) ==> r.Ok?)
      ensures (WellFormedChain(chain) &&
                ExactLogs(found, chain, WalletFilter(position, wallets), window.start, window.end) &&
               old(Invariant(chain, store.ranges, store.logs))) ==> Invariant(chain, store.ranges, store.logs)
    {
      ghost var trusted := WellFormedChain(chain) &&
      ExactLogs(found, chain, WalletFilter(position, wallets), window.start, window.end) &&
                           Invariant(chain, store.ranges, store.logs);
      ghost var before := store.ranges;
      RowsGrow(before, rows, position);
      if trusted {
        FoundSound(chain, WalletFilter(position, wallets), window, found, logRows);
        AppendLogs(chain, store.ranges, store.logs, logRows);
      }
      if logRows != [] {
        var ok := store.InsertLogs(logRows);
        if !ok {
          return Err(StoreFailed);
        }
      }
      if trusted {
        WindowJustified(chain, wallets, position, window, found, store.logs, rows);
        AppendRanges(chain, store.ranges, store.logs, rows);
      }
      var ok := store.InsertRanges(rows);
      if !ok {
        return Err(StoreFailed);
      }
      NewRowsCover(before, rows, wallets, position, window);
      return Ok(());
    }

    /** Scans the windows of a group in order; the trace is the windows that were started. */
    method AdvanceGroup(position: nat, g: Group, size: nat, ghost chain: Chain)
        returns (r: Result<(), SweepError>, ghost windows: seq<BlockRange>, ghost started: nat)
      requires chunkSize >= 1 && cap >= 1 && size >= 1 && Separated(g.gaps) && Distinct(g.wallets)
      modifies this, store
      ensures old(store.logs) <= store.logs
      ensures Ordered(windows) && SameBlocks(windows, g.gaps) && started <= |windows|
      ensures Left(old(Traces()), Traces(), Trace(position, g.wallets, windows[..started]))
      ensures Served(rpc, cap, chain) && store.Quiet(old(store.calls), store.calls) ==> r.Ok?
      ensures r.Ok? ==> started == |windows| && forall w: Address, b :: w in g.wallets && Covered(g.gaps, b) ==>
                CoveredBy(store.ranges, w, position, b)
      ensures Trusted(rpc, cap, chain) && old(Invariant(chain, store.ranges, store.logs)) ==>
                Invariant(chain, store.ranges, store.logs)
    {
      var ws := GapWindows(g.gaps, size);
      windows, started := ws, 0;
      ghost var trusted := Trusted(rpc, cap, chain) && Invariant(chain, store.ranges, store.logs);
      ghost var was := Traces();
      for i := 0 to |ws|
        invariant old(store.logs) <= store.logs && started == i && windows == ws
        invariant Left(was, Traces(), Trace(position, g.wallets, ws[..i]))
        invariant trusted ==> Invariant(chain, store.ranges, store.logs)
        invariant WindowsCovered(store.ranges, g.wallets, position, ws, i)
      {
        ghost var mid := Traces();
        r := ScanWindow(position, g.wallets, ws[i], chain);
        started := i + 1;
        TraceStep(position, g.wallets, ws, i);
        LeftJoin(was, mid, Traces(), Trace(position, g.wallets, ws[..i]), [Scanned(position, g.wallets, ws[i])]);
        if r.Err? {
          return;
        }
        WindowsStillCovered(mid.ranges, store.ranges, g.wallets, position, ws, i);
      }
      assert ws[..|ws|] == ws;
      GapsCovered(store.ranges, g, position, ws);
      r := Ok(());
    }

    /** Reads what each wallet misses and groups the wallets that miss the same blocks. */
    method GroupWallets(position: nat, wallets: seq<Address>, required: BlockRange) returns (r: Option<seq<Group>>)
      requires forall i, j :: 0 <= i < j < |wallets| ==> wallets[i] != wallets[j]
      modifies store`calls
      ensures store.calls >= old(store.calls) && (store.Quiet(old(store.calls), store.calls) ==> r.Some?)
      ensures r.Some? ==> Grouped(r.value, wallets, required, store.ranges, position)
    {
      var groups: seq<Group> := [];
      for i := 0 to |wallets|
        invariant store.calls >= old(store.calls) && Grouped(groups, wallets[..i], required, store.ranges, position)
      {
        var completed := store.CompletedRanges(wallets[i], position);
        if completed.None? {
          return None;
        }
        var gaps := CoverageGaps(required, completed.value);
        assert wallets[..i + 1] == wallets[..i] + [wallets[i]];
        groups := AddToGroup(groups, gaps, wallets[i], wallets[..i], required, store.ranges, position);
      }
      assert wallets[..|wallets|] == wallets;
      return Some(groups);
    }

    /** Scans the groups one after another. */
    method AdvanceGroups(position: nat, groups: seq<Group>, size: nat, ghost wallets: seq<Address>,
        ghost required: BlockRange, ghost chain: Chain)
        returns (r: Result<(), SweepError>, ghost trace: seq<Scanned>)
      requires chunkSize >= 1 && cap >= 1 && size >= 1
      requires Grouped(groups, wallets, required, store.ranges, position)
      modifies this, store
      ensures old(store.logs) <= store.logs
      ensures OnlyMissing(trace, old(store.ranges), required) && NoneTwice(trace) && AtPosition(trace, position)
      ensures Left(old(Traces()), Traces(), trace) && OnlyFor(trace, wallets)
      ensures Served(rpc, cap, chain) && store.Quiet(old(store.calls), store.calls) ==> r.Ok?
      ensures r.Ok? ==>
                PositionProgress(trace, groups, |groups|, old(store.ranges), store.ranges, required, position)
      ensures Trusted(rpc, cap, chain) && old(Invariant(chain, store.ranges, store.logs)) ==>
                Invariant(chain, store.ranges, store.logs)
    {
      trace := [];
      ghost var was := Traces();
      ghost var trusted := Trusted(rpc, cap, chain) && Invariant(chain, store.ranges, store.logs);
      for g := 0 to |groups|
        invariant old(store.logs) <= store.logs && OnlyFor(trace, wallets)
        invariant trusted ==> Invariant(chain, store.ranges, store.logs)
        invariant PositionProgress(trace, groups, g, was.ranges, store.ranges, required, position)
        invariant Left(was, Traces(), trace)
      {
        ghost var mid := Traces();
        ghost var windows, started;
        assert WellShaped(groups[g], required, was.ranges, position);
        r, windows, started := AdvanceGroup(position, groups[g], size, chain);
        GroupAdvanced(was, mid, Traces(), trace, groups, g, wallets, required, position, windows, started, r.Ok?);
        trace := trace + Trace(position, groups[g].wallets, windows[..started]);
        if r.Err? {
          return;
        }
      }
      r := Ok(());
    }

    /** Covers every wallet at one position, scanning only what was missing when it began. */
    method AdvancePosition(position: nat, wallets: seq<Address>, required: BlockRange, size: nat, ghost chain: Chain)
        returns (r: Result<(), SweepError>, ghost trace: seq<Scanned>)
      requires chunkSize >= 1 && cap >= 1 && size >= 1
      requires forall i, j :: 0 <= i < j < |wallets| ==> wallets[i] != wallets[j]
      modifies this, store
      ensures old(store.logs) <= store.logs
      ensures OnlyMissing(trace, old(store.ranges), required) && NoneTwice(trace) && AtPosition(trace, position)
      ensures Left(old(Traces()), Traces(), trace) && OnlyFor(trace, wallets)
      ensures Served(rpc, cap, chain) && store.Quiet(old(store.calls), store.calls) ==> r.Ok?
      ensures r.Ok? ==> PositionMet(trace, old(store.ranges), store.ranges, required, wallets, position)
      ensures Trusted(rpc, cap, chain) && old(Invariant(chain, store.ranges, store.logs)) ==>
                Invariant(chain, store.ranges, store.logs)
    {
      trace := [];
      ghost var before := store.ranges;
      var grouped := GroupWallets(position, wallets, required);
      if grouped.None? {
        r := Err(StoreFailed);
        return;
      }
      r, trace := AdvanceGroups(position, grouped.value, size, wallets, required, chain);
      if r.Ok? {
        PositionDone(trace, grouped.value, wallets, before, store.ranges, required, position);
      }
    }

    /** When it returns, every wallet is covered over the required range at every position; the scanned
        windows are exactly what was missing at the start, each block once; and however the provider or
        the store fails, no marker is left without its logs. */
    method Advance(config: Config, wallets: seq<Address>, anchor: nat, ghost chain: Chain)
        returns (r: Result<(), SweepError>, ghost trace: seq<Scanned>)
      requires chunkSize >= 1 && cap >= 1 && config.checkpointBlocks >= 1
      modifies this, store
      ensures wallets == [] ==> r == Err(EmptyUniverse)
      ensures wallets != [] && anchor + 1 <= config.startBlock ==> r == Err(EmptyRange)
      ensures r.Ok? ==>
                forall w: Address, p, b :: w in wallets && p in config.positions && config.startBlock <= b <= anchor ==>
                          CoveredBy(store.ranges, w, p, b)
      ensures anchor + 1 > config.startBlock ==>
                && OnlyMissing(trace, old(store.ranges), Range(config.startBlock, anchor + 1)) && NoneTwice(trace)
                && (r.Ok? ==> forall p :: p in config.positions ==>
                                AllMissing(trace, old(store.ranges), Range(config.startBlock, anchor + 1), wallets, p))
                && OnlyNewRows(old(store.ranges), store.ranges, wallets, config.positions,
                               Range(config.startBlock, anchor + 1))
      ensures Left(old(Traces()), Traces(), trace)
      ensures (wallets != [] && anchor + 1 > config.startBlock && Served(rpc, cap, chain)
               && store.Quiet(old(store.calls), store.calls)) ==> r.Ok?
      ensures wallets == [] || anchor + 1 <= config.startBlock ==> trace == [] && store.ranges == old(store.ranges)
      ensures Trusted(rpc, cap, chain) && old(Invariant(chain, store.ranges, store.logs)) ==>
                Invariant(chain, store.ranges, store.logs)
    {
      trace := [];
      if wallets == [] {
        r := Err(EmptyUniverse);
        return;
      }
      if anchor + 1 <= config.startBlock {
        r := Err(EmptyRange);
        return;
      }
      var required: BlockRange := Range(config.startBlock, anchor + 1);
      var positions := SortedPositions(config.positions);
      r, trace := AdvancePositions(positions, wallets, required, config.checkpointBlocks, chain);
      RowsAreNew(old(store.ranges), store.ranges, trace, wallets, config.positions, required);
      if r.Ok? {
        forall p | p in config.positions
          ensures PositionMet(trace, old(store.ranges), store.ranges, required, wallets, p)
        {
          assert p in positions;
          var j :| 0 <= j < |positions| && positions[j] == p;
        }
        AllCovered(trace, old(store.ranges), store.ranges, required, wallets, config.positions);
      }
    }

    /** The positions one after another. */
    method AdvancePositions(positions: seq<nat>, wallets: seq<Address>, required: BlockRange, size: nat,
        ghost chain: Chain) returns (r: Result<(), SweepError>, ghost trace: seq<Scanned>)
      requires chunkSize >= 1 && cap >= 1 && size >= 1
      requires forall i, j :: 0 <= i < j < |positions| ==> positions[i] < positions[j]
      modifies this, store
      ensures OnlyMissing(trace, old(store.ranges), required) && NoneTwice(trace)
      ensures Left(old(Traces()), Traces(), trace) && OnlyFor(trace, wallets)
      ensures forall i :: 0 <= i < |trace| ==> trace[i].position in positions
      ensures Served(rpc, cap, chain) && store.Quiet(old(store.calls), store.calls) ==> r.Ok?
      ensures r.Ok? ==> forall j :: 0 <= j < |positions| ==>
                PositionMet(trace, old(store.ranges), store.ranges, required, wallets, positions[j])
      ensures Trusted(rpc, cap, chain) && old(Invariant(chain, store.ranges, store.logs)) ==>
                Invariant(chain, store.ranges, store.logs)
    {
      trace := [];
      var ws := SortedWallets(wallets);
      ghost var was := Traces();
      ghost var trusted := Trusted(rpc, cap, chain) && Invariant(chain, store.ranges, store.logs);
      for k := 0 to |positions|
        invariant trusted ==> Invariant(chain, store.ranges, store.logs)
        invariant Scanning(was, Traces(), trace, positions, k, required, wallets)
        invariant Progress(was.ranges, store.ranges, trace, positions, k, required, wallets)
      {
        ghost var mid := Traces();
        ghost var part;
        r, part := AdvancePosition(positions[k], ws, required, size, chain);
        ScanningStep(was, mid, Traces(), trace, part, positions, k, required, wallets, ws);
        if r.Ok? {
          ProgressMade(was.ranges, mid.ranges, store.ranges, trace, part, positions, k, required, wallets, ws);
        }
        trace := trace + part;
        if r.Err? {
          return;
        }
      }
      r := Ok(());
    }
  }

  /** After k positions: what was scanned, and what it left. The markers of the others are untouched. */
  ghost predicate Scanning(was: Footprint, now: Footprint, trace: seq<Scanned>, positions: seq<nat>, k: nat,
      required: BlockRange, wallets: seq<Address>)
  {
    && OnlyMissing(trace, was.ranges, required) && NoneTwice(trace) && OnlyFor(trace, wallets) && Left(was, now, trace)
    && k <= |positions| && (forall i :: 0 <= i < |trace| ==> trace[i].position in positions[..k])
    && forall j :: k <= j < |positions| ==> SameAt(was.ranges, now.ranges, positions[j])
  }

  ghost predicate Progress(before: seq<SweepRow>, ranges: seq<SweepRow>, trace: seq<Scanned>, positions: seq<nat>,
      k: nat, required: BlockRange, wallets: seq<Address>)
  {
    forall j :: 0 <= j < k <= |positions| ==> PositionMet(trace, before, ranges, required, wallets, positions[j])
  }

  lemma {:induction false} ScanningStep(was: Footprint, mid: Footprint, now: Footprint, trace: seq<Scanned>,
      part: seq<Scanned>, positions: seq<nat>, k: nat, required: BlockRange, wallets: seq<Address>,
      sorted: seq<Address>)
    requires Scanning(was, mid, trace, positions, k, required, wallets) && k < |positions| && Left(mid, now, part)
    requires forall i, j :: 0 <= i < j < |positions| ==> positions[i] < positions[j]
    requires OnlyMissing(part, mid.ranges, required) && NoneTwice(part) && AtPosition(part, positions[k])
    requires OnlyFor(part, sorted) && forall w: Address :: w in sorted ==> w in wallets
    ensures Scanning(was, now, trace + part, positions, k + 1, required, wallets)
  {
    var p := positions[k];
    OnlyMissingFrom(part, mid.ranges, was.ranges, required, p);
    assert p !in positions[..k];
    JoinTraces(trace, part, was.ranges, required);
    LeftJoin(was, mid, now, trace, part);
    WritesAt(mid.ranges, now.ranges, part, p);
    assert positions[..k + 1] == positions[..k] + [p];
    forall j | k + 1 <= j < |positions| ensures SameAt(was.ranges, now.ranges, positions[j]) {
      SameOn(was.ranges, mid.ranges, now.ranges, p, positions[j]);
    }
  }

  lemma {:induction false} ProgressMade(before: seq<SweepRow>, mid: seq<SweepRow>, after: seq<SweepRow>,
      trace: seq<Scanned>, part: seq<Scanned>, positions: seq<nat>, k: nat, required: BlockRange,
      wallets: seq<Address>, sorted: seq<Address>)
    requires Progress(before, mid, trace, positions, k, required, wallets) && k < |positions| && mid <= after
    requires SameAt(before, mid, positions[k]) && forall w: Address :: w in sorted <==> w in wallets
    requires PositionMet(part, mid, after, required, sorted, positions[k])
    ensures Progress(before, after, trace + part, positions, k + 1, required, wallets)
  {
    forall j | 0 <= j < k + 1 ensures PositionMet(trace + part, before, after, required, wallets, positions[j]) {
      if j < k {
        MetStill(trace, part, before, mid, after, required, wallets, positions[j]);
      } else {
        NewlyMet(trace, part, before, mid, after, required, wallets, sorted, positions[k]);
      }
    }
  }

  lemma {:induction false} AllCovered(trace: seq<Scanned>, before: seq<SweepRow>, ranges: seq<SweepRow>,
      required: BlockRange, wallets: seq<Address>, positions: seq<nat>)
    requires forall p :: p in positions ==> PositionMet(trace, before, ranges, required, wallets, p)
    ensures forall w: Address, p, b :: w in wallets && p in positions && required.Has(b) ==> CoveredBy(ranges, w, p, b)
  {
    forall w: Address, p, b | w in wallets && p in positions && required.Has(b) ensures CoveredBy(ranges, w, p, b) {
      assert PositionMet(trace, before, ranges, required, wallets, p) && UpToDate(w, required, ranges, p);
    }
  }

  // ---- steps of the loops ------------------------------------------------------------------------------

  /** Only these wallets are scanned for. */
  ghost predicate OnlyFor(trace: seq<Scanned>, wallets: seq<Address>) {
    forall i, w: Address :: 0 <= i < |trace| && w in trace[i].wallets ==> w in wallets
  }

  /** Every added row, completed or failed, is for one of the wallets at one of the positions, within the
      required range, and touches only blocks that the wallet missed before. */
  ghost predicate OnlyNewRows(before: seq<SweepRow>, after: seq<SweepRow>, wallets: seq<Address>, positions: seq<nat>,
      required: BlockRange)
  {
    before <= after && forall k :: |before| <= k < |after| ==>
      && after[k].wallet in wallets && after[k].position in positions
      && forall b :: after[k].range.Has(b) ==>
           required.Has(b) && !CoveredBy(before, after[k].wallet, after[k].position, b)
  }

  lemma {:induction false} RowsAreNew(before: seq<SweepRow>, after: seq<SweepRow>, trace: seq<Scanned>,
      wallets: seq<Address>, positions: seq<nat>, required: BlockRange)
    requires Writes(before, after, trace) && OnlyMissing(trace, before, required) && OnlyFor(trace, wallets)
    requires forall i :: 0 <= i < |trace| ==> trace[i].position in positions
    ensures OnlyNewRows(before, after, wallets, positions, required)
  {
    forall k | |before| <= k < |after|
      ensures after[k].wallet in wallets && after[k].position in positions
      ensures forall b :: after[k].range.Has(b) ==>
                required.Has(b) && !CoveredBy(before, after[k].wallet, after[k].position, b)
    {
      assert Explained(after[k], trace);
      var i :| 0 <= i < |trace| && Within(after[k], trace[i]);
      forall b | after[k].range.Has(b)
        ensures required.Has(b) && !CoveredBy(before, after[k].wallet, after[k].position, b)
      {
        assert Touches(trace[i], after[k].wallet, trace[i].position, b);
      }
    }
  }

  lemma {:induction false} WritesAt(before: seq<SweepRow>, after: seq<SweepRow>, trace: seq<Scanned>, position: nat)
    requires Writes(before, after, trace) && AtPosition(trace, position)
    ensures GrowsAt(before, after, position)
  {
    forall k | |before| <= k < |after| ensures after[k].position == position {
      assert Explained(after[k], trace);
    }
  }

  /** The first n windows are covered for all the wallets. */
  ghost predicate WindowsCovered(ranges: seq<SweepRow>, wallets: seq<Address>, position: nat, windows: seq<BlockRange>,
      n: nat)
  {
    forall j :: 0 <= j < n <= |windows| ==> RowsCover(ranges, wallets, position, windows[j])
  }

  lemma {:induction false} WindowsStillCovered(ranges: seq<SweepRow>, more: seq<SweepRow>, wallets: seq<Address>,
      position: nat, windows: seq<BlockRange>, n: nat)
    requires WindowsCovered(ranges, wallets, position, windows, n) && ranges <= more && n < |windows|
    requires RowsCover(more, wallets, position, windows[n])
    ensures WindowsCovered(more, wallets, position, windows, n + 1)
  {
    forall j | 0 <= j < n + 1 ensures RowsCover(more, wallets, position, windows[j]) {
      if j < n {
        RowsCoverMono(ranges, more, wallets, position, windows[j]);
      }
    }
  }

  lemma {:induction false} GapsCovered(ranges: seq<SweepRow>, g: Group, position: nat, windows: seq<BlockRange>)
    requires WindowsCovered(ranges, g.wallets, position, windows, |windows|) && SameBlocks(windows, g.gaps)
    ensures forall w: Address, b :: w in g.wallets && Covered(g.gaps, b) ==> CoveredBy(ranges, w, position, b)
  {
    forall w: Address, b | w in g.wallets && Covered(g.gaps, b) ensures CoveredBy(ranges, w, position, b) {
      assert Covered(windows, b);
      var j :| 0 <= j < |windows| && windows[j].Has(b);
      assert RowsCover(ranges, g.wallets, position, windows[j]);
    }
  }

  /** One more window of a group touches nothing that the earlier ones did. */
  lemma {:induction false} TraceStep(position: nat, wallets: seq<Address>, windows: seq<BlockRange>, i: nat)
    requires Ordered(windows) && i < |windows|
    ensures var s := Scanned(position, wallets, windows[i]);
            && Trace(position, wallets, windows[..i + 1]) == Trace(position, wallets, windows[..i]) + [s]
            && NoneTwice(Trace(position, wallets, windows[..i]) + [s])
            && Allowance(Trace(position, wallets, windows[..i + 1])) ==
                 Allowance(Trace(position, wallets, windows[..i])) + 2 * windows[i].Size()
  {
    var before, all := Trace(position, wallets, windows[..i]), Trace(position, wallets, windows[..i + 1]);
    assert all == before + [Scanned(position, wallets, windows[i])];
    assert all[..|all| - 1] == before;
  }

  ghost predicate AtPosition(trace: seq<Scanned>, position: nat) {
    forall i :: 0 <= i < |trace| ==> trace[i].position == position
  }

  /** After the first n groups: only their wallets were scanned, what they missed was, and they miss
      nothing any more. */
  ghost predicate PositionProgress(trace: seq<Scanned>, groups: seq<Group>, n: nat, before: seq<SweepRow>,
      ranges: seq<SweepRow>, required: BlockRange, position: nat)
  {
    && n <= |groups| && OnlyMissing(trace, before, required) && NoneTwice(trace) && AtPosition(trace, position)
    && (forall i, w: Address :: 0 <= i < |trace| && w in trace[i].wallets ==> Placed(groups[..n], w))
    && forall h :: 0 <= h < n ==> GroupMet(trace, groups[h], before, ranges, required, position)
  }

  ghost predicate GroupMet(trace: seq<Scanned>, g: Group, before: seq<SweepRow>, ranges: seq<SweepRow>,
      required: BlockRange, position: nat)
  {
    && AllMissing(trace, before, required, g.wallets, position)
    && forall w: Address, b :: w in g.wallets && Covered(g.gaps, b) ==> CoveredBy(ranges, w, position, b)
  }

  ghost predicate SameAt(a: seq<SweepRow>, b: seq<SweepRow>, position: nat) {
    forall w: Address, x :: CoveredBy(a, w, position, x) <==> CoveredBy(b, w, position, x)
  }

  ghost predicate PositionMet(trace: seq<Scanned>, before: seq<SweepRow>, ranges: seq<SweepRow>, required: BlockRange,
                              wallets: seq<Address>, position: nat)
  {
    && AllMissing(trace, before, required, wallets, position)
    && forall w: Address :: w in wallets ==> UpToDate(w, required, ranges, position)
  }

  lemma {:induction false} RowsCoverMono(ranges: seq<SweepRow>, more: seq<SweepRow>, wallets: seq<Address>,
      position: nat, window: BlockRange)
    requires RowsCover(ranges, wallets, position, window) && ranges <= more
    ensures RowsCover(more, wallets, position, window)
  {
    forall w: Address, b | w in wallets && window.Has(b) ensures CoveredBy(more, w, position, b) {
      CoveredByMono(ranges, more, w, position, b);
    }
  }

  lemma {:induction false} RowsGrow(before: seq<SweepRow>, rows: seq<SweepRow>, position: nat)
    requires forall row :: row in rows ==> row.position == position
    ensures GrowsAt(before, before + rows, position) && GrowsAt(before, before, position)
  {
  }

  lemma {:induction false} FoundSound(chain: Chain, filter: LogFilter, window: BlockRange, found: seq<Log>,
      rows: seq<LogRow>)
    requires ExactLogs(found, chain, filter, window.start, window.end)
    requires forall row :: row in rows ==> row.log in found && Carries(row.log, row.position, row.wallet)
    ensures SoundLogs(chain, rows)
  {
    forall row | row in rows ensures row.log in chain(row.log.block) {
      assert OnChain(chain, filter, window.start, window.end, row.log);
    }
  }

  lemma {:induction false} NewRowsCover(before: seq<SweepRow>, rows: seq<SweepRow>, wallets: seq<Address>,
      position: nat, window: BlockRange)
    requires RowsCover(rows, wallets, position, window)
    ensures RowsCover(before + rows, wallets, position, window)
  {
    forall w: Address, b | w in wallets && window.Has(b) ensures CoveredBy(before + rows, w, position, b) {
      assert CoveredBy(rows, w, position, b);
      var row :| row in rows && Claims(row, w, position, b);
      assert row in before + rows;
    }
  }

  lemma {:induction false} TraceGrows(trace: seq<Scanned>, part: seq<Scanned>, groups: seq<Group>, g: nat,
      wallets: seq<Address>, before: seq<SweepRow>, mid: seq<SweepRow>, required: BlockRange, position: nat)
    requires g < |groups| && Grouped(groups, wallets, required, before, position)
    requires PositionProgress(trace, groups, g, before, mid, required, position)
    requires OnlyMissing(part, before, required) && NoneTwice(part) && AtPosition(part, position)
    requires forall i :: 0 <= i < |part| ==> part[i].wallets == groups[g].wallets
    ensures OnlyMissing(trace + part, before, required) && NoneTwice(trace + part) && AtPosition(trace + part, position)
    ensures forall i, w: Address :: 0 <= i < |trace + part| && w in (trace + part)[i].wallets ==>
              Placed(groups[..g + 1], w)
  {
    forall i, j, w: Address | 0 <= i < |trace| && 0 <= j < |part| && trace[i].position == part[j].position &&
    w in trace[i].wallets
      ensures w !in part[j].wallets
    {
      assert Placed(groups[..g], w);
      var h :| 0 <= h < g && w in groups[..g][h].wallets;
      assert w in groups[h].wallets;
    }
    JoinTraces(trace, part, before, required);
    forall i, w: Address | 0 <= i < |trace + part| && w in (trace + part)[i].wallets
      ensures Placed(groups[..g + 1], w)
    {
      if i < |trace| {
        assert Placed(groups[..g], w);
        var h :| 0 <= h < g && w in groups[..g][h].wallets;
        assert w in groups[..g + 1][h].wallets;
      } else {
        assert w in groups[..g + 1][g].wallets;
      }
    }
  }

  lemma {:induction false} AllMissingMore(trace: seq<Scanned>, part: seq<Scanned>, before: seq<SweepRow>,
      required: BlockRange, wallets: seq<Address>, position: nat)
    requires AllMissing(trace, before, required, wallets, position) ||
               AllMissing(part, before, required, wallets, position)
    ensures AllMissing(trace + part, before, required, wallets, position)
  {
    forall w: Address, b | w in wallets && required.Has(b) && !CoveredBy(before, w, position, b)
      ensures Scans(trace + part, w, position, b)
    {
      ScansConcat(trace, part, w, position, b);
    }
  }

  lemma {:induction false} ProgressStep(all: seq<Scanned>, part: seq<Scanned>, groups: seq<Group>, g: nat,
      before: seq<SweepRow>, mid: seq<SweepRow>, after: seq<SweepRow>, required: BlockRange, position: nat)
    requires g < |groups| && |part| <= |all| && mid <= after
    requires var trace := all[..|all| - |part|];
             all == trace + part && PositionProgress(trace, groups, g, before, mid, required, position)
    requires OnlyMissing(all, before, required) && NoneTwice(all) && AtPosition(all, position)
    requires forall i, w: Address :: 0 <= i < |all| && w in all[i].wallets ==> Placed(groups[..g + 1], w)
    requires GroupMet(part, groups[g], before, after, required, position)
    ensures PositionProgress(all, groups, g + 1, before, after, required, position)
  {
    var trace := all[..|all| - |part|];
    forall h | 0 <= h < g + 1 ensures GroupMet(all, groups[h], before, after, required, position) {
      if h < g {
        assert GroupMet(trace, groups[h], before, mid, required, position);
        forall w: Address, b | w in groups[h].wallets && Covered(groups[h].gaps, b)
          ensures CoveredBy(after, w, position, b)
        {
          CoveredByMono(mid, after, w, position, b);
        }
      }
      AllMissingMore(trace, part, before, required, groups[h].wallets, position);
    }
  }

  lemma {:induction false} OnlyPlaced(trace: seq<Scanned>, groups: seq<Group>, n: nat, wallets: seq<Address>,
      required: BlockRange, before: seq<SweepRow>, position: nat)
    requires Grouped(groups, wallets, required, before, position) && n <= |groups|
    requires forall i, w: Address :: 0 <= i < |trace| && w in trace[i].wallets ==> Placed(groups[..n], w)
    ensures OnlyFor(trace, wallets)
  {
    forall i, w: Address | 0 <= i < |trace| && w in trace[i].wallets ensures w in wallets {
      assert Placed(groups[..n], w);
      var g :| 0 <= g < n && w in groups[..n][g].wallets;
      assert w in groups[g].wallets;
    }
  }

  /** What scanning one more group adds, whether it got to its end or not. */
  lemma {:induction false} GroupAdvanced(was: Footprint, mid: Footprint, now: Footprint, trace: seq<Scanned>,
      groups: seq<Group>, g: nat, wallets: seq<Address>, required: BlockRange, position: nat, windows: seq<BlockRange>,
      started: nat, done: bool)
    requires g < |groups| && Grouped(groups, wallets, required, was.ranges, position) && Left(was, mid, trace)
    requires PositionProgress(trace, groups, g, was.ranges, mid.ranges, required, position)
    requires Ordered(windows) && SameBlocks(windows, groups[g].gaps) && started <= |windows|
    requires Left(mid, now, Trace(position, groups[g].wallets, windows[..started]))
    requires done ==> started == |windows|
    requires done ==> forall w: Address, b :: w in groups[g].wallets && Covered(groups[g].gaps, b) ==>
               CoveredBy(now.ranges, w, position, b)
    ensures var all := trace + Trace(position, groups[g].wallets, windows[..started]);
            && Left(was, now, all) && OnlyMissing(all, was.ranges, required) && NoneTwice(all)
            && AtPosition(all, position) && OnlyFor(all, wallets)
            && (done ==> PositionProgress(all, groups, g + 1, was.ranges, now.ranges, required, position))
  {
    var part := Trace(position, groups[g].wallets, windows[..started]);
    var all := trace + part;
    assert WellShaped(groups[g], required, was.ranges, position);
    GroupTrace(groups[g], required, was.ranges, position, windows, started);
    TraceGrows(trace, part, groups, g, wallets, was.ranges, mid.ranges, required, position);
    LeftJoin(was, mid, now, trace, part);
    OnlyPlaced(all, groups, g + 1, wallets, required, was.ranges, position);
    if done {
      assert windows[..started] == windows && all[..|all| - |part|] == trace;
      ProgressStep(all, part, groups, g, was.ranges, mid.ranges, now.ranges, required, position);
    }
  }

  lemma {:induction false} PositionDone(trace: seq<Scanned>, groups: seq<Group>, wallets: seq<Address>,
      before: seq<SweepRow>, ranges: seq<SweepRow>, required: BlockRange, position: nat)
    requires Grouped(groups, wallets, required, before, position) && before <= ranges
    requires PositionProgress(trace, groups, |groups|, before, ranges, required, position)
    ensures PositionMet(trace, before, ranges, required, wallets, position)
  {
    forall w: Address, b | w in wallets && required.Has(b)
      ensures CoveredBy(ranges, w, position, b) && (!CoveredBy(before, w, position, b) ==> Scans(trace, w, position, b))
    {
      if CoveredBy(before, w, position, b) {
        CoveredByMono(before, ranges, w, position, b);
      } else {
        assert !UpToDate(w, required, before, position) && Placed(groups, w);
        var h :| 0 <= h < |groups| && w in groups[h].wallets;
        assert Misses(groups[h], required, before, position) && Covered(groups[h].gaps, b);
        assert GroupMet(trace, groups[h], before, ranges, required, position);
      }
    }
  }

  lemma {:induction false} OnlyMissingFrom(part: seq<Scanned>, mid: seq<SweepRow>, start: seq<SweepRow>,
      required: BlockRange, position: nat)
    requires OnlyMissing(part, mid, required) && AtPosition(part, position) && SameAt(start, mid, position)
    ensures OnlyMissing(part, start, required)
  {
  }

  lemma {:induction false} SameOn(start: seq<SweepRow>, mid: seq<SweepRow>, after: seq<SweepRow>, position: nat,
      other: nat)
    requires SameAt(start, mid, other) && GrowsAt(mid, after, position) && other != position
    ensures SameAt(start, after, other)
  {
    forall w: Address, x ensures CoveredBy(start, w, other, x) <==> CoveredBy(after, w, other, x) {
      OtherPositions(mid, after, position, w, other, x);
    }
  }

  lemma {:induction false} UpToDateMono(w: Address, required: BlockRange, ranges: seq<SweepRow>, more: seq<SweepRow>,
      position: nat)
    requires UpToDate(w, required, ranges, position) && ranges <= more
    ensures UpToDate(w, required, more, position)
  {
    forall b | required.Has(b) ensures CoveredBy(more, w, position, b) {
      CoveredByMono(ranges, more, w, position, b);
    }
  }

  lemma {:induction false} MetStill(trace: seq<Scanned>, part: seq<Scanned>, start: seq<SweepRow>, mid: seq<SweepRow>,
      after: seq<SweepRow>, required: BlockRange, wallets: seq<Address>, position: nat)
    requires PositionMet(trace, start, mid, required, wallets, position) && mid <= after
    ensures PositionMet(trace + part, start, after, required, wallets, position)
  {
    AllMissingMore(trace, part, start, required, wallets, position);
    forall w: Address | w in wallets ensures UpToDate(w, required, after, position) {
      UpToDateMono(w, required, mid, after, position);
    }
  }

  lemma {:induction false} NewlyMet(trace: seq<Scanned>, part: seq<Scanned>, start: seq<SweepRow>, mid: seq<SweepRow>,
      after: seq<SweepRow>, required: BlockRange, wallets: seq<Address>, sorted: seq<Address>, position: nat)
    requires SameAt(start, mid, position) && forall w: Address :: w in sorted <==> w in wallets
    requires AllMissing(part, mid, required, sorted, position)
    requires forall w: Address :: w in sorted ==> UpToDate(w, required, after, position)
    ensures PositionMet(trace + part, start, after, required, wallets, position)
  {
    forall w: Address, b | w in wallets && required.Has(b) && !CoveredBy(start, w, position, b)
      ensures Scans(part, w, position, b)
    {
      assert w in sorted && !CoveredBy(mid, w, position, b);
    }
    AllMissingMore(trace, part, start, required, wallets, position);
  }
}
