/** Discovery runs that interleave at every store call. */
module DiscoveryRuns {
  import opened Intervals
  import opened Logs
  import opened Discovery

  /** Where a run stands between two store calls: about to read the coverage of its event; with gaps to
      scan; with the first gap scanned and its holders to be stored; with its holders stored and its
      markers due; returned; or stopped by an error. */
  datatype Phase =
    | Reading
    | Scanning(gaps: seq<BlockRange>)
    | Storing(gaps: seq<BlockRange>, rows: seq<HolderRow>, markers: seq<RangeRow>)
    | Marking(gaps: seq<BlockRange>, rows: seq<HolderRow>, markers: seq<RangeRow>)
    | Returned
    | Failed

  /** A run of `advance`: the events before `event` are done. */
  datatype Run = Run(token: Token, anchor: nat, event: nat, phase: Phase)

  /** The shared tables, and any number of runs. */
  datatype World = World(ranges: seq<RangeRow>, holders: seq<HolderRow>, runs: seq<Run>)

  predicate Required(r: Run, b: int) {
    r.token.deploymentBlock <= b <= r.anchor
  }

  /** The gaps are the required blocks that are not covered at this moment. */
  ghost predicate GapsNow(r: Run, topic0: Word, ranges: seq<RangeRow>, gaps: seq<BlockRange>) {
    forall b :: Covered(gaps, b) <==> Required(r, b) && !CoveredBy(ranges, r.token.address, topic0, b)
  }

  /** An insert that may be lost on the way there or on the way back. */
  ghost predicate Inserted<T>(table: seq<T>, rows: seq<T>, table': seq<T>, acknowledged: bool) {
    table' == table + rows || (!acknowledged && table' == table)
  }

  /** One store call of a run, with the work around it. */
  ghost predicate Moves(chain: Chain, r: Run, r': Run, w: World, w': World) {
    && r'.token == r.token && r'.anchor == r.anchor
    && (r.event < |r.token.events| || r.phase.Reading? || r.phase.Returned? || r.phase.Failed?)
    && match r.phase
       case Reading =>
         && w'.ranges == w.ranges && w'.holders == w.holders && r'.event == r.event
         && if r.anchor < r.token.deploymentBlock then r'.phase.Failed?
            else if r.event >= |r.token.events| then r'.phase == Returned
            else r'.phase.Failed?
                 || (r'.phase.Scanning? && GapsNow(r, r.token.events[r.event].topic0, w.ranges, r'.phase.gaps))
       case Scanning(gaps) =>
         && w'.holders == w.holders
         && if gaps == [] then
              w'.ranges == w.ranges && r'.event == r.event + 1 && r'.phase == Reading
            else
              var e := r.token.events[r.event];
              && r'.event == r.event
              && ((r'.phase.Failed? &&
                   Inserted(w.ranges, [RangeRow(r.token.address, e.topic0, gaps[0], false)], w'.ranges, false))
                  || (w'.ranges == w.ranges && r'.phase.Storing? && r'.phase.gaps == gaps
                      && ScanYields(chain, r.token, e, gaps[0], r'.phase.rows, r'.phase.markers)))
       case Storing(gaps, rows, markers) =>
         && w'.ranges == w.ranges && r'.event == r.event
         && ((r'.phase.Failed? && Inserted(w.holders, rows, w'.holders, false))
             || (r'.phase == Marking(gaps, rows, markers) && Inserted(w.holders, rows, w'.holders, true)))
       case Marking(gaps, rows, markers) =>
         && w'.holders == w.holders && r'.event == r.event && gaps != []
         && ((r'.phase.Failed? && Inserted(w.ranges, markers, w'.ranges, false))
             || (r'.phase == Scanning(gaps[1..]) && Inserted(w.ranges, markers, w'.ranges, true)))
       case Returned => r' == r && w'.ranges == w.ranges && w'.holders == w.holders
       case Failed => r' == r && w'.ranges == w.ranges && w'.holders == w.holders
  }

  /** Any one run takes its next store call. */
  ghost predicate Next(chain: Chain, w: World, w': World) {
    exists i :: 0 <= i < |w.runs| && NextAt(chain, w, w', i)
  }

  ghost predicate NextAt(chain: Chain, w: World, w': World, i: nat)
    requires i < |w.runs|
  {
    |w'.runs| == |w.runs| && Moves(chain, w.runs[i], w'.runs[i], w, w') && forall j :: 0 <= j < |w.runs| && j != i ==>
        w'.runs[j] == w.runs[j]
  }

  // ---- what a run knows --------------------------------------------------------------------------------

  /** The blocks of an event that are required and not in these gaps are covered. */
  ghost predicate CoveredBut(r: Run, topic0: Word, ranges: seq<RangeRow>, gaps: seq<BlockRange>) {
    forall b :: Required(r, b) ==> CoveredBy(ranges, r.token.address, topic0, b) || Covered(gaps, b)
  }

  ghost predicate Within(r: Run, gaps: seq<BlockRange>) {
    forall k :: 0 <= k < |gaps| ==> r.token.deploymentBlock <= gaps[k].start
  }

  ghost predicate DoneBefore(r: Run, ranges: seq<RangeRow>) {
    r.event <= |r.token.events| && forall j :: 0 <= j < r.event ==> CoveredBut(r, r.token.events[j].topic0, ranges, [])
  }

  ghost predicate Knows(chain: Chain, catalog: set<Token>, r: Run, ranges: seq<RangeRow>, holders: seq<HolderRow>) {
    && r.token in catalog
    && (!r.phase.Failed? ==> DoneBefore(r, ranges))
    && match r.phase
       case Reading => true
       case Scanning(gaps) =>
         r.event < |r.token.events| && Within(r, gaps) && CoveredBut(r, r.token.events[r.event].topic0, ranges, gaps)
       case Storing(gaps, rows, markers) =>
         && r.event < |r.token.events| && gaps != [] && Within(r, gaps)
         && CoveredBut(r, r.token.events[r.event].topic0, ranges, gaps)
         && ScanYields(chain, r.token, r.token.events[r.event], gaps[0], rows, markers)
       case Marking(gaps, rows, markers) =>
         && r.event < |r.token.events| && gaps != [] && Within(r, gaps)
         && CoveredBut(r, r.token.events[r.event].topic0, ranges, gaps)
         && ScanYields(chain, r.token, r.token.events[r.event], gaps[0], rows, markers)
         && forall row :: row in rows ==> row in holders
       case Returned => FullyCovered(ranges, r.token, r.anchor)
       case Failed => true
  }

  ghost predicate AllKnow(chain: Chain, catalog: set<Token>, w: World) {
    && Invariant(chain, catalog, w.ranges, w.holders)
    && forall i :: 0 <= i < |w.runs| ==> Knows(chain, catalog, w.runs[i], w.ranges, w.holders)
  }

  lemma {:induction false} CoveredButMono(r: Run, topic0: Word, ranges: seq<RangeRow>, more: seq<RangeRow>,
      gaps: seq<BlockRange>)
    requires CoveredBut(r, topic0, ranges, gaps) && ranges <= more
    ensures CoveredBut(r, topic0, more, gaps)
  {
    forall b | Required(r, b) ensures CoveredBy(more, r.token.address, topic0, b) || Covered(gaps, b) {
      if !Covered(gaps, b) {
        CoveredByMono(ranges, more, r.token.address, topic0, b);
      }
    }
  }

  lemma {:induction false} DoneMono(r: Run, ranges: seq<RangeRow>, more: seq<RangeRow>)
    requires DoneBefore(r, ranges) && ranges <= more
    ensures DoneBefore(r, more)
  {
    forall j | 0 <= j < r.event ensures CoveredBut(r, r.token.events[j].topic0, more, []) {
      CoveredButMono(r, r.token.events[j].topic0, ranges, more, []);
    }
  }

  /** What a run knows survives whatever the others append. */
  lemma {:induction false} KnowsMono(chain: Chain, catalog: set<Token>, r: Run, ranges: seq<RangeRow>,
      holders: seq<HolderRow>, ranges': seq<RangeRow>, holders': seq<HolderRow>)
    requires Knows(chain, catalog, r, ranges, holders) && ranges <= ranges' && holders <= holders'
    ensures Knows(chain, catalog, r, ranges', holders')
  {
    if !r.phase.Failed? {
      DoneMono(r, ranges, ranges');
    }
    match r.phase
    case Reading =>
    case Failed =>
    case Scanning(gaps) => CoveredButMono(r, r.token.events[r.event].topic0, ranges, ranges', gaps);
    case Storing(gaps, rows, markers) => CoveredButMono(r, r.token.events[r.event].topic0, ranges, ranges', gaps);
    case Marking(gaps, rows, markers) =>
      CoveredButMono(r, r.token.events[r.event].topic0, ranges, ranges', gaps);
      forall row | row in rows ensures row in holders' {
        assert row in holders;
        var k :| 0 <= k < |holders| && holders[k] == row;
        assert holders'[k] == row;
      }
    case Returned => FullyCoveredMono(ranges, ranges', r.token, r.anchor);
  }

  // ---- what every step keeps -----------------------------------------------------------------------------

  lemma {:induction false} MarkCovers(chain: Chain, r: Run, ranges: seq<RangeRow>, gaps: seq<BlockRange>,
      rows: seq<HolderRow>, markers: seq<RangeRow>)
    requires r.event < |r.token.events| && gaps != []
    requires CoveredBut(r, r.token.events[r.event].topic0, ranges, gaps)
    requires ScanYields(chain, r.token, r.token.events[r.event], gaps[0], rows, markers)
    ensures CoveredBut(r, r.token.events[r.event].topic0, ranges + markers, gaps[1..])
  {
    var e := r.token.events[r.event];
    var logs, m, completed :| ScanOf(chain, r.token, e, gaps[0], rows, markers, logs, m, completed);
    forall b | Required(r, b)
      ensures CoveredBy(ranges + markers, r.token.address, e.topic0, b) || Covered(gaps[1..], b)
    {
      if CoveredBy(ranges, r.token.address, e.topic0, b) {
        CoveredByMono(ranges, ranges + markers, r.token.address, e.topic0, b);
      } else {
        var k :| 0 <= k < |gaps| && gaps[k].Has(b);
        if k == 0 {
          MarkersCover(r.token, e, gaps[0], completed, b);
          var row :| row in markers && Claims(row, r.token.address, e.topic0, b);
          assert row in ranges + markers;
        } else {
          assert gaps[1..][k - 1].Has(b);
        }
      }
    }
  }

  /** The tables only grow. */
  lemma {:induction false} TablesGrow(chain: Chain, r: Run, r': Run, w: World, w': World)
    requires Moves(chain, r, r', w, w')
    ensures w.ranges <= w'.ranges && w.holders <= w'.holders
  {
  }

  /** The invariant survives a step of a run. */
  lemma {:induction false} MoveKeepsInvariant(chain: Chain, catalog: set<Token>, r: Run, r': Run, w: World, w': World)
    requires WellFormedChain(chain) && ConsistentCatalog(catalog) && Moves(chain, r, r', w, w')
    requires Invariant(chain, catalog, w.ranges, w.holders) && Knows(chain, catalog, r, w.ranges, w.holders)
    ensures Invariant(chain, catalog, w'.ranges, w'.holders)
  {
    match r.phase
    case Reading =>
    case Returned =>
    case Failed =>
    case Scanning(gaps) =>
      if w'.ranges != w.ranges {
        var failed := [RangeRow(r.token.address, r.token.events[r.event].topic0, gaps[0], false)];
        AppendRanges(chain, catalog, w.ranges, w.holders, failed);
      }
    case Storing(gaps, rows, markers) =>
      StoreKeeps(chain, catalog, r.token, r.token.events[r.event], gaps[0], w.ranges, w.holders, rows, markers);
    case Marking(gaps, rows, markers) =>
      MarkKeeps(chain, catalog, r.token, r.token.events[r.event], gaps[0], w.ranges, w.holders, rows, markers);
  }

  /** After its step a run knows what its new phase promises. */
  lemma {:induction false} MoveKnows(chain: Chain, catalog: set<Token>, r: Run, r': Run, w: World, w': World)
    requires Moves(chain, r, r', w, w') && Knows(chain, catalog, r, w.ranges, w.holders)
    ensures Knows(chain, catalog, r', w'.ranges, w'.holders)
  {
    TablesGrow(chain, r, r', w, w');
    if !r'.phase.Failed? {
      DoneMono(r, w.ranges, w'.ranges);
      match r.phase
      case Reading => ReadingKnows(chain, catalog, r, r', w, w');
      case Returned =>
      case Failed =>
      case Scanning(gaps) =>
        CoveredButMono(r, r.token.events[r.event].topic0, w.ranges, w'.ranges, gaps);
      case Storing(gaps, rows, markers) =>
        CoveredButMono(r, r.token.events[r.event].topic0, w.ranges, w'.ranges, gaps);
      case Marking(gaps, rows, markers) =>
        MarkCovers(chain, r, w.ranges, gaps, rows, markers);
        assert forall k :: 0 <= k < |gaps[1..]| ==> gaps[1..][k] == gaps[k + 1];
    }
  }

  lemma {:induction false} ReadingKnows(chain: Chain, catalog: set<Token>, r: Run, r': Run, w: World, w': World)
    requires r.phase.Reading? && Moves(chain, r, r', w, w') && Knows(chain, catalog, r, w.ranges, w.holders)
    requires !r'.phase.Failed?
    ensures Knows(chain, catalog, r', w'.ranges, w'.holders)
  {
    if r'.phase.Scanning? {
      var gaps := r'.phase.gaps;
      forall k | 0 <= k < |gaps| ensures r.token.deploymentBlock <= gaps[k].start {
        assert Covered(gaps, gaps[k].start);
      }
    } else {
      forall e, b: nat | e in r.token.events && r.token.deploymentBlock <= b <= r.anchor
        ensures CoveredBy(w.ranges, r.token.address, e.topic0, b)
      {
        var j :| 0 <= j < |r.token.events| && r.token.events[j] == e;
        assert CoveredBut(r, r.token.events[j].topic0, w.ranges, []) && Required(r, b);
      }
    }
  }

  /** A store call of any run keeps the invariant and what every run knows. */
  lemma {:induction false} StepKeeps(chain: Chain, catalog: set<Token>, w: World, w': World)
    requires WellFormedChain(chain) && ConsistentCatalog(catalog) && AllKnow(chain, catalog, w) && Next(chain, w, w')
    ensures AllKnow(chain, catalog, w')
  {
    var i :| 0 <= i < |w.runs| && NextAt(chain, w, w', i);
    var r, r' := w.runs[i], w'.runs[i];
    TablesGrow(chain, r, r', w, w');
    MoveKeepsInvariant(chain, catalog, r, r', w, w');
    forall j | 0 <= j < |w'.runs| ensures Knows(chain, catalog, w'.runs[j], w'.ranges, w'.holders) {
      if j == i {
        MoveKnows(chain, catalog, r, r', w, w');
      } else {
        KnowsMono(chain, catalog, w.runs[j], w.ranges, w.holders, w'.ranges, w'.holders);
      }
    }
  }

  // ---- every interleaving --------------------------------------------------------------------------------

  /** A history: each world follows from the one before by one store call of one run. */
  ghost predicate History(chain: Chain, worlds: seq<World>) {
    worlds != [] && forall k, l :: 0 <= k && l == k + 1 < |worlds| ==> Next(chain, worlds[k], worlds[l])
  }

  /** Any runs that have not begun, over tables that satisfy the invariant. */
  ghost predicate Beginning(chain: Chain, catalog: set<Token>, w: World) {
    && Invariant(chain, catalog, w.ranges, w.holders)
    && forall i :: 0 <= i < |w.runs| ==> w.runs[i].token in catalog && w.runs[i].event == 0 && w.runs[i].phase.Reading?
  }

  /** In every interleaving of the store calls of any number of runs, over the same or different tokens and
      anchors, with any of them failing anywhere: every covered block has its holders stored, and once a
      run has returned, the members at its anchor are exact and stay so. */
  lemma {:induction false} EveryInterleaving(chain: Chain, catalog: set<Token>, worlds: seq<World>, k: nat)
    requires WellFormedChain(chain) && ConsistentCatalog(catalog) && History(chain, worlds)
    requires Beginning(chain, catalog, worlds[0]) && k < |worlds|
    ensures Invariant(chain, catalog, worlds[k].ranges, worlds[k].holders)
    ensures forall i :: 0 <= i < |worlds[k].runs| && worlds[k].runs[i].phase.Returned? ==>
              ExactMembers(chain, worlds[k].holders, worlds[k].runs[i].token, worlds[k].runs[i].anchor)
  {
    HistoryKnows(chain, catalog, worlds, k);
    var w := worlds[k];
    forall i | 0 <= i < |w.runs| && w.runs[i].phase.Returned?
      ensures ExactMembers(chain, w.holders, w.runs[i].token, w.runs[i].anchor)
    {
      assert Knows(chain, catalog, w.runs[i], w.ranges, w.holders);
      MembersExact(chain, catalog, w.ranges, w.holders, w.runs[i].token, w.runs[i].anchor);
    }
  }

  lemma {:induction false} HistoryKnows(chain: Chain, catalog: set<Token>, worlds: seq<World>, k: nat)
    requires WellFormedChain(chain) && ConsistentCatalog(catalog) && History(chain, worlds)
    requires Beginning(chain, catalog, worlds[0]) && k < |worlds|
    ensures AllKnow(chain, catalog, worlds[k])
  {
    if k > 0 {
      HistoryKnows(chain, catalog, worlds, k - 1);
      StepKeeps(chain, catalog, worlds[k - 1], worlds[k]);
    }
  }
}
