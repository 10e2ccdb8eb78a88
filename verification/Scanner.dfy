/** The strict log scanner: a work list of block ranges, each split until its answer is provably complete. */
module Scanner {
  import opened Wrappers
  import opened Sorting
  import opened Intervals
  import opened Logs

  /** One entry of an eth_getLogs answer; `Malformed` stands for any failed shape check. */
  datatype RawEntry = Malformed | Entry(log: Log, removed: bool)

  datatype Answer =
    | ProviderLimit
    | Failure
    | NotAnArray
    | Entries(raw: seq<RawEntry>, endpoint: nat)

  /** What the provider answers to the k-th request for a range. */
  type Provider = (nat, BlockRange) -> Answer

  datatype ScanError = RangeFailed | BadResponse | Conflict | UncoveredRanges

  datatype CompletedRange = CompletedRange(range: BlockRange, logCount: nat, endpoint: nat)

  datatype Scan = Scan(completed: seq<CompletedRange>, logs: seq<Log>)

  function Ranges(completed: seq<CompletedRange>): (rs: seq<BlockRange>)
    ensures |rs| == |completed|
    ensures forall i :: 0 <= i < |rs| ==> rs[i] == completed[i].range
  {
    if completed == [] then [] else [completed[0].range] + Ranges(completed[1..])
  }

  predicate CompletedLe(a: CompletedRange, b: CompletedRange) {
    RangeLe(a.range, b.range)
  }

  predicate Acceptable(raw: RawEntry, filter: LogFilter, range: BlockRange) {
    raw.Entry? && !raw.removed && raw.log.topics != [] && filter.Matches(raw.log) && range.Has(raw.log.block)
  }

  function ParseLog(raw: RawEntry, filter: LogFilter, range: BlockRange): Option<Log> {
    if Acceptable(raw, filter, range) then Some(raw.log) else None
  }

  method ParseAll(raw: seq<RawEntry>, filter: LogFilter, range: BlockRange) returns (r: Result<seq<Log>, ScanError>)
    ensures r.Ok? <==> forall e :: e in raw ==> Acceptable(e, filter, range)
    ensures r.Ok? ==> |r.value| == |raw| && forall i :: 0 <= i < |raw| ==> raw[i].Entry? && r.value[i] == raw[i].log
    ensures r.Err? ==> r.error == BadResponse
  {
    var parsed := [];
    for i := 0 to |raw|
      invariant |parsed| == i
      invariant forall j :: 0 <= j < i ==> Acceptable(raw[j], filter, range) && parsed[j] == raw[j].log
    {
      var one := ParseLog(raw[i], filter, range);
      if one.None? {
        return Err(BadResponse);
      }
      parsed := parsed + [one.value];
    }
    return Ok(parsed);
  }

  ghost predicate UniqueIdentities(logs: seq<Log>) {
    forall l, l' :: l in logs && l' in logs && l.Identity() == l'.Identity() ==> l == l'
  }

  /** Drops exact duplicates and refuses two different logs under one identity. */
  method Deduplicate(logs: seq<Log>) returns (r: Result<seq<Log>, ScanError>)
    ensures r.Ok? <==> UniqueIdentities(logs)
    ensures r.Ok? ==> SortedBy(r.value, LogLe) && Distinct(r.value)
    ensures r.Ok? ==> forall l :: l in r.value <==> l in logs
    ensures r.Err? ==> r.error == Conflict
  {
    var byIdentity: map<(Word, Word, nat), Log> := map[];
    var values: seq<Log> := [];
    for i := 0 to |logs|
      invariant forall l :: l in values <==> l in logs[..i]
      invariant forall l :: l in values ==> l.Identity() in byIdentity && byIdentity[l.Identity()] == l
      invariant forall id :: id in byIdentity ==> byIdentity[id] in values
      invariant forall id :: id in byIdentity ==> byIdentity[id].Identity() == id
      invariant Distinct(values)
    {
      var log := logs[i];
      assert logs[..i + 1] == logs[..i] + [log];
      if log.Identity() in byIdentity {
        if byIdentity[log.Identity()] != log {
          assert byIdentity[log.Identity()] in logs && log in logs;
          return Err(Conflict);
        }
      } else {
        values := values + [log];
      }
      byIdentity := byIdentity[log.Identity() := log];
    }
    assert logs[..|logs|] == logs;
    var sorted := Sort(values, LogLe);
    SortCorrect(values, LogLe);
    DistinctMultiset(values, sorted);
    return Ok(sorted);
  }

  // ---- the work list -------------------------------------------------------------------

  /** The stack of pending ranges tiles [lo, hi), lowest range on top. */
  ghost predicate StackTiles(stack: seq<BlockRange>, lo: int, hi: int) {
    if stack == [] then
      lo == hi
    else
      var top := |stack| - 1;
      stack[top].start == lo && StackTiles(stack[..top], stack[top].end, hi)
  }

  function Reversed<T>(s: seq<T>): seq<T> {
    if s == [] then [] else Reversed(s[1..]) + [s[0]]
  }

  lemma {:induction false} ReversedTiles(rs: seq<BlockRange>, lo: int, hi: int)
    requires Tiles(rs, lo, hi)
    ensures StackTiles(Reversed(rs), lo, hi)
  {
    if rs != [] {
      ReversedTiles(rs[1..], rs[0].end, hi);
      var stack := Reversed(rs);
      assert stack[..|stack| - 1] == Reversed(rs[1..]);
    }
  }

  lemma {:induction false} StackLe(stack: seq<BlockRange>, lo: int, hi: int)
    requires StackTiles(stack, lo, hi)
    ensures lo <= hi
  {
    if stack != [] {
      StackLe(stack[..|stack| - 1], stack[|stack| - 1].end, hi);
    }
  }

  /** Requests still possible: a range of n blocks costs at most 2n - 1 of them. */
  function Budget(stack: seq<BlockRange>): nat {
    if stack == [] then 0 else Budget(stack[..|stack| - 1]) + 2 * stack[|stack| - 1].Size() - 1
  }

  lemma {:induction false} BudgetOfTiling(stack: seq<BlockRange>, lo: int, hi: int)
    requires StackTiles(stack, lo, hi)
    ensures Budget(stack) == 2 * (hi - lo) - |stack|
  {
    if stack != [] {
      BudgetOfTiling(stack[..|stack| - 1], stack[|stack| - 1].end, hi);
    }
  }

  method InitialChunks(requested: BlockRange, chunkSize: nat) returns (pending: seq<BlockRange>)
    requires chunkSize >= 1
    ensures Tiles(pending, requested.start, requested.end) && pending != []
    ensures forall r :: r in pending ==> r.Size() <= chunkSize
  {
    pending := [];
    var cursor := requested.start;
    while cursor < requested.end
      invariant requested.start <= cursor <= requested.end
      invariant Tiles(pending, requested.start, cursor)
      invariant forall r :: r in pending ==> r.Size() <= chunkSize
    {
      var chunkEnd := if cursor + chunkSize < requested.end then cursor + chunkSize else requested.end;
      TilesAppend(pending, requested.start, Range(cursor, chunkEnd));
      pending := pending + [Range(cursor, chunkEnd)];
      cursor := chunkEnd;
    }
  }

  // ---- what an answer is worth ---------------------------------------------------------

  /** The completeness assumption: an answer shorter than the cap lists exactly the logs of the range
      that match the filter, in any order and possibly repeated. */
  ghost predicate Honest(provider: Provider, chain: Chain, filter: LogFilter, cap: nat) {
    forall k: nat, r: BlockRange ::
      var a := provider(k, r);
      a.Entries? && |a.raw| < cap ==>
        && (forall e :: e in a.raw ==> e.Entry? && !e.removed && OnChain(chain, filter, r.start, r.end, e.log))
        && (forall l :: OnChain(chain, filter, r.start, r.end, l) ==> Entry(l, false) in a.raw)
  }

  /** A provider that may refuse or truncate any larger range but always serves a single block. */
  ghost predicate ServesSingleBlocks(provider: Provider, cap: nat) {
    forall k: nat, r: BlockRange ::
      && (provider(k, r).ProviderLimit? || provider(k, r).Entries?)
      && (r.Size() == 1 ==> provider(k, r).Entries? && |provider(k, r).raw| < cap)
  }

  /** Some request among the first `calls` returned this completed range below the cap. */
  ghost predicate Witnessed(provider: Provider, calls: nat, cap: nat, filter: LogFilter, c: CompletedRange) {
    exists k: nat :: k < calls && Justifies(provider(k, c.range), cap, filter, c)
  }

  ghost predicate Justifies(a: Answer, cap: nat, filter: LogFilter, c: CompletedRange) {
    && a.Entries? && |a.raw| < cap && |a.raw| == c.logCount && a.endpoint == c.endpoint
    && forall e :: e in a.raw ==> Acceptable(e, filter, c.range)
  }

  ghost predicate ExactLogs(logs: seq<Log>, chain: Chain, filter: LogFilter, lo: int, hi: int) {
    forall l :: l in logs <==> OnChain(chain, filter, lo, hi, l)
  }

  lemma {:induction false} ExactLogsExtend(logs: seq<Log>, more: seq<Log>, chain: Chain, filter: LogFilter, lo: int,
      mid: int, hi: int)
    requires lo <= mid <= hi
    requires ExactLogs(logs, chain, filter, lo, mid) && ExactLogs(more, chain, filter, mid, hi)
    ensures ExactLogs(logs + more, chain, filter, lo, hi)
  {
  }

  lemma {:induction false} HonestAcceptable(provider: Provider, chain: Chain, filter: LogFilter, cap: nat, k: nat,
      r: BlockRange)
    requires Honest(provider, chain, filter, cap) && WellFormedChain(chain)
    requires provider(k, r).Entries? && |provider(k, r).raw| < cap
    ensures forall e :: e in provider(k, r).raw ==> Acceptable(e, filter, r)
  {
  }

  /** Parsing an honest answer loses nothing and adds nothing. */
  lemma {:induction false} HonestAnswerExact(provider: Provider, chain: Chain, filter: LogFilter, cap: nat, k: nat,
      r: BlockRange, parsed: seq<Log>)
    requires Honest(provider, chain, filter, cap) && WellFormedChain(chain)
    requires provider(k, r).Entries? && |provider(k, r).raw| < cap
    requires |parsed| == |provider(k, r).raw|
    requires forall i :: 0 <= i < |parsed| && provider(k, r).raw[i].Entry? ==> parsed[i] == provider(k, r).raw[i].log
    ensures ExactLogs(parsed, chain, filter, r.start, r.end)
  {
    var raw := provider(k, r).raw;
    forall l | OnChain(chain, filter, r.start, r.end, l) ensures l in parsed {
      assert Entry(l, false) in raw;
      var i :| 0 <= i < |raw| && raw[i] == Entry(l, false);
      assert parsed[i] == l;
    }
    forall l | l in parsed ensures OnChain(chain, filter, r.start, r.end, l) {
      var i :| 0 <= i < |parsed| && parsed[i] == l;
      assert raw[i] in raw;
    }
  }

  lemma {:induction false} ExactLogsUnique(logs: seq<Log>, chain: Chain, filter: LogFilter, lo: int, hi: int)
    requires WellFormedChain(chain) && ExactLogs(logs, chain, filter, lo, hi)
    ensures UniqueIdentities(logs)
  {
  }

  // ---- the scan ------------------------------------------------------------------------

  /** Everything that holds between two requests of a scan. */
  ghost predicate ScanInvariant(provider: Provider, cap: nat, filter: LogFilter, requested: BlockRange, frontier: int,
                                calls: nat, completed: seq<CompletedRange>, logs: seq<Log>) {
    && Tiles(Ranges(completed), requested.start, frontier)
    && (forall c :: c in completed ==> Witnessed(provider, calls, cap, filter, c))
    && (forall l :: l in logs ==> filter.Matches(l) && requested.start <= l.block < frontier)
  }

  /** Accepting one answer keeps the invariant and moves the frontier past its range. */
  lemma {:induction false} ScanStep(provider: Provider, cap: nat, filter: LogFilter, requested: BlockRange, calls: nat,
                 completed: seq<CompletedRange>, logs: seq<Log>, c: CompletedRange, parsed: seq<Log>)
    requires ScanInvariant(provider, cap, filter, requested, c.range.start, calls, completed, logs)
    requires requested.start <= c.range.start
    requires Justifies(provider(calls, c.range), cap, filter, c)
    requires |parsed| == |provider(calls, c.range).raw|
    requires forall i :: 0 <= i < |parsed| && provider(calls, c.range).raw[i].Entry? ==>
                           parsed[i] == provider(calls, c.range).raw[i].log
    ensures ScanInvariant(provider, cap, filter, requested, c.range.end, calls + 1, completed + [c], logs + parsed)
  {
    TilesAppend(Ranges(completed), requested.start, c.range);
    assert Ranges(completed + [c]) == Ranges(completed) + [c.range];
    forall d | d in completed + [c] ensures Witnessed(provider, calls + 1, cap, filter, d) {
      if d in completed {
        assert Witnessed(provider, calls, cap, filter, d);
        var k: nat :| k < calls && Justifies(provider(k, d.range), cap, filter, d);
      } else {
        assert Justifies(provider(calls, d.range), cap, filter, d);
      }
    }
    forall l | l in parsed ensures filter.Matches(l) && c.range.Has(l.block) {
      var i :| 0 <= i < |parsed| && parsed[i] == l;
      assert provider(calls, c.range).raw[i] in provider(calls, c.range).raw;
    }
  }

  lemma {:induction false} MoreCalls(provider: Provider, cap: nat, filter: LogFilter, requested: BlockRange,
      frontier: int, calls: nat, completed: seq<CompletedRange>, logs: seq<Log>)
    requires ScanInvariant(provider, cap, filter, requested, frontier, calls, completed, logs)
    ensures ScanInvariant(provider, cap, filter, requested, frontier, calls + 1, completed, logs)
  {
    forall c | c in completed ensures Witnessed(provider, calls + 1, cap, filter, c) {
      assert Witnessed(provider, calls, cap, filter, c);
      var k: nat :| k < calls && Justifies(provider(k, c.range), cap, filter, c);
    }
  }

  lemma {:induction false} NoGapsInTiling(requested: BlockRange, completed: seq<CompletedRange>, gaps: seq<BlockRange>)
    requires Tiles(Ranges(completed), requested.start, requested.end)
    requires forall b :: Covered(gaps, b) <==> requested.Has(b) && !Covered(Ranges(completed), b)
    ensures gaps == []
  {
    TilesPartition(Ranges(completed), requested.start, requested.end);
    if gaps != [] {
      var b := gaps[0].start;
      assert !Covered(gaps, b);
      assert gaps[0].Has(b);
    }
  }

  datatype Outcome = Halve | Complete(done: CompletedRange, logs: seq<Log>) | Fail(error: ScanError)

  /** One request: a limit or a full answer asks for a split, a malformed one fails the scan. */
  method ReadRange(provider: Provider, k: nat, cap: nat, filter: LogFilter, range: BlockRange, ghost chain: Chain)
    returns (o: Outcome)
    ensures o.Halve? ==> range.Size() >= 2
    ensures o.Complete? ==>
              && o.done.range == range && Justifies(provider(k, range), cap, filter, o.done)
              && |o.logs| == |provider(k, range).raw|
              && forall i :: 0 <= i < |o.logs| && provider(k, range).raw[i].Entry? ==>
                   o.logs[i] == provider(k, range).raw[i].log
    ensures o.Complete? && Honest(provider, chain, filter, cap) && WellFormedChain(chain) ==>
              ExactLogs(o.logs, chain, filter, range.start, range.end)
    ensures Honest(provider, chain, filter, cap) && WellFormedChain(chain) && ServesSingleBlocks(provider, cap) ==>
              !o.Fail?
    ensures o.Fail? ==> o.error == RangeFailed || o.error == BadResponse
  {
    var answer := provider(k, range);
    if answer.ProviderLimit? || (answer.Entries? && |answer.raw| >= cap) {
      return if range.Size() == 1 then Fail(RangeFailed) else Halve;
    }
    if answer.Failure? {
      return Fail(RangeFailed);
    }
    if answer.NotAnArray? {
      return Fail(BadResponse);
    }
    if Honest(provider, chain, filter, cap) && WellFormedChain(chain) {
      HonestAcceptable(provider, chain, filter, cap, k, range);
    }
    var parsed := ParseAll(answer.raw, filter, range);
    if parsed.Err? {
      return Fail(parsed.error);
    }
    if Honest(provider, chain, filter, cap) && WellFormedChain(chain) {
      HonestAnswerExact(provider, chain, filter, cap, k, range, parsed.value);
    }
    return Complete(CompletedRange(range, |parsed.value|, answer.endpoint), parsed.value);
  }

  /** A scan that returns has tiled its request with answers below the cap and kept the matching logs
      sorted and once each. Over an honest provider they are exactly the chain's logs; over one that
      serves single blocks the scan does return. The final gap check never fires, and the number of
      requests stays below twice the number of blocks. */
  method ScanFilter(provider: Provider, chunkSize: nat, cap: nat, filter: LogFilter, requested: BlockRange,
                    ghost chain: Chain)
    returns (r: Result<Scan, ScanError>, calls: nat)
    requires chunkSize >= 1 && cap >= 1
    ensures r != Err(UncoveredRanges)
    ensures calls < 2 * requested.Size()
    ensures r.Ok? ==> Tiles(Ranges(r.value.completed), requested.start, requested.end)
    ensures r.Ok? ==> forall c :: c in r.value.completed ==> Witnessed(provider, calls, cap, filter, c)
    ensures r.Ok? ==> SortedBy(r.value.logs, LogLe) && Distinct(r.value.logs)
    ensures r.Ok? ==> forall l :: l in r.value.logs ==> filter.Matches(l) && requested.Has(l.block)
    ensures r.Ok? && Honest(provider, chain, filter, cap) && WellFormedChain(chain) ==>
              ExactLogs(r.value.logs, chain, filter, requested.start, requested.end)
    ensures Honest(provider, chain, filter, cap) && WellFormedChain(chain) && ServesSingleBlocks(provider, cap) ==>
              r.Ok?
  {
    var chunks := InitialChunks(requested, chunkSize);
    var pending := Reversed(chunks);
    ReversedTiles(chunks, requested.start, requested.end);
    BudgetOfTiling(pending, requested.start, requested.end);
    var completed: seq<CompletedRange> := [];
    var logs: seq<Log> := [];
    calls := 0;
    ghost var honest := Honest(provider, chain, filter, cap) && WellFormedChain(chain);
    ghost var frontier: int := requested.start;
    while pending != []
      invariant requested.start <= frontier <= requested.end
      invariant StackTiles(pending, frontier, requested.end)
      invariant ScanInvariant(provider, cap, filter, requested, frontier, calls, completed, logs)
      invariant honest ==> ExactLogs(logs, chain, filter, requested.start, frontier)
      invariant calls + Budget(pending) < 2 * requested.Size()
      decreases Budget(pending)
    {
      var top := |pending| - 1;
      var range := pending[top];
      var rest := pending[..top];
      StackLe(rest, range.end, requested.end);
      BudgetOfTiling(pending, range.start, requested.end);
      BudgetOfTiling(rest, range.end, requested.end);
      var outcome := ReadRange(provider, calls, cap, filter, range, chain);
      match outcome {
        case Fail(error) =>
          return Err(error), calls + 1;
        case Halve =>
          MoreCalls(provider, cap, filter, requested, frontier, calls, completed, logs);
          pending := SplitTop(pending, requested.end);
        case Complete(done, parsed) =>
          ScanStep(provider, cap, filter, requested, calls, completed, logs, done, parsed);
          if honest {
            ExactLogsExtend(logs, parsed, chain, filter, requested.start, range.start, range.end);
          }
          logs := logs + parsed;
          completed := completed + [done];
          pending := rest;
          frontier := range.end;
      }
      calls := calls + 1;
    }
    r := FinishScan(requested, completed, logs);
    if honest {
      ExactLogsUnique(logs, chain, filter, requested.start, requested.end);
    }
  }

  /** Replaces the top range by its two halves, lower half on top. */
  method SplitTop(pending: seq<BlockRange>, ghost hi: int) returns (next: seq<BlockRange>)
    requires pending != [] && pending[|pending| - 1].Size() >= 2
    requires StackTiles(pending, pending[|pending| - 1].start, hi)
    ensures StackTiles(next, pending[|pending| - 1].start, hi)
    ensures Budget(next) == Budget(pending) - 1
  {
    var top := |pending| - 1;
    var rest := pending[..top];
    var halves := Split(pending[top]);
    next := rest + [halves.1, halves.0];
    assert next[..top + 1] == rest + [halves.1];
    assert (rest + [halves.1])[..top] == rest;
    BudgetOfTiling(pending, pending[top].start, hi);
    BudgetOfTiling(next, pending[top].start, hi);
  }

  /** The end of a scan: order the ranges, check for gaps, drop duplicate logs. */
  method FinishScan(requested: BlockRange, completed: seq<CompletedRange>, logs: seq<Log>)
    returns (r: Result<Scan, ScanError>)
    requires Tiles(Ranges(completed), requested.start, requested.end)
    ensures r.Ok? <==> UniqueIdentities(logs)
    ensures r.Err? ==> r.error == Conflict
    ensures r.Ok? ==> r.value.completed == completed
    ensures r.Ok? ==> SortedBy(r.value.logs, LogLe) && Distinct(r.value.logs)
    ensures r.Ok? ==> forall l :: l in r.value.logs <==> l in logs
  {
    TilesPartition(Ranges(completed), requested.start, requested.end);
    assert SortedBy(completed, CompletedLe) by {
      forall i, j | 0 <= i < j < |completed| ensures CompletedLe(completed[i], completed[j]) {
        assert Ranges(completed)[i].end <= Ranges(completed)[j].start;
      }
    }
    SortOfSorted(completed, CompletedLe);
    var ordered := Sort(completed, CompletedLe);
    var gaps := CoverageGaps(requested, Ranges(ordered));
    NoGapsInTiling(requested, completed, gaps);
    if gaps != [] {
      return Err(UncoveredRanges);
    }
    var unique := Deduplicate(logs);
    if unique.Err? {
      return Err(unique.error);
    }
    return Ok(Scan(ordered, unique.value));
  }
}
