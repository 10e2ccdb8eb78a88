/** Event discovery into an append-only store, with a crash possible around every store call. */
module Discovery {
  import opened Wrappers
  import opened SortedSets
  import opened Intervals
  import opened Logs
  import opened Scanner

  datatype Event = Event(topic0: Word, holderTopics: seq<nat>, name: string)

  datatype Token = Token(address: Address, deploymentBlock: nat, includeZero: bool, events: seq<Event>)

  /** A row of `discovery_ranges`; rows of failed scans are kept but never count as coverage. */
  datatype RangeRow = RangeRow(token: Address, topic0: Word, range: BlockRange, completed: bool)

  /** A row of `holder_universe`, keyed by token, holder and event. */
  datatype HolderRow = HolderRow(token: Address, holder: Address, event: string,
                                 firstSeen: nat, lastSeen: nat, observations: nat)

  datatype DiscoveryError = EmptyRange | ScanFailed(cause: ScanError) | BadHolderTopic | StoreFailed

  /** A store call succeeds, fails without effect, or takes effect and then reports a failure. */
  datatype Fault = NoFault | LostRequest | LostReply

  /** What the provider answers to the k-th request, for a filter and a range. */
  type Rpc = (nat, LogFilter, BlockRange) -> Answer

  function Fixed(rpc: Rpc, filter: LogFilter, base: nat): Provider {
    (k: nat, r: BlockRange) => rpc(base + k, filter, r)
  }

  function EventFilter(t: Token, e: Event): LogFilter {
    LogFilter(Some(t.address), [Some([e.topic0])])
  }

  // ---- what the store says about the chain ------------------------------------------------

  /** `who` stands in a configured topic of a log of this event in block `b`. */
  ghost predicate Appears(chain: Chain, t: Token, e: Event, who: Address, b: nat) {
    exists l :: l in chain(b) && EventFilter(t, e).Matches(l) && Mentions(l, e.holderTopics, t.includeZero, who)
  }

  ghost predicate CoveredBy(ranges: seq<RangeRow>, token: Address, topic0: Word, b: int) {
    exists row :: row in ranges && Claims(row, token, topic0, b)
  }

  /** Every event of the token is covered from deployment through the anchor. */
  ghost predicate FullyCovered(ranges: seq<RangeRow>, t: Token, anchor: nat) {
    forall e, b: nat :: e in t.events && t.deploymentBlock <= b <= anchor ==> CoveredBy(ranges, t.address, e.topic0, b)
  }

  ghost predicate Claims(row: RangeRow, token: Address, topic0: Word, b: int) {
    row.completed && row.token == token && row.topic0 == topic0 && row.range.Has(b)
  }

  ghost predicate Stored(holders: seq<HolderRow>, token: Address, who: Address, event: string, b: int) {
    exists row :: row in holders && row.token == token && row.holder == who && row.event == event && row.firstSeen <= b
  }

  ghost predicate HasEvidence(chain: Chain, t: Token, row: HolderRow) {
    exists e :: e in t.events && e.name == row.event && t.deploymentBlock <= row.firstSeen &&
                Appears(chain, t, e, row.holder, row.firstSeen)
  }

  /** Each stored holder was seen in a log at its first-seen block. */
  ghost predicate SoundHolders(chain: Chain, catalog: set<Token>, holders: seq<HolderRow>) {
    forall row, t :: row in holders && t in catalog && row.token == t.address ==> HasEvidence(chain, t, row)
  }

  /** Each block under a completed marker has the holders of all its matching logs stored. */
  ghost predicate CoverageJustified(chain: Chain, catalog: set<Token>, ranges: seq<RangeRow>, holders: seq<HolderRow>) {
    forall row, t, e, who: Address, b: nat ::
      row in ranges && t in catalog && e in t.events && Claims(row, t.address, e.topic0, b) &&
      Appears(chain, t, e, who, b) ==>
        Stored(holders, t.address, who, e.name, b)
  }

  ghost predicate Invariant(chain: Chain, catalog: set<Token>, ranges: seq<RangeRow>, holders: seq<HolderRow>) {
    SoundHolders(chain, catalog, holders) && CoverageJustified(chain, catalog, ranges, holders)
  }

  /** One configuration per token, and one per event topic of a token. */
  ghost predicate ConsistentCatalog(catalog: set<Token>) {
    && (forall t, t' :: t in catalog && t' in catalog && t.address == t'.address ==> t == t')
    && (forall t, e, e' :: t in catalog && e in t.events && e' in t.events && e.topic0 == e'.topic0 ==> e == e')
  }

  /** Every address that `e'` looks for in a log of the shared topic, `e` finds too. */
  ghost predicate Serves(t: Token, e: Event, e': Event) {
    forall l, who: Address :: EventFilter(t, e).Matches(l) && Mentions(l, e'.holderTopics, t.includeZero, who) ==>
      Mentions(l, e.holderTopics, t.includeZero, who)
  }

  /** Coverage is stored per topic, not per event, so a scan for one event also stands for any other with
      the same topic. It serves that other event exactly when it looks at all its topic positions: hence
      one configuration per topic in a consistent catalog. */
  lemma {:induction false} SharedTopicIff(t: Token, e: Event, e': Event)
    ensures Serves(t, e, e') <==> forall p :: p in e'.holderTopics && p >= 1 ==> p in e.holderTopics
  {
    if p :| p in e'.holderTopics && p >= 1 && p !in e.holderTopics {
      var l := Log(t.address, seq(p + 1, k => if k == 0 then e.topic0 else if k == p then 1 else 2), [], 0, 0, 0, 0, 0);
      assert EventFilter(t, e).Matches(l);
      var i :| 0 <= i < |e'.holderTopics| && e'.holderTopics[i] == p;
      assert l.topics[e'.holderTopics[i]] == 1;
      assert Mentions(l, e'.holderTopics, t.includeZero, 1);
      assert !Mentions(l, e.holderTopics, t.includeZero, 1);
    }
    if forall p :: p in e'.holderTopics && p >= 1 ==> p in e.holderTopics {
      forall l, who: Address | Mentions(l, e'.holderTopics, t.includeZero, who)
        ensures Mentions(l, e.holderTopics, t.includeZero, who)
      {
        var i :| 0 <= i < |e'.holderTopics| && 1 <= e'.holderTopics[i] < |l.topics| &&
            l.topics[e'.holderTopics[i]] == who;
        var p := e'.holderTopics[i];
        assert p in e'.holderTopics && p in e.holderTopics;
        var j :| 0 <= j < |e.holderTopics| && e.holderTopics[j] == p;
        assert l.topics[e.holderTopics[j]] == who;
      }
    }
  }

  /** The assumptions about the world: a well-formed chain, and complete answers below the cap. */
  ghost predicate Trusted(rpc: Rpc, cap: nat, chain: Chain, catalog: set<Token>) {
    && WellFormedChain(chain)
    && forall t, e :: t in catalog && e in t.events ==>
         Honest(Fixed(rpc, EventFilter(t, e), 0), chain, EventFilter(t, e), cap)
  }

  lemma {:induction false} HonestFrom(rpc: Rpc, chain: Chain, filter: LogFilter, cap: nat, base: nat)
    requires Honest(Fixed(rpc, filter, 0), chain, filter, cap)
    ensures Honest(Fixed(rpc, filter, base), chain, filter, cap)
  {
    forall k: nat, r: BlockRange
      ensures Fixed(rpc, filter, base)(k, r) == Fixed(rpc, filter, 0)(base + k, r)
    {
    }
  }

  lemma {:induction false} ServesFrom(rpc: Rpc, filter: LogFilter, cap: nat, base: nat)
    requires ServesSingleBlocks(Fixed(rpc, filter, 0), cap)
    ensures ServesSingleBlocks(Fixed(rpc, filter, base), cap)
  {
    forall k: nat, r: BlockRange
      ensures Fixed(rpc, filter, base)(k, r) == Fixed(rpc, filter, 0)(base + k, r)
    {
    }
  }

  /** The provider answers completely below the cap and serves every single block, the holder positions make
      sense, and every log of the event can be read. */
  ghost predicate EventServed(rpc: Rpc, cap: nat, chain: Chain, t: Token, e: Event) {
    && Honest(Fixed(rpc, EventFilter(t, e), 0), chain, EventFilter(t, e), cap)
    && ServesSingleBlocks(Fixed(rpc, EventFilter(t, e), 0), cap)
    && e.holderTopics != [] && 0 !in e.holderTopics
    && forall b: nat, l :: l in chain(b) && EventFilter(t, e).Matches(l) ==>
         Holders(l, e.holderTopics, t.includeZero).Some?
  }

  ghost predicate TokenServed(rpc: Rpc, cap: nat, chain: Chain, t: Token) {
    WellFormedChain(chain) && forall e :: e in t.events ==> EventServed(rpc, cap, chain, t, e)
  }

  // ---- reading the store back ---------------------------------------------------------------

  function CompletedFor(ranges: seq<RangeRow>, token: Address, topic0: Word): (rs: seq<BlockRange>)
    ensures forall b :: Covered(rs, b) <==> CoveredBy(ranges, token, topic0, b)
  {
    if ranges == [] then
      []
    else
      var last := ranges[|ranges| - 1];
      var front := CompletedFor(ranges[..|ranges| - 1], token, topic0);
      var rs := if last.completed && last.token == token && last.topic0 == topic0 then front + [last.range] else front;
      assert forall b :: Covered(rs, b) <==> CoveredBy(ranges, token, topic0, b) by {
        forall b ensures Covered(rs, b) <==> CoveredBy(ranges, token, topic0, b) {
          CoveredBySplit(ranges, token, topic0, b);
          if rs != front {
            CoveredSplitLast(rs, b);
            assert rs[..|rs| - 1] == front;
          }
        }
      }
      rs
  }

  lemma {:induction false} CoveredBySplit(ranges: seq<RangeRow>, token: Address, topic0: Word, b: int)
    requires ranges != []
    ensures CoveredBy(ranges, token, topic0, b) <==>
            CoveredBy(ranges[..|ranges| - 1], token, topic0, b) || Claims(ranges[|ranges| - 1], token, topic0, b)
  {
    assert ranges == ranges[..|ranges| - 1] + [ranges[|ranges| - 1]];
  }

  lemma {:induction false} StoredSplit(holders: seq<HolderRow>, token: Address, who: Address, event: string, b: int)
    requires holders != []
    ensures var last := holders[|holders| - 1];
            Stored(holders, token, who, event, b) <==>
            Stored(holders[..|holders| - 1], token, who, event, b) ||
                (SameKey(last, token, who, event) && last.firstSeen <= b)
  {
    assert holders == holders[..|holders| - 1] + [holders[|holders| - 1]];
  }

  predicate SameKey(row: HolderRow, token: Address, who: Address, event: string) {
    row.token == token && row.holder == who && row.event == event
  }

  /** The merged `first_seen_block` of a key: the least of its rows. */
  function FirstSeen(holders: seq<HolderRow>, token: Address, who: Address, event: string): (first: Option<nat>)
    ensures forall b: nat :: (first.Some? && first.value <= b) <==> Stored(holders, token, who, event, b)
  {
    if holders == [] then
      None
    else
      var last := holders[|holders| - 1];
      var front := FirstSeen(holders[..|holders| - 1], token, who, event);
      assert forall b: nat :: Stored(holders, token, who, event, b) <==>
                              Stored(holders[..|holders| - 1], token, who, event, b) ||
                              (SameKey(last, token, who, event) && last.firstSeen <= b) by {
        forall b: nat { StoredSplit(holders, token, who, event, b); }
      }
      if !SameKey(last, token, who, event) then front
      else if front.Some? && front.value <= last.firstSeen then front
      else Some(last.firstSeen)
  }

  /** The members of a token's universe at an anchor, each with the events that showed it. */
  function HolderMembers(holders: seq<HolderRow>, token: Address, anchor: nat): set<(Address, string)> {
    set row | row in holders && row.token == token &&
              var first := FirstSeen(holders, token, row.holder, row.event); first.Some? && first.value <= anchor
      :: (row.holder, row.event)
  }

  /** Under the invariant, a fully covered token's members at an anchor are exactly the addresses that
      its logs from deployment through the anchor mention. */
  lemma {:induction false} MembersExact(chain: Chain, catalog: set<Token>, ranges: seq<RangeRow>,
      holders: seq<HolderRow>, t: Token, anchor: nat)
    requires Invariant(chain, catalog, ranges, holders) && t in catalog
    requires FullyCovered(ranges, t, anchor)
    ensures forall who: Address, name :: (who, name) in HolderMembers(holders, t.address, anchor) <==>
                                         Expected(chain, t, anchor, who, name)
  {
    forall who: Address, name
      ensures (who, name) in HolderMembers(holders, t.address, anchor) <==> Expected(chain, t, anchor, who, name)
    {
      if (who, name) in HolderMembers(holders, t.address, anchor) {
        assert Stored(holders, t.address, who, name, anchor);
        var row :| row in holders && row.token == t.address && row.holder == who && row.event == name &&
            row.firstSeen <= anchor;
        assert HasEvidence(chain, t, row);
        var e :| e in t.events && e.name == row.event && t.deploymentBlock <= row.firstSeen &&
                 Appears(chain, t, e, row.holder, row.firstSeen);
      }
      if Expected(chain, t, anchor, who, name) {
        var e, b: nat :| e in t.events && e.name == name && t.deploymentBlock <= b <= anchor &&
            Appears(chain, t, e, who, b);
        assert CoveredBy(ranges, t.address, e.topic0, b);
        var row :| row in ranges && Claims(row, t.address, e.topic0, b);
        assert Stored(holders, t.address, who, e.name, b);
        var stored :| stored in holders && stored.token == t.address && stored.holder == who && stored.event == name &&
            stored.firstSeen <= b;
        assert Stored(holders, t.address, who, name, anchor);
        assert FirstSeen(holders, t.address, stored.holder, stored.event).Some?;
      }
    }
  }

  /** A log of one of the token's events mentions `who` between deployment and the anchor. */
  ghost predicate Expected(chain: Chain, t: Token, anchor: nat, who: Address, name: string) {
    exists e, b: nat ::
      e in t.events && e.name == name && t.deploymentBlock <= b <= anchor && Appears(chain, t, e, who, b)
  }

  // ---- every write keeps the invariant --------------------------------------------------------

  lemma {:induction false} AppendHolders(chain: Chain, catalog: set<Token>, ranges: seq<RangeRow>,
      holders: seq<HolderRow>, rows: seq<HolderRow>)
    requires Invariant(chain, catalog, ranges, holders) && SoundHolders(chain, catalog, rows)
    ensures Invariant(chain, catalog, ranges, holders + rows)
  {
    forall row, t, e, who: Address, b: nat |
      row in ranges && t in catalog && e in t.events && Claims(row, t.address, e.topic0, b) &&
      Appears(chain, t, e, who, b)
      ensures Stored(holders + rows, t.address, who, e.name, b)
    {
      assert Stored(holders, t.address, who, e.name, b);
    }
  }

  lemma {:induction false} AppendRanges(chain: Chain, catalog: set<Token>, ranges: seq<RangeRow>,
      holders: seq<HolderRow>, rows: seq<RangeRow>)
    requires Invariant(chain, catalog, ranges, holders) && CoverageJustified(chain, catalog, rows, holders)
    ensures Invariant(chain, catalog, ranges + rows, holders)
  {
  }

  // ---- building the rows of one scan ------------------------------------------------------------

  function MinOf(blocks: seq<nat>): (m: nat)
    requires blocks != []
    ensures m in blocks && forall b :: b in blocks ==> m <= b
  {
    if |blocks| == 1 then blocks[0] else
      var rest := MinOf(blocks[1..]);
      assert blocks == [blocks[0]] + blocks[1..];
      if blocks[0] <= rest then blocks[0] else rest
  }

  function MaxOf(blocks: seq<nat>): (m: nat)
    requires blocks != []
    ensures m in blocks && forall b :: b in blocks ==> b <= m
  {
    if |blocks| == 1 then blocks[0] else
      var rest := MaxOf(blocks[1..]);
      assert blocks == [blocks[0]] + blocks[1..];
      if blocks[0] >= rest then blocks[0] else rest
  }

  type Observations = map<Address, seq<nat>>

  /** The observation table says exactly which holder stands in which block of the logs. */
  ghost predicate Observed(m: Observations, logs: seq<Log>, positions: seq<nat>, includeZero: bool) {
    && (forall h :: h in m ==> m[h] != [])
    && (forall h: Address, b: nat :: Noted(m, h, b) <==> SeenIn(logs, positions, includeZero, h, b))
  }

  ghost predicate Noted(m: Observations, h: Address, b: nat) {
    h in m && b in m[h]
  }

  ghost predicate SeenIn(logs: seq<Log>, positions: seq<nat>, includeZero: bool, h: Address, b: nat) {
    exists l :: l in logs && l.block == b && Mentions(l, positions, includeZero, h)
  }

  function Seen(m: Observations, h: Address): seq<nat> {
    if h in m then m[h] else []
  }

  /** The block once for every time the holder occurs. */
  function Occurrences(holders: seq<Address>, h: Address, block: nat): seq<nat> {
    if holders == [] then [] else
      Occurrences(holders[..|holders| - 1], h, block) + if holders[|holders| - 1] == h then [block] else []
  }

  /** The blocks in which the holder is mentioned, in log order, once per mention. */
  function Sightings(logs: seq<Log>, positions: seq<nat>, includeZero: bool, h: Address): seq<nat> {
    if logs == [] then [] else
      var last := logs[|logs| - 1];
      var holders := Holders(last, positions, includeZero);
      Sightings(logs[..|logs| - 1], positions, includeZero, h) +
      if holders.Some? then Occurrences(holders.value, h, last.block) else []
  }

  ghost predicate Tallied(m: Observations, logs: seq<Log>, positions: seq<nat>, includeZero: bool) {
    forall h: Address :: Seen(m, h) == Sightings(logs, positions, includeZero, h)
  }

  /** Every holder topic of the logs is an address. */
  ghost predicate Readable(logs: seq<Log>, positions: seq<nat>, includeZero: bool) {
    forall l :: l in logs ==> Holders(l, positions, includeZero).Some?
  }

  /** Each holder with the blocks of its mentions; nothing where a holder topic is malformed. */
  method Observe(logs: seq<Log>, positions: seq<nat>, includeZero: bool) returns (r: Option<Observations>)
    ensures r.Some? ==>
              Observed(r.value, logs, positions, includeZero) && Tallied(r.value, logs, positions, includeZero)
    ensures r.Some? <==> Readable(logs, positions, includeZero)
  {
    var m: Observations := map[];
    for i := 0 to |logs|
      invariant forall h :: h in m ==> m[h] != []
      invariant Tallied(m, logs[..i], positions, includeZero)
      invariant Readable(logs[..i], positions, includeZero)
    {
      var holders := Holders(logs[i], positions, includeZero);
      assert logs[i] in logs;
      if holders.None? {
        return None;
      }
      m := AddAll(m, holders.value, logs[i].block);
      assert logs[..i + 1] == logs[..i] + [logs[i]] && logs[..i + 1][..i] == logs[..i];
    }
    assert logs[..|logs|] == logs;
    TallyObserved(m, logs, positions, includeZero);
    return Some(m);
  }

  lemma {:induction false} SightedIff(logs: seq<Log>, positions: seq<nat>, includeZero: bool, h: Address, b: nat)
    requires Readable(logs, positions, includeZero)
    ensures b in Sightings(logs, positions, includeZero, h) <==> SeenIn(logs, positions, includeZero, h, b)
  {
    if logs != [] {
      var front, last := logs[..|logs| - 1], logs[|logs| - 1];
      assert logs == front + [last] && last in logs;
      SightedIff(front, positions, includeZero, h, b);
      OccursIff(Holders(last, positions, includeZero).value, h, last.block, b);
      HoldersExact(last, positions, includeZero);
      if SeenIn(front, positions, includeZero, h, b) {
        var l :| l in front && l.block == b && Mentions(l, positions, includeZero, h);
        assert l in logs;
      }
      if SeenIn(logs, positions, includeZero, h, b) {
        var l :| l in logs && l.block == b && Mentions(l, positions, includeZero, h);
        assert l in front || l == last;
      }
    }
  }

  lemma {:induction false} TallyObserved(m: Observations, logs: seq<Log>, positions: seq<nat>, includeZero: bool)
    requires Readable(logs, positions, includeZero) && Tallied(m, logs, positions, includeZero)
    requires forall h :: h in m ==> m[h] != []
    ensures Observed(m, logs, positions, includeZero)
  {
    forall h: Address, b: nat ensures Noted(m, h, b) <==> SeenIn(logs, positions, includeZero, h, b) {
      SightedIff(logs, positions, includeZero, h, b);
      assert Noted(m, h, b) <==> b in Seen(m, h);
    }
  }

  method AddAll(start: Observations, holders: seq<Address>, block: nat) returns (m: Observations)
    requires forall h :: h in start ==> start[h] != []
    ensures forall h :: h in m ==> m[h] != []
    ensures forall h: Address :: Seen(m, h) == Seen(start, h) + Occurrences(holders, h, block)
  {
    m := start;
    for i := 0 to |holders|
      invariant forall h :: h in m ==> m[h] != []
      invariant forall h: Address :: Seen(m, h) == Seen(start, h) + Occurrences(holders[..i], h, block)
    {
      ghost var before := m;
      m := m[holders[i] := Seen(m, holders[i]) + [block]];
      forall g: Address ensures Seen(m, g) == Seen(start, g) + Occurrences(holders[..i + 1], g, block) {
        SeenAfter(start, before, holders, i, block, g);
      }
    }
    assert holders[..|holders|] == holders;
  }

  lemma {:induction false} SeenAfter(start: Observations, m: Observations, holders: seq<Address>, i: nat, block: nat,
      g: Address)
    requires i < |holders| && Seen(m, g) == Seen(start, g) + Occurrences(holders[..i], g, block)
    ensures var h := holders[i];
            Seen(m[h := Seen(m, h) + [block]], g) == Seen(start, g) + Occurrences(holders[..i + 1], g, block)
  {
    assert holders[..i + 1][..i] == holders[..i];
  }

  lemma {:induction false} OccursIff(holders: seq<Address>, h: Address, block: nat, b: nat)
    ensures b in Occurrences(holders, h, block) <==> h in holders && b == block
  {
    if holders != [] {
      var front, last := holders[..|holders| - 1], holders[|holders| - 1];
      OccursIff(front, h, block, b);
      assert holders == front + [last];
    }
  }

  ghost predicate RowOf(row: HolderRow, token: Address, event: string, m: Observations) {
    && row.token == token && row.event == event && row.holder in m
    && row.firstSeen in m[row.holder] && row.lastSeen in m[row.holder] && row.observations == |m[row.holder]|
    && forall b :: b in m[row.holder] ==> row.firstSeen <= b <= row.lastSeen
  }

  function RowFor(token: Address, event: string, h: Address, m: Observations): (row: HolderRow)
    requires h in m && m[h] != []
    ensures RowOf(row, token, event, m) && row.holder == h
  {
    HolderRow(token, h, event, MinOf(m[h]), MaxOf(m[h]), |m[h]|)
  }

  method HolderRows(token: Address, event: string, m: Observations) returns (rows: seq<HolderRow>)
    requires forall h :: h in m ==> m[h] != []
    ensures |rows| == |m|
    ensures forall row :: row in rows ==> RowOf(row, token, event, m)
    ensures forall h :: h in m ==> exists row :: row in rows && row.holder == h
  {
    var holders := SortedSet(m.Keys);
    rows := [];
    for i := 0 to |holders|
      invariant |rows| == i
      invariant forall row :: row in rows ==> RowOf(row, token, event, m)
      invariant forall j :: 0 <= j < i ==> rows[j].holder == holders[j]
    {
      assert holders[i] in m.Keys;
      rows := rows + [RowFor(token, event, holders[i], m)];
    }
    forall h | h in m ensures exists row :: row in rows && row.holder == h {
      assert h in holders;
      var i :| 0 <= i < |holders| && holders[i] == h;
      assert rows[i] in rows;
    }
  }

  function RangeRows(t: Token, e: Event, completed: seq<CompletedRange>): (rows: seq<RangeRow>)
    ensures |rows| == |completed|
    ensures forall i :: 0 <= i < |rows| ==> rows[i] == RangeRow(t.address, e.topic0, completed[i].range, true)
  {
    if completed == [] then [] else
      [RangeRow(t.address, e.topic0, completed[0].range, true)] + RangeRows(t, e, completed[1..])
  }

  /** Holder rows built from the exact logs of a gap are sound. */
  lemma {:induction false} ScanRowsSound(chain: Chain, catalog: set<Token>, t: Token, e: Event, gap: BlockRange,
      logs: seq<Log>, m: Observations, rows: seq<HolderRow>)
    requires ConsistentCatalog(catalog) && t in catalog && e in t.events && t.deploymentBlock <= gap.start
    requires ExactLogs(logs, chain, EventFilter(t, e), gap.start, gap.end)
    requires Observed(m, logs, e.holderTopics, t.includeZero)
    requires forall row :: row in rows ==> RowOf(row, t.address, e.name, m)
    ensures SoundHolders(chain, catalog, rows)
  {
    forall row, t' | row in rows && t' in catalog && row.token == t'.address ensures HasEvidence(chain, t', row) {
      assert RowOf(row, t.address, e.name, m) && t' == t;
      assert Noted(m, row.holder, row.firstSeen);
      var l :| l in logs && l.block == row.firstSeen && Mentions(l, e.holderTopics, t.includeZero, row.holder);
      assert OnChain(chain, EventFilter(t, e), gap.start, gap.end, l);
      assert Appears(chain, t, e, row.holder, row.firstSeen);
    }
  }

  /** Once those rows are stored, the completed markers of the gap are justified. */
  lemma {:induction false} ScanRangesJustified(chain: Chain, catalog: set<Token>, t: Token, e: Event, gap: BlockRange,
      logs: seq<Log>, m: Observations, rows: seq<HolderRow>, holders: seq<HolderRow>, completed: seq<CompletedRange>)
    requires WellFormedChain(chain) && ConsistentCatalog(catalog) && t in catalog && e in t.events
    requires ExactLogs(logs, chain, EventFilter(t, e), gap.start, gap.end)
    requires Observed(m, logs, e.holderTopics, t.includeZero)
    requires forall row :: row in rows ==> RowOf(row, t.address, e.name, m)
    requires forall h :: h in m ==> exists row :: row in rows && row.holder == h
    requires forall row :: row in rows ==> row in holders
    requires Tiles(Ranges(completed), gap.start, gap.end)
    ensures CoverageJustified(chain, catalog, RangeRows(t, e, completed), holders)
  {
    var markers := RangeRows(t, e, completed);
    TilesPartition(Ranges(completed), gap.start, gap.end);
    forall marker, t', e', who: Address, b: nat |
      marker in markers && t' in catalog && e' in t'.events && Claims(marker, t'.address, e'.topic0, b) &&
      Appears(chain, t', e', who, b)
      ensures Stored(holders, t'.address, who, e'.name, b)
    {
      var i :| 0 <= i < |markers| && markers[i] == marker;
      assert t' == t && e' == e && Ranges(completed)[i].Has(b);
      var l :| l in chain(b) && EventFilter(t, e).Matches(l) && Mentions(l, e.holderTopics, t.includeZero, who);
      assert OnChain(chain, EventFilter(t, e), gap.start, gap.end, l);
      assert SeenIn(logs, e.holderTopics, t.includeZero, who, b);
      assert Noted(m, who, b);
      var row :| row in rows && row.holder == who;
      assert RowOf(row, t.address, e.name, m);
    }
  }

  /** What a successful scan of the gap hands to the store: holder rows of the exact logs, and markers that
      tile the gap. */
  ghost predicate ScanYields(chain: Chain, t: Token, e: Event, gap: BlockRange, rows: seq<HolderRow>,
      markers: seq<RangeRow>)
  {
    exists logs, m, completed :: ScanOf(chain, t, e, gap, rows, markers, logs, m, completed)
  }

  ghost predicate ScanOf(chain: Chain, t: Token, e: Event, gap: BlockRange, rows: seq<HolderRow>,
      markers: seq<RangeRow>, logs: seq<Log>, m: Observations, completed: seq<CompletedRange>)
  {
    && ExactLogs(logs, chain, EventFilter(t, e), gap.start, gap.end) && Observed(m, logs, e.holderTopics, t.includeZero)
    && (forall row :: row in rows ==> RowOf(row, t.address, e.name, m))
    && (forall h :: h in m ==> exists row :: row in rows && row.holder == h)
    && Tiles(Ranges(completed), gap.start, gap.end) && markers == RangeRows(t, e, completed)
  }

  /** Markers that tile the gap. */
  ghost predicate MarksGap(t: Token, e: Event, gap: BlockRange, markers: seq<RangeRow>) {
    exists completed :: Tiles(Ranges(completed), gap.start, gap.end) && markers == RangeRows(t, e, completed)
  }

  /** Storing the holders of a scanned gap keeps the invariant. */
  lemma {:induction false} StoreKeeps(chain: Chain, catalog: set<Token>, t: Token, e: Event, gap: BlockRange,
      ranges: seq<RangeRow>, holders: seq<HolderRow>, rows: seq<HolderRow>, markers: seq<RangeRow>)
    requires ConsistentCatalog(catalog) && Invariant(chain, catalog, ranges, holders)
    requires t in catalog && e in t.events && t.deploymentBlock <= gap.start
    requires ScanYields(chain, t, e, gap, rows, markers)
    ensures Invariant(chain, catalog, ranges, holders + rows)
  {
    var logs, m, completed :| ScanOf(chain, t, e, gap, rows, markers, logs, m, completed);
    ScanRowsSound(chain, catalog, t, e, gap, logs, m, rows);
    AppendHolders(chain, catalog, ranges, holders, rows);
  }

  /** So does marking it, once its holders are stored. */
  lemma {:induction false} MarkKeeps(chain: Chain, catalog: set<Token>, t: Token, e: Event, gap: BlockRange,
      ranges: seq<RangeRow>, holders: seq<HolderRow>, rows: seq<HolderRow>, markers: seq<RangeRow>)
    requires WellFormedChain(chain) && ConsistentCatalog(catalog) && Invariant(chain, catalog, ranges, holders)
    requires t in catalog && e in t.events && ScanYields(chain, t, e, gap, rows, markers)
    requires forall row :: row in rows ==> row in holders
    ensures Invariant(chain, catalog, ranges + markers, holders)
  {
    var logs, m, completed :| ScanOf(chain, t, e, gap, rows, markers, logs, m, completed);
    ScanRangesJustified(chain, catalog, t, e, gap, logs, m, rows, holders, completed);
    AppendRanges(chain, catalog, ranges, holders, markers);
  }

  lemma {:induction false} MarkersCover(t: Token, e: Event, gap: BlockRange, completed: seq<CompletedRange>, b: int)
    requires Tiles(Ranges(completed), gap.start, gap.end) && gap.Has(b)
    ensures CoveredBy(RangeRows(t, e, completed), t.address, e.topic0, b)
  {
    TilesPartition(Ranges(completed), gap.start, gap.end);
    assert Covered(Ranges(completed), b);
    var i :| 0 <= i < |Ranges(completed)| && Ranges(completed)[i].Has(b);
    assert RangeRows(t, e, completed)[i] in RangeRows(t, e, completed);
  }

  lemma {:induction false} CoveredByMono(ranges: seq<RangeRow>, more: seq<RangeRow>, token: Address, topic0: Word,
      b: int)
    requires CoveredBy(ranges, token, topic0, b) && ranges <= more
    ensures CoveredBy(more, token, topic0, b)
  {
    var row :| row in ranges && Claims(row, token, topic0, b);
    var i :| 0 <= i < |ranges| && ranges[i] == row;
    assert more[i] == row;
  }

  lemma {:induction false} ServedReadable(rpc: Rpc, cap: nat, chain: Chain, t: Token, e: Event, gap: BlockRange,
      logs: seq<Log>)
    requires EventServed(rpc, cap, chain, t, e) && ExactLogs(logs, chain, EventFilter(t, e), gap.start, gap.end)
    ensures Readable(logs, e.holderTopics, t.includeZero)
  {
    forall l | l in logs ensures Holders(l, e.holderTopics, t.includeZero).Some? {
      assert OnChain(chain, EventFilter(t, e), gap.start, gap.end, l);
    }
  }

  // ---- the store and the service ----------------------------------------------------------------

  class DiscoveryStore {
    var ranges: seq<RangeRow>
    var holders: seq<HolderRow>
    var calls: nat
    const faults: nat -> Fault

    constructor (faults: nat -> Fault)
      ensures ranges == [] && holders == [] && this.faults == faults
    {
      this.faults := faults;
      ranges, holders, calls := [], [], 0;
    }

    /** None of these calls met a fault. */
    ghost predicate Quiet(from: nat, to: nat) {
      forall k: nat :: from <= k < to ==> faults(k).NoFault?
    }

    method CompletedRanges(token: Address, topic0: Word) returns (r: Option<seq<BlockRange>>)
      modifies `calls
      ensures calls == old(calls) + 1 && (r.Some? <==> faults(old(calls)).NoFault?)
      ensures r.Some? ==> forall b :: Covered(r.value, b) <==> CoveredBy(ranges, token, topic0, b)
    {
      var fault := faults(calls);
      calls := calls + 1;
      return if fault.NoFault? then Some(CompletedFor(ranges, token, topic0)) else None;
    }

    method InsertHolders(rows: seq<HolderRow>) returns (ok: bool)
      modifies `calls, `holders
      ensures calls == old(calls) + 1 && (ok <==> faults(old(calls)).NoFault?)
      ensures holders == old(holders) || holders == old(holders) + rows
      ensures ok ==> holders == old(holders) + rows
    {
      var fault := faults(calls);
      calls := calls + 1;
      if !fault.LostRequest? {
        holders := holders + rows;
      }
      return fault.NoFault?;
    }

    method InsertRanges(rows: seq<RangeRow>) returns (ok: bool)
      modifies `calls, `ranges
      ensures calls == old(calls) + 1 && (ok <==> faults(old(calls)).NoFault?)
      ensures ranges == old(ranges) || ranges == old(ranges) + rows
      ensures ok ==> ranges == old(ranges) + rows
    {
      var fault := faults(calls);
      calls := calls + 1;
      if !fault.LostRequest? {
        ranges := ranges + rows;
      }
      return fault.NoFault?;
    }
  }

  class DiscoveryService {
    const store: DiscoveryStore
    const rpc: Rpc
    const chunkSize: nat
    const cap: nat
    var requests: nat

    constructor (store: DiscoveryStore, rpc: Rpc, chunkSize: nat, cap: nat)
      requires chunkSize >= 1 && cap >= 1
      ensures this.store == store && this.rpc == rpc && this.cap == cap && this.chunkSize == chunkSize
    {
      this.store, this.rpc, this.chunkSize, this.cap, requests := store, rpc, chunkSize, cap, 0;
    }

    /** The scan of one gap: its markers tile it and, for a trusted provider, its holder rows are those of
        the exact logs. */
    method Scan(t: Token, e: Event, gap: BlockRange, ghost chain: Chain, ghost catalog: set<Token>)
      returns (r: Result<(seq<HolderRow>, seq<RangeRow>), DiscoveryError>)
      requires chunkSize >= 1 && cap >= 1 && t in catalog && e in t.events
      modifies `requests
      ensures r.Ok? ==> MarksGap(t, e, gap, r.value.1)
      ensures r.Ok? && Trusted(rpc, cap, chain, catalog) ==> ScanYields(chain, t, e, gap, r.value.0, r.value.1)
      ensures WellFormedChain(chain) && EventServed(rpc, cap, chain, t, e) ==> r.Ok?
    {
      ghost var trusted := Trusted(rpc, cap, chain, catalog);
      ghost var served := WellFormedChain(chain) && EventServed(rpc, cap, chain, t, e);
      var filter := EventFilter(t, e);
      if trusted || served {
        HonestFrom(rpc, chain, filter, cap, requests);
      }
      if served {
        ServesFrom(rpc, filter, cap, requests);
      }
      var scan, asked := ScanFilter(Fixed(rpc, filter, requests), chunkSize, cap, filter, gap, chain);
      requests := requests + asked;
      if scan.Err? {
        return Err(ScanFailed(scan.error));
      }
      if e.holderTopics == [] || 0 in e.holderTopics {
        return Err(BadHolderTopic);
      }
      if served {
        ServedReadable(rpc, cap, chain, t, e, gap, scan.value.logs);
      }
      var observed := Observe(scan.value.logs, e.holderTopics, t.includeZero);
      if observed.None? {
        return Err(BadHolderTopic);
      }
      var rows := HolderRows(t.address, e.name, observed.value);
      var completed := scan.value.completed;
      var markers := RangeRows(t, e, completed);
      assert trusted ==> ScanOf(chain, t, e, gap, rows, markers, scan.value.logs, observed.value, completed);
      return Ok((rows, markers));
    }

    /** Scans one gap and stores its holders before its completed markers. However the provider or the
        store fails, the tables only grow and the invariant survives. */
    method ScanGap(t: Token, e: Event, gap: BlockRange, ghost chain: Chain, ghost catalog: set<Token>)
      returns (r: Result<(), DiscoveryError>)
      requires chunkSize >= 1 && cap >= 1
      requires t in catalog && e in t.events && t.deploymentBlock <= gap.start
      modifies this, store
      ensures old(store.ranges) <= store.ranges && old(store.holders) <= store.holders
      ensures r.Ok? ==> forall b :: gap.Has(b) ==> CoveredBy(store.ranges, t.address, e.topic0, b)
      ensures store.calls >= old(store.calls)
      ensures (WellFormedChain(chain) && EventServed(rpc, cap, chain, t, e)
               && store.Quiet(old(store.calls), store.calls)) ==> r.Ok?
      ensures Trusted(rpc, cap, chain, catalog) && ConsistentCatalog(catalog) &&
              old(Invariant(chain, catalog, store.ranges, store.holders)) ==>
                Invariant(chain, catalog, store.ranges, store.holders)
    {
      ghost var trusted := Trusted(rpc, cap, chain, catalog) && ConsistentCatalog(catalog) &&
                           Invariant(chain, catalog, store.ranges, store.holders);
      var scan := Scan(t, e, gap, chain, catalog);
      if scan.Err? {
        if scan.error.ScanFailed? {
          var failed := [RangeRow(t.address, e.topic0, gap, false)];
          if trusted {
            AppendRanges(chain, catalog, store.ranges, store.holders, failed);
          }
          var _ := store.InsertRanges(failed);
        }
        return Err(scan.error);
      }
      var (rows, markers) := scan.value;
      if trusted {
        StoreKeeps(chain, catalog, t, e, gap, store.ranges, store.holders, rows, markers);
      }
      if rows != [] {
        var ok := store.InsertHolders(rows);
        if !ok {
          return Err(StoreFailed);
        }
      }
      if trusted {
        MarkKeeps(chain, catalog, t, e, gap, store.ranges, store.holders, rows, markers);
      }
      var ok := store.InsertRanges(markers);
      if !ok {
        return Err(StoreFailed);
      }
      ghost var completed :| Tiles(Ranges(completed), gap.start, gap.end) && markers == RangeRows(t, e, completed);
      forall b | gap.Has(b) ensures CoveredBy(store.ranges, t.address, e.topic0, b) {
        MarkersCover(t, e, gap, completed, b);
      }
      return Ok(());
    }

    /** Scans whatever is missing between deployment and the anchor, for each event. When it returns,
        the token's members at this anchor are exact, whatever was scanned or lost before. */
    method Advance(t: Token, anchor: nat, ghost chain: Chain, ghost catalog: set<Token>)
        returns (r: Result<(), DiscoveryError>)
      requires chunkSize >= 1 && cap >= 1
      requires t in catalog
      modifies this, store
      ensures old(store.ranges) <= store.ranges && old(store.holders) <= store.holders
      ensures Trusted(rpc, cap, chain, catalog) && ConsistentCatalog(catalog) &&
              old(Invariant(chain, catalog, store.ranges, store.holders)) ==>
                Invariant(chain, catalog, store.ranges, store.holders)
      ensures r.Ok? ==> FullyCovered(store.ranges, t, anchor)
      ensures store.calls >= old(store.calls)
      ensures (anchor >= t.deploymentBlock && TokenServed(rpc, cap, chain, t)
               && store.Quiet(old(store.calls), store.calls)) ==> r.Ok?
      ensures r.Ok? && Trusted(rpc, cap, chain, catalog) && ConsistentCatalog(catalog) &&
              old(Invariant(chain, catalog, store.ranges, store.holders)) ==>
                ExactMembers(chain, store.holders, t, anchor)
    {
      if anchor + 1 <= t.deploymentBlock {
        return Err(EmptyRange);
      }
      var required: BlockRange := Range(t.deploymentBlock, anchor + 1);
      ghost var trusted := Trusted(rpc, cap, chain, catalog) && ConsistentCatalog(catalog) &&
                           Invariant(chain, catalog, store.ranges, store.holders);
      for i := 0 to |t.events|
        invariant old(store.ranges) <= store.ranges && old(store.holders) <= store.holders
        invariant store.calls >= old(store.calls)
        invariant trusted ==> Invariant(chain, catalog, store.ranges, store.holders)
        invariant forall j, b :: 0 <= j < i && required.Has(b) ==>
                    CoveredBy(store.ranges, t.address, t.events[j].topic0, b)
      {
        var failure := AdvanceEvent(t, t.events[i], required, chain, catalog);
        if failure.Err? {
          return failure;
        }
      }
      forall e, b: nat | e in t.events && t.deploymentBlock <= b <= anchor
        ensures CoveredBy(store.ranges, t.address, e.topic0, b)
      {
        assert required.Has(b);
        var j :| 0 <= j < |t.events| && t.events[j] == e;
      }
      if trusted {
        MembersExact(chain, catalog, store.ranges, store.holders, t, anchor);
      }
      return Ok(());
    }

    method AdvanceEvent(t: Token, e: Event, required: BlockRange, ghost chain: Chain, ghost catalog: set<Token>)
      returns (r: Result<(), DiscoveryError>)
      requires chunkSize >= 1 && cap >= 1
      requires t in catalog && e in t.events && required.start == t.deploymentBlock
      modifies this, store
      ensures old(store.ranges) <= store.ranges && old(store.holders) <= store.holders
      ensures forall topic0: Word, b :: old(CoveredBy(store.ranges, t.address, topic0, b)) ==>
                CoveredBy(store.ranges, t.address, topic0, b)
      ensures r.Ok? ==> forall b :: required.Has(b) ==> CoveredBy(store.ranges, t.address, e.topic0, b)
      ensures store.calls >= old(store.calls)
      ensures (WellFormedChain(chain) && EventServed(rpc, cap, chain, t, e)
               && store.Quiet(old(store.calls), store.calls)) ==> r.Ok?
      ensures Trusted(rpc, cap, chain, catalog) && ConsistentCatalog(catalog) &&
              old(Invariant(chain, catalog, store.ranges, store.holders)) ==>
                Invariant(chain, catalog, store.ranges, store.holders)
    {
      ghost var before := store.ranges;
      var completed := store.CompletedRanges(t.address, e.topic0);
      if completed.None? {
        return Err(StoreFailed);
      }
      var gaps := CoverageGaps(required, completed.value);
      ghost var trusted := Trusted(rpc, cap, chain, catalog) && ConsistentCatalog(catalog) &&
                           Invariant(chain, catalog, store.ranges, store.holders);
      for i := 0 to |gaps|
        invariant before <= store.ranges && old(store.holders) <= store.holders && store.calls > old(store.calls)
        invariant trusted ==> Invariant(chain, catalog, store.ranges, store.holders)
        invariant forall j, b :: 0 <= j < i && gaps[j].Has(b) ==> CoveredBy(store.ranges, t.address, e.topic0, b)
      {
        ghost var mid := store.ranges;
        assert gaps[i] in gaps;
        var scanned := ScanGap(t, e, gaps[i], chain, catalog);
        forall topic0: Word, b | CoveredBy(mid, t.address, topic0, b)
          ensures CoveredBy(store.ranges, t.address, topic0, b)
        {
          CoveredByMono(mid, store.ranges, t.address, topic0, b);
        }
        forall topic0: Word, b | CoveredBy(before, t.address, topic0, b)
          ensures CoveredBy(store.ranges, t.address, topic0, b)
        {
          CoveredByMono(before, store.ranges, t.address, topic0, b);
        }
        if scanned.Err? {
          return scanned;
        }
      }
      forall b | required.Has(b) ensures CoveredBy(store.ranges, t.address, e.topic0, b) {
        if Covered(completed.value, b) {
          CoveredByMono(before, store.ranges, t.address, e.topic0, b);
        } else {
          assert Covered(gaps, b);
          var i :| 0 <= i < |gaps| && gaps[i].Has(b);
        }
      }
      return Ok(());
    }

    /** Any sequence of runs, over any tokens and anchors in any order and with any of them failing
        midway, leaves a store in which coverage is never claimed without its holders, and in which every
        run that did not fail still has its coverage and its exact members. A run fails only for a cause: a
        fault of the store, a provider that does not serve the token, or an anchor before deployment. */
    method AdvanceMany(runs: seq<(Token, nat)>, ghost chain: Chain, ghost catalog: set<Token>)
        returns (failures: seq<nat>)
      requires chunkSize >= 1 && cap >= 1
      requires forall run :: run in runs ==> run.0 in catalog
      modifies this, store
      ensures Trusted(rpc, cap, chain, catalog) && ConsistentCatalog(catalog) &&
              old(Invariant(chain, catalog, store.ranges, store.holders)) ==>
                && Invariant(chain, catalog, store.ranges, store.holders)
                && forall i :: 0 <= i < |runs| && i !in failures ==>
                     ExactMembers(chain, store.holders, runs[i].0, runs[i].1)
      ensures forall i :: 0 <= i < |runs| && i !in failures ==> FullyCovered(store.ranges, runs[i].0, runs[i].1)
      ensures forall i :: i in failures ==> i < |runs|
      ensures store.Quiet(old(store.calls), store.calls) ==> forall i :: i in failures ==>
                i < |runs| && !(runs[i].1 >= runs[i].0.deploymentBlock && TokenServed(rpc, cap, chain, runs[i].0))
    {
      failures := [];
      for i := 0 to |runs|
        invariant Trusted(rpc, cap, chain, catalog) && ConsistentCatalog(catalog) &&
                  old(Invariant(chain, catalog, store.ranges, store.holders)) ==>
                    Invariant(chain, catalog, store.ranges, store.holders)
        invariant forall j :: 0 <= j < i && j !in failures ==> FullyCovered(store.ranges, runs[j].0, runs[j].1)
        invariant store.calls >= old(store.calls) && forall j :: j in failures ==> j < i
        invariant store.Quiet(old(store.calls), store.calls) ==> forall j :: j in failures ==>
                    !(runs[j].1 >= runs[j].0.deploymentBlock && TokenServed(rpc, cap, chain, runs[j].0))
      {
        assert runs[i] in runs;
        ghost var before := store.ranges;
        var outcome := Advance(runs[i].0, runs[i].1, chain, catalog);
        ghost var earlier := failures;
        if outcome.Err? {
          failures := failures + [i];
        }
        forall j | 0 <= j <= i && j !in failures ensures FullyCovered(store.ranges, runs[j].0, runs[j].1) {
          if j < i {
            assert j !in earlier;
            FullyCoveredMono(before, store.ranges, runs[j].0, runs[j].1);
          }
        }
      }
      if Trusted(rpc, cap, chain,
          catalog) && ConsistentCatalog(catalog) && old(Invariant(chain, catalog, store.ranges, store.holders)) {
        forall i | 0 <= i < |runs| && i !in failures ensures ExactMembers(chain, store.holders, runs[i].0, runs[i].1) {
          assert runs[i] in runs;
          MembersExact(chain, catalog, store.ranges, store.holders, runs[i].0, runs[i].1);
        }
      }
    }
  }

  /** The members read at the anchor are exactly the expected ones. */
  ghost predicate ExactMembers(chain: Chain, holders: seq<HolderRow>, t: Token, anchor: nat) {
    forall who: Address, name :: (who, name) in HolderMembers(holders, t.address, anchor) <==>
        Expected(chain, t, anchor, who, name)
  }

  lemma {:induction false} FullyCoveredMono(ranges: seq<RangeRow>, more: seq<RangeRow>, t: Token, anchor: nat)
    requires FullyCovered(ranges, t, anchor) && ranges <= more
    ensures FullyCovered(more, t, anchor)
  {
    forall e, b: nat | e in t.events && t.deploymentBlock <= b <= anchor
      ensures CoveredBy(more, t.address, e.topic0, b)
    {
      CoveredByMono(ranges, more, t.address, e.topic0, b);
    }
  }
}
