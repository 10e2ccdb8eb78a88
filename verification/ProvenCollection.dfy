/** From executor to collector: every number of a verified result was returned by a proven answer. */
module ProvenCollection {
  import opened Wrappers
  import opened Bytes
  import opened Endpoints
  import opened Calls
  import opened UIntCalls
  import opened TokenResults
  import Multicall
  import MulticallTasks
  import LegacyBatch
  import Erc20
  import AToken

  /** How calls go over the wire: key texts, calldata, and whether an error is a revert. */
  datatype Wire = Wire(spell: Key -> Text, unspell: Text -> Key, pack: Query -> seq<Byte>, reverts: RawResult -> bool)

  /** Key texts can be read back. */
  ghost predicate Legible(w: Wire) {
    forall k :: w.unspell(w.spell(k)) == k
  }

  function CallOf(w: Wire, s: Spec): Call {
    Call(w.spell(s.key), s.target, w.pack(s.query), true)
  }

  function CallsOf(w: Wire, specs: seq<Spec>): (calls: seq<Call>)
    ensures |calls| == |specs| && forall i :: 0 <= i < |specs| ==> calls[i] == CallOf(w, specs[i])
  {
    seq(|specs|, i requires 0 <= i < |specs| => CallOf(w, specs[i]))
  }

  function ReadRaw(w: Wire, x: RawResult): Raw {
    Raw(w.unspell(x.key), x.success, x.data, w.reverts(x))
  }

  function ReadBatch(w: Wire, b: Batch): (results: seq<Raw>)
    ensures |results| == |b| && forall j :: 0 <= j < |b| ==> results[j] == ReadRaw(w, b[j])
  {
    seq(|b|, j requires 0 <= j < |b| => ReadRaw(w, b[j]))
  }

  /** The batches as the collectors see them, with the evidence that both executors attach. */
  function EvidenceOf(w: Wire, digest: seq<Raw> -> nat, anchorHash: nat, batches: seq<Batch>): seq<EvidenceBatch> {
    if batches == [] then [] else
      var b := ReadBatch(w, batches[|batches| - 1]);
      EvidenceOf(w, digest, anchorHash, batches[..|batches| - 1]) + [EvidenceBatch(true, anchorHash, digest(b), b)]
  }

  // ---- which answer a number comes from --------------------------------------------------------------

  /** One word, returned by a successful call. */
  predicate HoldsWord(x: RawResult, v: nat) {
    x.success && |x.data| == 32 && FromBigEndian(x.data) == v
  }

  /** What stands behind an execution: the transport of the Multicall3 executor over its first `hi` requests,
      or that of the batch executor between two of its requests. */
  datatype Provenance =
    | ByMulticall(setup: MulticallTasks.Setup, hi: nat)
    | ByBatch(transport: LegacyBatch.BatchTransport, hash: seq<Byte> -> nat, quorum: nat, lo: nat, hi': nat)

  /** The word is entry of an answer that both sentinel triples prove, or result of a batch that a
      hash-pinned exchange or a provider quorum verifies, for this very call. */
  ghost predicate WordProven(p: Provenance, call: Call, v: nat) {
    match p
    case ByMulticall(s, hi) =>
      s.anchor.number >= 1 && exists x :: HoldsWord(x, v) &&
                                Multicall.Backed(s.transport, 0, hi, s.anchor, s.multicall, call, x)
    case ByBatch(transport, hash, quorum, lo, hi) =>
      exists part, b, j: nat :: BatchHolds(transport, hash, quorum, lo, hi, part, b, j, call, v)
  }

  ghost predicate BatchHolds(transport: LegacyBatch.BatchTransport, hash: seq<Byte> -> nat, quorum: nat, lo: nat,
      hi: nat, part: seq<Call>, b: LegacyBatch.VerifiedBatch, j: nat, call: Call, v: nat)
  {
    && LegacyBatch.Verified(transport, hash, quorum, lo, hi, part, b)
    && j < |part| && |b.results| == |part| && part[j] == call && HoldsWord(b.results[j], v)
  }

  function ResultsOf(batches: seq<LegacyBatch.VerifiedBatch>): (rs: seq<Batch>)
    ensures |rs| == |batches| && forall k :: 0 <= k < |rs| ==> rs[k] == batches[k].results
  {
    seq(|batches|, k requires 0 <= k < |batches| => batches[k].results)
  }

  /** What the executors guarantee of a whole execution. */
  ghost predicate Vouched(p: Provenance, calls: seq<Call>, batches: seq<Batch>) {
    match p
    case ByMulticall(s, hi) =>
      s.anchor.number >= 1 &&
      Multicall.AllBacked(s.transport, 0, hi, s.anchor, s.multicall, calls, Flatten(batches))
    case ByBatch(transport, hash, quorum, lo, hi) =>
      exists parts, verified ::
        && Flatten(parts) == calls && batches == ResultsOf(verified)
        && LegacyBatch.AllVerified(transport, hash, quorum, lo, hi, parts, verified)
  }

  /** The result at a place of the whole belongs to the call at that place, in some batch. */
  lemma {:induction false} Located(p: Provenance, parts: seq<seq<Call>>,
      verified: seq<LegacyBatch.VerifiedBatch>, i: nat)
    requires p.ByBatch? && LegacyBatch.AllVerified(p.transport, p.hash, p.quorum, p.lo, p.hi', parts, verified)
    requires i < |Flatten(parts)|
    ensures |Flatten(ResultsOf(verified))| == |Flatten(parts)|
    ensures exists k, j :: 0 <= k < |parts| && 0 <= j < |parts[k]| == |verified[k].results| &&
              parts[k][j] == Flatten(parts)[i] && verified[k].results[j] == Flatten(ResultsOf(verified))[i]
  {
    SameLengths(p, parts, verified);
    var n := |parts| - 1;
    var front, rest := parts[..n], verified[..n];
    assert ResultsOf(verified)[..n] == ResultsOf(rest);
    SameLengths(p, front, rest);
    assert LegacyBatch.Verified(p.transport, p.hash, p.quorum, p.lo, p.hi', parts[n], verified[n]);
    if i < |Flatten(front)| {
      Located(p, front, rest, i);
      var k, j :| 0 <= k < |front| && 0 <= j < |front[k]| == |rest[k].results| &&
          front[k][j] == Flatten(front)[i] && rest[k].results[j] == Flatten(ResultsOf(rest))[i];
      assert parts[k] == front[k] && verified[k] == rest[k];
    } else {
      var j := i - |Flatten(front)|;
      assert parts[n][j] == Flatten(parts)[i] && verified[n].results[j] == Flatten(ResultsOf(verified))[i];
    }
  }

  lemma {:induction false} SameLengths(p: Provenance, parts: seq<seq<Call>>, verified: seq<LegacyBatch.VerifiedBatch>)
    requires p.ByBatch? && LegacyBatch.AllVerified(p.transport, p.hash, p.quorum, p.lo, p.hi', parts, verified)
    ensures |Flatten(ResultsOf(verified))| == |Flatten(parts)|
  {
    FlattenResults(verified);
    LegacyBatch.AllVerifiedInOrder(p.transport, p.hash, p.quorum, p.lo, p.hi', parts, verified);
  }

  lemma {:induction false} FlattenResults(verified: seq<LegacyBatch.VerifiedBatch>)
    ensures Flatten(ResultsOf(verified)) == LegacyBatch.AllResults(verified)
  {
    if verified != [] {
      FlattenResults(verified[..|verified| - 1]);
      assert ResultsOf(verified)[..|verified| - 1] == ResultsOf(verified[..|verified| - 1]);
    }
  }

  lemma {:induction false} VouchedInOrder(p: Provenance, calls: seq<Call>, batches: seq<Batch>)
    requires Vouched(p, calls, batches)
    ensures InOrder(calls, Flatten(batches))
  {
    if p.ByBatch? {
      var parts, verified: seq<LegacyBatch.VerifiedBatch> :|
        && Flatten(parts) == calls && batches == ResultsOf(verified)
        && LegacyBatch.AllVerified(p.transport, p.hash, p.quorum, p.lo, p.hi', parts, verified);
      FlattenResults(verified);
      LegacyBatch.AllVerifiedInOrder(p.transport, p.hash, p.quorum, p.lo, p.hi', parts, verified);
    }
  }

  /** A word at a place of the results was proven for the call at that place. */
  lemma {:induction false} ProvenAt(p: Provenance, calls: seq<Call>, batches: seq<Batch>, i: nat, v: nat)
    requires Vouched(p, calls, batches) && i < |calls| == |Flatten(batches)| && HoldsWord(Flatten(batches)[i], v)
    ensures WordProven(p, calls[i], v)
  {
    match p
    case ByMulticall(s, hi) =>
      assert Multicall.Backed(s.transport, 0, hi, s.anchor, s.multicall, calls[i], Flatten(batches)[i]);
    case ByBatch(transport, hash, quorum, lo, hi) =>
      var parts, verified: seq<LegacyBatch.VerifiedBatch> :|
        && Flatten(parts) == calls && batches == ResultsOf(verified)
        && LegacyBatch.AllVerified(transport, hash, quorum, lo, hi, parts, verified);
      Located(p, parts, verified, i);
      var k, j :| 0 <= k < |parts| && 0 <= j < |parts[k]| == |verified[k].results| &&
          parts[k][j] == Flatten(parts)[i] && verified[k].results[j] == Flatten(ResultsOf(verified))[i];
      assert BatchHolds(transport, hash, quorum, lo, hi, parts[k], verified[k], j, calls[i], v);
  }

  // ---- what the collectors read ------------------------------------------------------------------------

  /** The results in arrival order are the readings of all results, place by place. */
  lemma {:induction false} TaggedReads(w: Wire, digest: seq<Raw> -> nat, anchorHash: nat, batches: seq<Batch>)
    ensures var ts, rs := Tagged(EvidenceOf(w, digest, anchorHash, batches)), Flatten(batches);
            |ts| == |rs| && forall i :: 0 <= i < |rs| ==> ts[i].1 == ReadRaw(w, rs[i])
    ensures |EvidenceOf(w, digest, anchorHash, batches)| == |batches|
    ensures forall b :: 0 <= b < |batches| ==>
              Trusted(EvidenceOf(w, digest, anchorHash, batches)[b], anchorHash, digest)
  {
    if batches != [] {
      var n := |batches| - 1;
      var before, all := EvidenceOf(w, digest, anchorHash, batches[..n]), EvidenceOf(w, digest, anchorHash, batches);
      TaggedReads(w, digest, anchorHash, batches[..n]);
      assert all[..n] == before && all[n].results == ReadBatch(w, batches[n]);
    }
  }

  /** Each spec's result is at its own place. */
  lemma {:induction false} OwnPlace(w: Wire, specs: seq<Spec>, rs: seq<RawResult>, i: nat, j: nat)
    requires Legible(w) && DistinctKeys(specs) && InOrder(CallsOf(w, specs), rs) && i < |specs| && j < |specs|
    ensures w.unspell(rs[j].key) == specs[j].key
    ensures w.unspell(rs[j].key) == specs[i].key ==> i == j
  {
    assert rs[j].key == CallsOf(w, specs)[j].key == w.spell(specs[j].key);
  }

  /** A collector always accepts what an executor returns. */
  lemma {:induction false} AlwaysAccepted(w: Wire, digest: seq<Raw> -> nat, anchorHash: nat, specs: seq<Spec>,
      batches: seq<Batch>)
    requires Legible(w) && DistinctKeys(specs) && InOrder(CallsOf(w, specs), Flatten(batches))
    ensures Erc20.Accepted(Some(EvidenceOf(w, digest, anchorHash, batches)), specs, anchorHash, digest)
  {
    TaggedReads(w, digest, anchorHash, batches);
    var ts, rs := Tagged(EvidenceOf(w, digest, anchorHash, batches)), Flatten(batches);
    forall j | 0 <= j < |ts| ensures ts[j].1.key == specs[j].key {
      OwnPlace(w, specs, rs, j, j);
    }
    forall k: Key ensures k in ResultKeys(ts) <==> k in SpecKeys(specs) {
      if k in ResultKeys(ts) {
        var j :| 0 <= j < |ts| && ts[j].1.key == k;
        assert specs[j].key == k;
      }
      if k in SpecKeys(specs) {
        var j :| 0 <= j < |specs| && specs[j].key == k;
        assert ts[j].1.key == k;
      }
    }
    assert ResultKeys(ts) == SpecKeys(specs);
  }

  /** Whatever word a collector reads for a call, a proven answer returned it for that call. */
  lemma {:induction false} ReturnedProven(p: Provenance, w: Wire, digest: seq<Raw> -> nat, anchorHash: nat,
      specs: seq<Spec>, batches: seq<Batch>, i: nat, v: nat)
    requires Legible(w) && DistinctKeys(specs) && Vouched(p, CallsOf(w, specs), batches) && i < |specs|
    requires Returned(Tagged(EvidenceOf(w, digest, anchorHash, batches)), specs[i].key, v)
    ensures WordProven(p, CallOf(w, specs[i]), v)
  {
    VouchedInOrder(p, CallsOf(w, specs), batches);
    TaggedReads(w, digest, anchorHash, batches);
    var ts, rs := Tagged(EvidenceOf(w, digest, anchorHash, batches)), Flatten(batches);
    var j :| 0 <= j < |ts| && ts[j].1.key == specs[i].key && ts[j].1.success && |ts[j].1.data| == 32 &&
        FromBigEndian(ts[j].1.data) == v;
    OwnPlace(w, specs, rs, i, j);
    ProvenAt(p, CallsOf(w, specs), batches, i, v);
  }

  /** Every word that a collector can read for one of its calls is proven for that call. */
  ghost predicate AllProven(p: Provenance, w: Wire, specs: seq<Spec>, ts: seq<(nat, Raw)>) {
    forall i, v: nat :: 0 <= i < |specs| && Returned(ts, specs[i].key, v) ==> WordProven(p, CallOf(w, specs[i]), v)
  }

  lemma {:induction false} AllReturnedProven(p: Provenance, w: Wire, digest: seq<Raw> -> nat, anchorHash: nat,
      specs: seq<Spec>, batches: seq<Batch>)
    requires Legible(w) && DistinctKeys(specs) && Vouched(p, CallsOf(w, specs), batches)
    ensures AllProven(p, w, specs, Tagged(EvidenceOf(w, digest, anchorHash, batches)))
    ensures Erc20.Accepted(Some(EvidenceOf(w, digest, anchorHash, batches)), specs, anchorHash, digest)
  {
    var ts := Tagged(EvidenceOf(w, digest, anchorHash, batches));
    forall i, v: nat | 0 <= i < |specs| && Returned(ts, specs[i].key, v) ensures WordProven(p, CallOf(w, specs[i]), v) {
      ReturnedProven(p, w, digest, anchorHash, specs, batches, i, v);
    }
    VouchedInOrder(p, CallsOf(w, specs), batches);
    AlwaysAccepted(w, digest, anchorHash, specs, batches);
  }

  // ---- plain tokens ------------------------------------------------------------------------------------

  function BalanceCall(w: Wire, token: Token, holder: nat): Call {
    CallOf(w, Spec(Balance(holder), token.address, BalanceOf(holder)))
  }

  function GetterCall(w: Wire, token: Token, name: Text): Call {
    CallOf(w, Spec(Scalar(name), token.address, Getter(name)))
  }

  function ZeroCall(w: Wire, token: Token): Call {
    CallOf(w, Spec(Sentinel, token.address, BalanceOf(Erc20.ZERO_ADDRESS)))
  }

  /** Every holder once, in order, each with a word that was proven for its own `balanceOf` call. */
  ghost predicate BalancesProven(p: Provenance, w: Wire, token: Token, addresses: seq<nat>, rows: seq<BalanceRow>) {
    |rows| == |addresses| && forall i :: 0 <= i < |addresses| ==>
      rows[i].holder == addresses[i] && WordProven(p, BalanceCall(w, token, addresses[i]), rows[i].balance)
  }

  /** The sum meets a supply that was itself proven, less a proven balance of a sentinel zero address. */
  ghost predicate SupplyProven(p: Provenance, w: Wire, token: Token, sum: nat, allowance: int -> int) {
    exists supply: nat, zero: nat ::
      SupplyOf(p, w, token, supply, zero) && Erc20.WithinTolerance(sum, supply - zero, allowance)
  }

  ghost predicate SupplyOf(p: Provenance, w: Wire, token: Token, supply: nat, zero: nat) {
    && WordProven(p, GetterCall(w, token, TotalSupply()), supply)
    && if token.zeroIsSentinel then WordProven(p, ZeroCall(w, token), zero) else zero == 0
  }

  lemma {:induction false} Erc20BalancesProven(p: Provenance, w: Wire, token: Token, universe: Universe,
      mode: IntegrityMode, ts: seq<(nat, Raw)>, rows: seq<BalanceRow>)
    requires AllProven(p, w, Erc20.Specs(token, universe, mode), ts)
    requires Erc20.EveryHolder(ts, universe.addresses, rows)
    ensures BalancesProven(p, w, token, universe.addresses, rows)
  {
    var specs := Erc20.Specs(token, universe, mode);
    forall i | 0 <= i < |universe.addresses|
      ensures WordProven(p, BalanceCall(w, token, universe.addresses[i]), rows[i].balance)
    {
      assert specs[i] == Spec(Balance(universe.addresses[i]), token.address, BalanceOf(universe.addresses[i]));
    }
  }

  lemma {:induction false} TotalProven(p: Provenance, w: Wire, token: Token, universe: Universe, ts: seq<(nat, Raw)>,
      supply: nat)
    requires AllProven(p, w, Erc20.Specs(token, universe, FullSupply), ts)
    requires TotalSupply() in token.supplyFunctions && Returned(ts, Scalar(TotalSupply()), supply)
    ensures WordProven(p, GetterCall(w, token, TotalSupply()), supply)
  {
    var specs, n := Erc20.Specs(token, universe, FullSupply), |universe.addresses|;
    var k :| 0 <= k < |token.supplyFunctions| && token.supplyFunctions[k] == TotalSupply();
    assert specs[n + k] == Spec(Scalar(TotalSupply()), token.address, Getter(TotalSupply()));
  }

  lemma {:induction false} ZeroProven(p: Provenance, w: Wire, token: Token, universe: Universe, ts: seq<(nat, Raw)>,
      zero: nat)
    requires AllProven(p, w, Erc20.Specs(token, universe, FullSupply), ts)
    requires token.zeroIsSentinel && Returned(ts, Sentinel, zero)
    ensures WordProven(p, ZeroCall(w, token), zero)
  {
    var specs := Erc20.Specs(token, universe, FullSupply);
    var last := |universe.addresses| + |token.supplyFunctions|;
    assert specs[last] == Spec(Sentinel, token.address, BalanceOf(Erc20.ZERO_ADDRESS));
  }

  lemma {:induction false} Erc20SupplyProven(p: Provenance, w: Wire, token: Token, universe: Universe,
      ts: seq<(nat, Raw)>, sum: nat, allowance: int -> int)
    requires AllProven(p, w, Erc20.Specs(token, universe, FullSupply), ts)
    requires Erc20.SupplyMatches(ts, token, sum, allowance)
    ensures SupplyProven(p, w, token, sum, allowance)
  {
    var supply: nat, zero: nat :| Erc20.SupplyIs(ts, token, supply, zero) &&
        Erc20.WithinTolerance(sum, supply - zero, allowance);
    TotalProven(p, w, token, universe, ts, supply);
    if token.zeroIsSentinel {
      ZeroProven(p, w, token, universe, ts, zero);
    }
    assert SupplyOf(p, w, token, supply, zero);
  }

  /** The plain collector over what an executor returned: it returns exactly for admissible requests whose
      execution succeeded, and every number of a verified result is proven. */
  method CollectErc20(w: Wire, digest: seq<Raw> -> nat, allowance: int -> int, token: Token, universe: Universe,
      anchor: Anchor, mode: IntegrityMode, batches: Option<seq<Batch>>, ghost p: Provenance)
      returns (r: Result<TokenResult, CollectError>)
    requires Legible(w)
    requires batches.Some? ==> Vouched(p, CallsOf(w, Erc20.Specs(token, universe, mode)), batches.value)
    ensures r.Ok? <==> Erc20.Admissible(token, universe, anchor.number, mode) && batches.Some?
    ensures r.Ok? && Verified(r.value) ==> BalancesProven(p, w, token, universe.addresses, r.value.balances)
    ensures r.Ok? && Verified(r.value) && mode.FullSupply? ==>
              SupplyProven(p, w, token, Total(r.value.balances), allowance)
  {
    var specs := Erc20.Specs(token, universe, mode);
    var answer := if batches.None? then None else Some(EvidenceOf(w, digest, anchor.blockHash, batches.value));
    if batches.Some? && Erc20.Admissible(token, universe, anchor.number, mode) {
      Erc20.SpecsDistinct(token, universe, mode);
      AllReturnedProven(p, w, digest, anchor.blockHash, specs, batches.value);
    }
    r := Erc20.Collect(_ => answer, digest, allowance, token, universe, anchor.number, anchor.blockHash, mode);
    if r.Ok? && Verified(r.value) {
      ghost var ts := Tagged(answer.value);
      Erc20BalancesProven(p, w, token, universe, mode, ts, r.value.balances);
      if mode.FullSupply? {
        Erc20SupplyProven(p, w, token, universe, ts, Total(r.value.balances), allowance);
      }
    }
  }

  // ---- scaled tokens -----------------------------------------------------------------------------------

  function ScaledCall(w: Wire, token: Token, holder: nat): Call {
    CallOf(w, Spec(Balance(holder), token.address, ScaledBalanceOf(holder)))
  }

  /** The index was proven; every holder has, in order, a scaled balance that was proven for its own call and a
      balance that is its product with the index, rounded to nearest; and where the supply is checked, the
      scaled balances sum to a scaled total supply that was proven too. */
  ghost predicate ScaledProven(p: Provenance, w: Wire, token: Token, addresses: seq<nat>, mode: IntegrityMode,
      rows: seq<BalanceRow>)
    requires token.index.Some?
  {
    exists index: nat ::
      && WordProven(p, CallOf(w, AToken.IndexSpec(token)), index) && AToken.Reconstructed(rows, index)
      && HoldersProven(p, w, token, addresses, rows)
      && (mode.ScaledFullSupply? ==> ScaledSupplyProven(p, w, token, rows))
  }

  ghost predicate HoldersProven(p: Provenance, w: Wire, token: Token, addresses: seq<nat>, rows: seq<BalanceRow>) {
    |rows| == |addresses| && forall i :: 0 <= i < |addresses| ==>
      && rows[i].holder == addresses[i] && rows[i].scaled.Some?
      && WordProven(p, ScaledCall(w, token, addresses[i]), rows[i].scaled.value)
  }

  /** The scaled total supply is a getter of the token, or the index source names it. */
  ghost predicate ScaledSupplyProven(p: Provenance, w: Wire, token: Token, rows: seq<BalanceRow>)
    requires token.index.Some?
  {
    && (forall k :: 0 <= k < |rows| ==> rows[k].scaled.Some?)
    && (WordProven(p, GetterCall(w, token, ScaledTotalSupply()), AToken.ScaledTotal(rows))
        || (token.index.value.outputName == ScaledTotalSupply()
            && WordProven(p, CallOf(w, AToken.IndexSpec(token)), AToken.ScaledTotal(rows))))
  }

  lemma {:induction false} ATokenHoldersProven(p: Provenance, w: Wire, token: Token, universe: Universe,
      ts: seq<(nat, Raw)>, index: nat, rows: seq<BalanceRow>)
    requires token.index.Some? && AllProven(p, w, AToken.Specs(token, universe), ts)
    requires AToken.EveryHolder(ts, universe.addresses, index, rows)
    ensures HoldersProven(p, w, token, universe.addresses, rows)
  {
    var specs := AToken.Specs(token, universe);
    forall i | 0 <= i < |universe.addresses|
      ensures WordProven(p, ScaledCall(w, token, universe.addresses[i]), rows[i].scaled.value)
    {
      assert specs[i] == Spec(Balance(universe.addresses[i]), token.address, ScaledBalanceOf(universe.addresses[i]));
    }
  }

  lemma {:induction false} ATokenSupplyProven(p: Provenance, w: Wire, token: Token, universe: Universe,
      ts: seq<(nat, Raw)>, rows: seq<BalanceRow>)
    requires token.index.Some? && AllProven(p, w, AToken.Specs(token, universe), ts)
    requires AToken.ScaledSupplyMatches(ts, token, rows)
    ensures ScaledSupplyProven(p, w, token, rows)
  {
    var specs, names := AToken.Specs(token, universe), AToken.ScalarNames(token);
    var n, m := |universe.addresses|, |token.supplyFunctions|;
    var k :| 0 <= k < |names| && names[k] == ScaledTotalSupply();
    if k < m {
      assert specs[n + k] == Spec(Scalar(ScaledTotalSupply()), token.address, Getter(ScaledTotalSupply()));
    } else {
      assert specs[n + m] == AToken.IndexSpec(token);
    }
  }

  lemma {:induction false} VerifiedATokenProven(p: Provenance, w: Wire, limit: nat, token: Token, universe: Universe,
      mode: IntegrityMode, ts: seq<(nat, Raw)>, result: TokenResult)
    requires token.index.Some? && AllProven(p, w, AToken.Specs(token, universe), ts)
    requires AToken.Sound(result, token, universe, mode, limit, ts) && Verified(result)
    ensures ScaledProven(p, w, token, universe.addresses, mode, result.balances)
  {
    var specs, rows := AToken.Specs(token, universe), result.balances;
    var index: nat :| AToken.Rebuilt(ts, token, universe, limit, rows, index);
    assert specs[|universe.addresses| + |token.supplyFunctions|] == AToken.IndexSpec(token);
    assert WordProven(p, CallOf(w, AToken.IndexSpec(token)), index);
    ATokenHoldersProven(p, w, token, universe, ts, index, rows);
    if mode.ScaledFullSupply? {
      ATokenSupplyProven(p, w, token, universe, ts, rows);
    }
  }

  /** The scaled collector over what an executor returned. */
  method CollectAToken(w: Wire, digest: seq<Raw> -> nat, limit: nat, token: Token, universe: Universe, anchor: Anchor,
      mode: IntegrityMode, batches: Option<seq<Batch>>, ghost p: Provenance)
      returns (r: Result<TokenResult, CollectError>)
    requires Legible(w)
    requires token.index.Some? && batches.Some? ==>
               Vouched(p, CallsOf(w, AToken.Specs(token, universe)), batches.value)
    ensures r.Ok? <==> AToken.Admissible(token, universe, anchor.number, mode) && batches.Some?
    ensures r.Ok? && Verified(r.value) ==> ScaledProven(p, w, token, universe.addresses, mode, r.value.balances)
  {
    var answer := if batches.None? then None else Some(EvidenceOf(w, digest, anchor.blockHash, batches.value));
    if batches.Some? && AToken.Admissible(token, universe, anchor.number, mode) {
      AToken.SpecsDistinct(token, universe);
      AllReturnedProven(p, w, digest, anchor.blockHash, AToken.Specs(token, universe), batches.value);
    }
    r := AToken.Collect(_ => answer, digest, limit, token, universe, anchor.number, anchor.blockHash, mode);
    if r.Ok? && Verified(r.value) {
      VerifiedATokenProven(p, w, limit, token, universe, mode, Tagged(answer.value), r.value);
    }
  }

  // ---- the executors -------------------------------------------------------------------------------------

  /** The Multicall3 executor, under any scheduler, vouches for what it returns. */
  method RunMulticall(s: MulticallTasks.Setup, deploymentBlock: nat, batchSize: nat, calls: seq<Call>,
      schedule: nat -> (nat, Option<Endpoint>))
      returns (batches: Option<seq<Batch>>, ghost p: Provenance)
    requires batchSize >= 1
    ensures batches.Some? ==> Vouched(p, calls, batches.value)
    ensures p.ByMulticall? && p.setup == s
    ensures s.anchor.number >= deploymentBlock && s.anchor.number >= 1 && MulticallTasks.Smooth(s, schedule) ==>
              batches.Some?
  {
    var r, requests := MulticallTasks.Execute(s, deploymentBlock, batchSize, calls, schedule);
    p := ByMulticall(s, requests);
    batches := if r.Ok? then Some(r.value) else None;
  }

  /** So does the batch executor. */
  method RunBatches(executor: LegacyBatch.LegacyRpcBatchExecutor, calls: seq<Call>)
      returns (batches: Option<seq<Batch>>, ghost p: Provenance)
    requires executor.Valid()
    modifies executor, executor.pool
    ensures executor.Valid()
    ensures batches.Some? ==> Vouched(p, calls, batches.value)
    ensures executor.Obliging() ==> batches.Some?
    ensures p == ByBatch(executor.transport, executor.hash, executor.quorum, old(executor.requests), executor.requests)
  {
    var r;
    ghost var parts;
    ghost var lo := executor.requests;
    r, parts := executor.Execute(calls);
    p := ByBatch(executor.transport, executor.hash, executor.quorum, lo, executor.requests);
    batches := if r.Ok? then Some(ResultsOf(r.value)) else None;
  }
}
