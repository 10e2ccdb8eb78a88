/** Collection of plain ERC-20 balances with the full-supply check. */
module Erc20 {
  import opened Wrappers
  import opened Bytes
  import opened UIntCalls
  import opened TokenResults

  const ZERO_ADDRESS := 0

  function SentinelSpecs(token: Token, mode: IntegrityMode): seq<Spec> {
    if mode.FullSupply? && token.zeroIsSentinel then [Spec(Sentinel, token.address, BalanceOf(ZERO_ADDRESS))] else []
  }

  function Specs(token: Token, universe: Universe, mode: IntegrityMode): seq<Spec> {
    HolderSpecs(universe.addresses, token.address, false) + ScalarSpecs(token.supplyFunctions, token.address) +
        SentinelSpecs(token, mode)
  }

  /** What the collector demands before it sends anything. */
  ghost predicate Admissible(token: Token, universe: Universe, anchorNumber: nat, mode: IntegrityMode) {
    && !token.isAToken && token.balanceFunction == Ascii("balanceOf") && !mode.ScaledFullSupply?
    && anchorNumber >= token.deploymentBlock && ProperUniverse(universe) && ProperScalars(token.supplyFunctions)
  }

  lemma {:induction false} SpecsDistinct(token: Token, universe: Universe, mode: IntegrityMode)
    requires ProperUniverse(universe) && ProperScalars(token.supplyFunctions)
    ensures DistinctKeys(Specs(token, universe, mode))
  {
    var specs := Specs(token, universe, mode);
    var n, m := |universe.addresses|, |token.supplyFunctions|;
    assert forall i :: 0 <= i < n ==> specs[i].key == Balance(universe.addresses[i]);
    assert forall i :: n <= i < n + m ==> specs[i].key == Scalar(token.supplyFunctions[i - n]);
    assert forall i :: n + m <= i < |specs| ==> specs[i].key == Sentinel && i == n + m;
  }

  lemma {:induction false} SpecKeysAre(token: Token, universe: Universe, mode: IntegrityMode)
    ensures forall i :: 0 <= i < |universe.addresses| ==>
              Balance(universe.addresses[i]) in SpecKeys(Specs(token, universe, mode))
    ensures forall i :: 0 <= i < |token.supplyFunctions| ==>
              Scalar(token.supplyFunctions[i]) in SpecKeys(Specs(token, universe, mode))
    ensures SentinelSpecs(token, mode) != [] ==> Sentinel in SpecKeys(Specs(token, universe, mode))
  {
    var specs := Specs(token, universe, mode);
    var n, m := |universe.addresses|, |token.supplyFunctions|;
    forall i | 0 <= i < n ensures Balance(universe.addresses[i]) in SpecKeys(specs) {
      assert specs[i].key == Balance(universe.addresses[i]);
    }
    forall i | 0 <= i < m ensures Scalar(token.supplyFunctions[i]) in SpecKeys(specs) {
      assert specs[n + i].key == Scalar(token.supplyFunctions[i]);
    }
    assert SentinelSpecs(token, mode) != [] ==> specs[n + m].key == Sentinel;
  }

  /** `abs(observed - expected) <= allowance`, where the allowance for a zero tolerance is zero. */
  predicate WithinTolerance(observed: int, expected: int, allowance: int -> int) {
    var distance := if observed >= expected then observed - expected else expected - observed;
    distance <= allowance(expected)
  }

  function DirectRows(addresses: seq<nat>, good: seq<(nat, nat, nat)>): (rows: seq<BalanceRow>)
    requires Places(good, |addresses|)
    ensures |rows| == |good|
    ensures forall k :: 0 <= k < |good| ==> rows[k] == BalanceRow(addresses[good[k].0], good[k].1, None, good[k].2)
  {
    seq(|good|, k requires 0 <= k < |good| => BalanceRow(addresses[good[k].0], good[k].1, None, good[k].2))
  }

  /** One row per address, in order, each holding the word its `balanceOf` call returned. */
  ghost predicate EveryHolder(ts: seq<(nat, Raw)>, addresses: seq<nat>, rows: seq<BalanceRow>) {
    |rows| == |addresses| && forall i :: 0 <= i < |addresses| ==>
      rows[i].holder == addresses[i] && Returned(ts, Balance(addresses[i]), rows[i].balance)
  }

  /** The total supply, less what the zero address holds where it is a sentinel, meets the sum. */
  ghost predicate SupplyMatches(ts: seq<(nat, Raw)>, token: Token, sum: nat, allowance: int -> int) {
    exists supply: nat, zero: nat :: SupplyIs(ts, token, supply, zero) && WithinTolerance(sum, supply - zero, allowance)
  }

  ghost predicate SupplyIs(ts: seq<(nat, Raw)>, token: Token, supply: nat, zero: nat) {
    && TotalSupply() in token.supplyFunctions && Returned(ts, Scalar(TotalSupply()), supply)
    && if token.zeroIsSentinel then Returned(ts, Sentinel, zero) else zero == 0
  }

  lemma {:induction false} RowsOfHolders(decoded: map<Key, Decoded>, specs: seq<Spec>, ts: seq<(nat, Raw)>,
      addresses: seq<nat>)
    requires Answered(decoded, specs, ts)
    requires forall i :: 0 <= i < |addresses| ==> Balance(addresses[i]) in SpecKeys(specs)
    ensures Present(decoded, BalanceKeys(addresses)) && Places(GoodAt(decoded, BalanceKeys(addresses)), |addresses|)
    ensures BadAt(decoded, BalanceKeys(addresses)) == [] ==>
              EveryHolder(ts, addresses, DirectRows(addresses, GoodAt(decoded, BalanceKeys(addresses))))
  {
    var keys := BalanceKeys(addresses);
    PresentFor(decoded, specs, ts, keys);
    ReadExactly(decoded, keys);
    if BadAt(decoded, keys) == [] {
      var good := GoodAt(decoded, keys);
      var rows := DirectRows(addresses, good);
      forall i | 0 <= i < |addresses|
        ensures rows[i].holder == addresses[i] && Returned(ts, Balance(addresses[i]), rows[i].balance)
      {
        assert good[i].0 == i && Faithful(decoded[keys[i]].seen, ts, keys[i]);
      }
    }
  }

  /** Every call succeeded, so none of these keys carries an error. */
  lemma {:induction false} NoErrorsWhenComplete(decoded: map<Key, Decoded>, specs: seq<Spec>, ts: seq<(nat, Raw)>,
      keys: seq<Key>)
    requires DistinctKeys(specs) && Answered(decoded, specs, ts) && AllReturned(ts, specs)
    requires forall i :: 0 <= i < |keys| ==> keys[i] in SpecKeys(specs)
    ensures Present(decoded, keys) && BadAt(decoded, keys) == []
  {
    CompleteIffReturned(decoded, specs, ts);
    PresentFor(decoded, specs, ts, keys);
    ReadExactly(decoded, keys);
    forall i | 0 <= i < |keys| ensures decoded[keys[i]].seen.status.Good? {
      var key := keys[i];
      assert key in SpecKeys(specs);
      var j :| 0 <= j < |specs| && specs[j].key == key;
    }
  }

  /** The supply the holder sum is compared with. */
  function ExpectedSupply(scalars: seq<ScalarRow>, sentinel: Option<nat>): Option<int> {
    var total := Recorded(scalars, TotalSupply());
    if total.Some? && sentinel.Some? then Some(total.value - sentinel.value)
    else if total.Some? then Some(total.value) else None
  }

  /** What was read of the supply is what was returned. */
  ghost predicate SupplyRead(ts: seq<(nat, Raw)>, token: Token, total: Option<nat>, sentinel: Option<nat>) {
    && (total.Some? <==> TotalSupply() in token.supplyFunctions)
    && (total.Some? ==> Returned(ts, Scalar(TotalSupply()), total.value))
    && (sentinel.Some? <==> token.zeroIsSentinel)
    && (sentinel.Some? ==> Returned(ts, Sentinel, sentinel.value))
  }

  lemma {:induction false} SupplyCheck(ts: seq<(nat, Raw)>, token: Token, scalars: seq<ScalarRow>,
      sentinel: Option<nat>, sum: nat, allowance: int -> int)
    requires DistinctResults(ts) && SupplyRead(ts, token, Recorded(scalars, TotalSupply()), sentinel)
    ensures var expected := ExpectedSupply(scalars, sentinel);
            SupplyMatches(ts, token, sum, allowance) <==>
                expected.Some? && WithinTolerance(sum, expected.value, allowance)
  {
    var total := Recorded(scalars, TotalSupply());
    var zero: nat := if sentinel.Some? then sentinel.value else 0;
    if total.Some? {
      SupplyUnique(ts, token, total.value, sentinel);
    }
    assert total.Some? ==> SupplyIs(ts, token, total.value, zero);
    assert total.Some? ==> ExpectedSupply(scalars, sentinel) == Some(total.value - zero);
  }

  lemma {:induction false} SupplyUnique(ts: seq<(nat, Raw)>, token: Token, total: nat, sentinel: Option<nat>)
    requires DistinctResults(ts) && SupplyRead(ts, token, Some(total), sentinel)
    ensures forall supply: nat, zero: nat ::
              SupplyIs(ts, token, supply, zero) <==>
                  supply == total && zero == if sentinel.Some? then sentinel.value else 0
  {
    forall supply: nat, zero: nat | SupplyIs(ts, token, supply, zero)
      ensures supply == total && zero == if sentinel.Some? then sentinel.value else 0
    {
      ReturnedOnce(ts, Scalar(TotalSupply()), supply, total);
      if token.zeroIsSentinel {
        ReturnedOnce(ts, Sentinel, zero, sentinel.value);
      }
    }
  }

  // ---- collection --------------------------------------------------------------------------------

  /** The answer to the collector's calls is one it accepts. */
  ghost predicate Accepted(answer: Option<seq<EvidenceBatch>>, specs: seq<Spec>, anchorHash: nat,
      digest: seq<Raw> -> nat)
  {
    && answer.Some? && (forall b :: 0 <= b < |answer.value| ==> Trusted(answer.value[b], anchorHash, digest))
    && ExactlyAnswered(specs, Tagged(answer.value))
  }

  /** The verdict on a result and what a verified one holds. */
  ghost predicate Sound(result: TokenResult, token: Token, universe: Universe, mode: IntegrityMode,
      allowance: int -> int, ts: seq<(nat, Raw)>)
  {
    && (Verified(result) <==> AllReturned(ts, Specs(token, universe, mode))
                              && (mode.FullSupply? ==> SupplyMatches(ts, token, Total(result.balances), allowance)))
    && (Verified(result) ==> EveryHolder(ts, universe.addresses, result.balances))
  }

  /** A result is returned exactly when the request is admissible and the answer acceptable, and it is
      verified exactly when every call returned a word and the holder sum meets the supply: then its
      balances list every universe address once, in order, however the calls were batched. */
  method Collect(executor: seq<Spec> -> Option<seq<EvidenceBatch>>, digest: seq<Raw> -> nat, allowance: int -> int,
                 token: Token, universe: Universe, anchorNumber: nat, anchorHash: nat, mode: IntegrityMode)
      returns (r: Result<TokenResult, CollectError>)
    ensures var specs := Specs(token, universe, mode);
            r.Ok? <==>
              Admissible(token, universe, anchorNumber, mode) && Accepted(executor(specs), specs, anchorHash, digest)
    ensures r.Ok? ==>
              Sound(r.value, token, universe, mode, allowance, Tagged(executor(Specs(token, universe, mode)).value))
  {
    if token.isAToken || token.balanceFunction != Ascii("balanceOf") || mode.ScaledFullSupply? {
      return Err(Unsupported);
    }
    if anchorNumber < token.deploymentBlock {
      return Err(NotDeployed);
    }
    if !ProperUniverse(universe) {
      return Err(BadUniverse);
    }
    var scalarSpecs := MakeScalarSpecs(token.supplyFunctions, token.address);
    if scalarSpecs.Err? {
      return Err(scalarSpecs.error);
    }
    var specs := HolderSpecs(universe.addresses, token.address, false) + scalarSpecs.value + SentinelSpecs(token, mode);
    SpecsDistinct(token, universe, mode);
    var decoded, batches := ExecuteUIntCalls(executor, specs, anchorHash, digest);
    if decoded.Err? {
      return Err(decoded.error);
    }
    var result := Assemble(decoded.value, batches, specs, token, universe, mode, allowance, Tagged(batches));
    return Ok(result);
  }

  function SentinelKeys(token: Token, mode: IntegrityMode): seq<Key> {
    if SentinelSpecs(token, mode) == [] then [] else [Sentinel]
  }

  /** What was read at the zero address, where it was asked. */
  function SentinelSeen(decoded: map<Key, Decoded>, token: Token, mode: IntegrityMode): Option<nat> {
    if SentinelKeys(token, mode) == [] || Sentinel !in decoded then None else decoded[Sentinel].seen.value
  }

  lemma {:induction false} AllPresent(decoded: map<Key, Decoded>, specs: seq<Spec>, ts: seq<(nat, Raw)>, token: Token,
      universe: Universe, mode: IntegrityMode)
    requires specs == Specs(token, universe, mode) && Answered(decoded, specs, ts)
    ensures Present(decoded, BalanceKeys(universe.addresses)) && Present(decoded, ScalarKeys(token.supplyFunctions))
    ensures Present(decoded, SentinelKeys(token, mode))
    ensures Places(GoodAt(decoded, BalanceKeys(universe.addresses)), |universe.addresses|)
    ensures Places(GoodAt(decoded, ScalarKeys(token.supplyFunctions)), |token.supplyFunctions|)
  {
    SpecKeysAre(token, universe, mode);
    RowsOfHolders(decoded, specs, ts, universe.addresses);
    RecordedIsReturned(decoded, specs, ts, token.supplyFunctions, TotalSupply());
    PresentFor(decoded, specs, ts, SentinelKeys(token, mode));
  }

  /** With every call good there are no errors, every holder has its row, and the supply is read. */
  lemma {:induction false} WhenComplete(decoded: map<Key, Decoded>, specs: seq<Spec>, ts: seq<(nat, Raw)>, token: Token,
      universe: Universe, mode: IntegrityMode)
    requires specs == Specs(token, universe, mode) && DistinctKeys(specs) && Answered(decoded, specs, ts)
    requires AllReturned(ts, specs)
    ensures Present(decoded, BalanceKeys(universe.addresses)) && BadAt(decoded, BalanceKeys(universe.addresses)) == []
    ensures Present(decoded, ScalarKeys(token.supplyFunctions))
    ensures BadAt(decoded, ScalarKeys(token.supplyFunctions)) == []
    ensures Present(decoded, SentinelKeys(token, mode)) && BadAt(decoded, SentinelKeys(token, mode)) == []
    ensures SentinelKeys(token, mode) != [] ==>
              decoded[Sentinel].seen.value.Some? && Returned(ts, Sentinel, decoded[Sentinel].seen.value.value)
  {
    SpecKeysAre(token, universe, mode);
    NoErrorsWhenComplete(decoded, specs, ts, BalanceKeys(universe.addresses));
    NoErrorsWhenComplete(decoded, specs, ts, ScalarKeys(token.supplyFunctions));
    var keys := SentinelKeys(token, mode);
    NoErrorsWhenComplete(decoded, specs, ts, keys);
    PresentFor(decoded, specs, ts, keys);
    ReadExactly(decoded, keys);
    assert keys != [] ==> keys[0] == Sentinel && Faithful(decoded[Sentinel].seen, ts, Sentinel);
  }

  /** The rows, errors and zero-address balance read from the decoded calls. */
  ghost predicate ReadFrom(decoded: map<Key, Decoded>, token: Token, universe: Universe, mode: IntegrityMode,
      balances: seq<BalanceRow>, scalars: seq<ScalarRow>, errors: seq<ErrorRow>, sentinel: Option<nat>)
  {
    var (b, s, z) := (BalanceKeys(universe.addresses), ScalarKeys(token.supplyFunctions), SentinelKeys(token, mode));
    && Present(decoded, b) && Present(decoded, s) && Present(decoded, z)
    && Places(GoodAt(decoded, b), |universe.addresses|) && Places(GoodAt(decoded, s), |token.supplyFunctions|)
    && balances == DirectRows(universe.addresses, GoodAt(decoded, b)) &&
         scalars == ScalarRows(token.supplyFunctions, GoodAt(decoded, s))
    && errors == BadAt(decoded, b) + BadAt(decoded, s) + BadAt(decoded, z)
    && sentinel == SentinelSeen(decoded, token, mode)
  }

  method ReadToken(decoded: map<Key, Decoded>, specs: seq<Spec>, token: Token, universe: Universe, mode: IntegrityMode,
      ghost ts: seq<(nat, Raw)>)
      returns (balances: seq<BalanceRow>, scalars: seq<ScalarRow>, errors: seq<ErrorRow>, sentinel: Option<nat>)
    requires specs == Specs(token, universe, mode) && Answered(decoded, specs, ts)
    ensures ReadFrom(decoded, token, universe, mode, balances, scalars, errors, sentinel)
  {
    AllPresent(decoded, specs, ts, token, universe, mode);
    var goodBalances, balanceErrors := ReadCalls(decoded, BalanceKeys(universe.addresses));
    balances := DirectRows(universe.addresses, goodBalances);
    var goodScalars, scalarErrors := ReadCalls(decoded, ScalarKeys(token.supplyFunctions));
    scalars := ScalarRows(token.supplyFunctions, goodScalars);
    var _, sentinelErrors := ReadCalls(decoded, SentinelKeys(token, mode));
    sentinel := if SentinelKeys(token, mode) == [] then None else decoded[SentinelKeys(token, mode)[0]].seen.value;
    errors := balanceErrors + scalarErrors + sentinelErrors;
  }

  method Assemble(decoded: map<Key, Decoded>, batches: seq<EvidenceBatch>, specs: seq<Spec>, token: Token,
      universe: Universe, mode: IntegrityMode, allowance: int -> int, ghost ts: seq<(nat, Raw)>)
      returns (result: TokenResult)
    requires specs == Specs(token, universe, mode) && DistinctKeys(specs) && !mode.ScaledFullSupply?
    requires Answered(decoded, specs, ts)
    requires forall b :: 0 <= b < |batches| ==> batches[b].verified
    ensures Sound(result, token, universe, mode, allowance, ts)
  {
    var balances, scalars, errors, sentinel := ReadToken(decoded, specs, token, universe, mode, ts);
    var complete := Successes(decoded) == |specs|;
    var supplyOk := true;
    if mode.FullSupply? {
      var expected := ExpectedSupply(scalars, sentinel);
      supplyOk := complete && expected.Some? && WithinTolerance(Total(balances), expected.value, allowance);
    }
    result := TokenResult(|specs|, balances, scalars, errors, batches, [complete, supplyOk]);
    VerifiedIff(result, complete, supplyOk);
    CompleteIffReturned(decoded, specs, ts);
    if complete {
      CompleteReading(decoded, specs, ts, token, universe, mode, balances, scalars, errors, sentinel, allowance);
    }
  }

  lemma {:induction false} CompleteReading(decoded: map<Key, Decoded>, specs: seq<Spec>, ts: seq<(nat, Raw)>,
      token: Token, universe: Universe, mode: IntegrityMode, balances: seq<BalanceRow>, scalars: seq<ScalarRow>,
      errors: seq<ErrorRow>, sentinel: Option<nat>, allowance: int -> int)
    requires specs == Specs(token, universe, mode) && DistinctKeys(specs) && Answered(decoded, specs, ts)
    requires AllReturned(ts, specs)
    requires ReadFrom(decoded, token, universe, mode, balances, scalars, errors, sentinel)
    ensures errors == [] && EveryHolder(ts, universe.addresses, balances)
    ensures mode.FullSupply? ==> var expected := ExpectedSupply(scalars, sentinel);
              SupplyMatches(ts, token, Total(balances), allowance) <==>
                  expected.Some? && WithinTolerance(Total(balances), expected.value, allowance)
  {
    WhenComplete(decoded, specs, ts, token, universe, mode);
    CompleteSound(decoded, specs, ts, token, universe, mode, balances, scalars, sentinel, allowance);
  }

  lemma {:induction false} CompleteSound(decoded: map<Key, Decoded>, specs: seq<Spec>, ts: seq<(nat, Raw)>,
      token: Token, universe: Universe, mode: IntegrityMode, balances: seq<BalanceRow>, scalars: seq<ScalarRow>,
      sentinel: Option<nat>, allowance: int -> int)
    requires specs == Specs(token, universe, mode) && DistinctKeys(specs) && Answered(decoded, specs, ts)
    requires AllReturned(ts, specs)
    requires Present(decoded, BalanceKeys(universe.addresses)) && Present(decoded, ScalarKeys(token.supplyFunctions))
    requires Places(GoodAt(decoded, BalanceKeys(universe.addresses)), |universe.addresses|)
    requires Places(GoodAt(decoded, ScalarKeys(token.supplyFunctions)), |token.supplyFunctions|)
    requires balances == DirectRows(universe.addresses, GoodAt(decoded, BalanceKeys(universe.addresses)))
    requires scalars == ScalarRows(token.supplyFunctions, GoodAt(decoded, ScalarKeys(token.supplyFunctions)))
    requires sentinel == SentinelSeen(decoded, token, mode)
    ensures EveryHolder(ts, universe.addresses, balances)
    ensures mode.FullSupply? ==> var expected := ExpectedSupply(scalars, sentinel);
              SupplyMatches(ts, token, Total(balances), allowance) <==>
                  expected.Some? && WithinTolerance(Total(balances), expected.value, allowance)
  {
    SpecKeysAre(token, universe, mode);
    WhenComplete(decoded, specs, ts, token, universe, mode);
    RowsOfHolders(decoded, specs, ts, universe.addresses);
    RecordedIsReturned(decoded, specs, ts, token.supplyFunctions, TotalSupply());
    if mode.FullSupply? {
      SupplyCheck(ts, token, scalars, sentinel, Total(balances), allowance);
    }
  }

  lemma {:induction false} VerifiedIff(result: TokenResult, complete: bool, supplyOk: bool)
    requires result.checks == [complete, supplyOk] && forall b :: 0 <= b < |result.batches| ==>
               result.batches[b].verified
    ensures Verified(result) <==> result.errors == [] && complete && supplyOk
  {
    assert result.checks[0] == complete && result.checks[1] == supplyOk;
  }

  /** At zero tolerance a verified full-supply result sums to the total supply, less the balance of a
      sentinel zero address, exactly. */
  lemma {:induction false} ExactSupply(result: TokenResult, token: Token, universe: Universe, ts: seq<(nat, Raw)>,
      allowance: int -> int)
    requires Sound(result, token, universe, FullSupply, allowance, ts) && Verified(result)
    requires forall x :: allowance(x) == 0
    ensures EveryHolder(ts, universe.addresses, result.balances)
    ensures exists supply: nat, zero: nat ::
              SupplyIs(ts, token, supply, zero) && Total(result.balances) == supply - zero
  {
    var supply: nat, zero: nat :| SupplyIs(ts, token, supply, zero) &&
        WithinTolerance(Total(result.balances), supply - zero, allowance);
    assert SupplyIs(ts, token, supply, zero) && Total(result.balances) == supply - zero;
  }
}
