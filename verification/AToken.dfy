/** Collection of scaled aToken balances and their reconstruction by `rayMul`. */
module AToken {
  import opened Wrappers
  import opened Bytes
  import opened UIntCalls
  import opened TokenResults
  import Erc20

  const RAY: nat := 1_000_000_000_000_000_000_000_000_000
  const HALF_RAY: nat := 500_000_000_000_000_000_000_000_000

  datatype RayError = OutsideUint256 | Overflow

  /** Half-up rounding of value * factor / RAY, within `limit`, which is 2^256. */
  function RayMul(value: int, factor: int, limit: nat): Result<nat, RayError> {
    if !(0 <= value < limit) || !(0 <= factor < limit) then Err(OutsideUint256) else
      var output := (value * factor + HALF_RAY) / RAY;
      if output >= limit then Err(Overflow) else Ok(output)
  }

  /** The nearest multiple of RAY, the upper one when two are equally near. */
  ghost predicate Nearest(output: int, product: int) {
    product - HALF_RAY < output * RAY <= product + HALF_RAY
  }

  /** A result is the nearest integer, ties up, and the only one. */
  lemma {:induction false} RayMulNearest(value: nat, factor: nat, limit: nat, output: nat)
    requires value < limit && factor < limit
    ensures RayMul(value, factor, limit) == Ok(output) <==> output < limit && Nearest(output, value * factor)
  {
    NearestUnique(value * factor, output);
  }

  lemma {:induction false} NearestUnique(product: nat, output: nat)
    ensures (product + HALF_RAY) / RAY == output <==> Nearest(output, product)
  {
  }

  // ---- summing the rounding over the holders -----------------------------------------------------

  function ScaledTotal(rows: seq<BalanceRow>): nat
    requires forall k :: 0 <= k < |rows| ==> rows[k].scaled.Some?
  {
    if rows == [] then 0 else ScaledTotal(rows[..|rows| - 1]) + rows[|rows| - 1].scaled.value
  }

  /** Each balance is the rounded product of its own scaled balance and the index. */
  ghost predicate Reconstructed(rows: seq<BalanceRow>, index: nat) {
    forall k :: 0 <= k < |rows| ==> rows[k].scaled.Some? && Nearest(rows[k].balance, rows[k].scaled.value * index)
  }

  lemma {:induction false} RoundingBound(rows: seq<BalanceRow>, index: nat)
    requires Reconstructed(rows, index)
    ensures ScaledTotal(rows) * index - |rows| * HALF_RAY <= Total(rows) * RAY <= ScaledTotal(rows) * index +
              |rows| * HALF_RAY
  {
    if rows != [] {
      var front, last := rows[..|rows| - 1], rows[|rows| - 1];
      RoundingBound(front, index);
      Distribute(ScaledTotal(front), last.scaled.value, index);
    }
  }

  lemma {:induction false} Distribute(a: int, b: int, c: int)
    ensures (a + b) * c == a * c + b * c
  {
  }

  /** The bound is attained: n holders of one scaled unit at an index of half a ray. */
  lemma {:induction false} BoundAttained(holders: seq<nat>) returns (rows: seq<BalanceRow>)
    ensures |rows| == |holders| && Reconstructed(rows, HALF_RAY)
    ensures Total(rows) * RAY == ScaledTotal(rows) * HALF_RAY + |rows| * HALF_RAY
    ensures Total(rows) == |rows| && ScaledTotal(rows) == |rows|
  {
    rows := [];
    for k := 0 to |holders|
      invariant |rows| == k && Reconstructed(rows, HALF_RAY) && Total(rows) == k && ScaledTotal(rows) == k
    {
      var more := rows + [BalanceRow(holders[k], 1, Some(1), 0)];
      assert more[..|more| - 1] == rows;
      rows := more;
    }
  }

  // ---- the reconstruction loop -------------------------------------------------------------------

  predicate Fits(g: (nat, nat, nat), index: nat, limit: nat) {
    RayMul(g.1, index, limit).Ok?
  }

  /** The row of a reading whose reconstruction fits. */
  ghost predicate RowFor(row: BalanceRow, holder: nat, g: (nat, nat, nat), index: nat, limit: nat) {
    var product := RayMul(g.1, index, limit);
    product.Ok? && row == BalanceRow(holder, product.value, Some(g.1), g.2)
  }

  /** The rows of the readings whose reconstruction fits, in order. */
  function RayRows(addresses: seq<nat>, good: seq<(nat, nat, nat)>, index: nat, limit: nat): seq<BalanceRow>
    requires Places(good, |addresses|)
  {
    if good == [] then [] else
      var n := |good| - 1;
      var g, product := good[n], RayMul(good[n].1, index, limit);
      RayRows(addresses, good[..n], index, limit) +
      if product.Ok? then [BalanceRow(addresses[g.0], product.value, Some(g.1), g.2)] else []
  }

  /** The errors of the others, in order. */
  function RayErrors(addresses: seq<nat>, good: seq<(nat, nat, nat)>, index: nat, limit: nat): seq<ErrorRow>
    requires Places(good, |addresses|)
  {
    if good == [] then [] else
      var n := |good| - 1;
      RayErrors(addresses, good[..n], index, limit) +
      if Fits(good[n], index, limit) then [] else [ErrorRow(Balance(addresses[good[n].0]), MalformedReturn, good[n].2)]
  }

  method Reconstruct(addresses: seq<nat>, good: seq<(nat, nat, nat)>, index: nat, limit: nat)
      returns (rows: seq<BalanceRow>, errors: seq<ErrorRow>)
    requires Places(good, |addresses|)
    ensures rows == RayRows(addresses, good, index, limit) && errors == RayErrors(addresses, good, index, limit)
  {
    rows, errors := [], [];
    for k := 0 to |good|
      invariant rows == RayRows(addresses, good[..k], index, limit)
      invariant errors == RayErrors(addresses, good[..k], index, limit)
    {
      var g := good[k];
      assert good[..k + 1][..k] == good[..k];
      var product := RayMul(g.1, index, limit);
      if product.Err? {
        errors := errors + [ErrorRow(Balance(addresses[g.0]), MalformedReturn, g.2)];
      } else {
        rows := rows + [BalanceRow(addresses[g.0], product.value, Some(g.1), g.2)];
      }
    }
    assert good[..|good|] == good;
  }

  /** Every reading gives a row or an error, and none fails exactly when all fit. */
  lemma {:induction false} RayCount(addresses: seq<nat>, good: seq<(nat, nat, nat)>, index: nat, limit: nat)
    requires Places(good, |addresses|)
    ensures |RayRows(addresses, good, index, limit)| + |RayErrors(addresses, good, index, limit)| == |good|
    ensures RayErrors(addresses, good, index, limit) == [] <==>
              forall k :: 0 <= k < |good| ==> Fits(good[k], index, limit)
  {
    if good != [] {
      var n := |good| - 1;
      var part, whole := RayErrors(addresses, good[..n], index, limit), RayErrors(addresses, good, index, limit);
      RayCount(addresses, good[..n], index, limit);
      assert forall k :: 0 <= k < n ==> good[..n][k] == good[k];
      assert whole == [] <==> |part| == 0 && Fits(good[n], index, limit);
    }
  }

  /** Where all fit, row k is that of reading k. */
  lemma {:induction false} RayRowAt(addresses: seq<nat>, good: seq<(nat, nat, nat)>, index: nat, limit: nat, k: nat)
    requires Places(good, |addresses|) && RayErrors(addresses, good, index, limit) == [] && k < |good|
    ensures |RayRows(addresses, good, index, limit)| == |good|
    ensures RowFor(RayRows(addresses, good, index, limit)[k], addresses[good[k].0], good[k], index, limit)
  {
    RayCount(addresses, good, index, limit);
    var n := |good| - 1;
    assert Fits(good[n], index, limit);
    RayCount(addresses, good[..n], index, limit);
    if k < n {
      assert forall j :: 0 <= j < n ==> good[..n][j] == good[j];
      RayRowAt(addresses, good[..n], index, limit, k);
    }
  }

  lemma {:induction false} ReconstructedInOrder(addresses: seq<nat>, good: seq<(nat, nat, nat)>, index: nat, limit: nat)
    requires Places(good, |addresses|)
    ensures var rows, errors := RayRows(addresses, good, index, limit), RayErrors(addresses, good, index, limit);
            && |rows| + |errors| == |good|
            && (errors == [] <==> forall k :: 0 <= k < |good| ==> Fits(good[k], index, limit))
            && (errors == [] ==> forall k :: 0 <= k < |good| ==>
                 RowFor(rows[k], addresses[good[k].0], good[k], index, limit))
  {
    RayCount(addresses, good, index, limit);
    if RayErrors(addresses, good, index, limit) == [] {
      forall k | 0 <= k < |good|
        ensures RowFor(RayRows(addresses, good, index, limit)[k], addresses[good[k].0], good[k], index, limit)
      {
        RayRowAt(addresses, good, index, limit, k);
      }
    }
  }

  function SumValues(good: seq<(nat, nat, nat)>): nat {
    if good == [] then 0 else SumValues(good[..|good| - 1]) + good[|good| - 1].1
  }

  lemma {:induction false} ScaledTotalIs(rows: seq<BalanceRow>, good: seq<(nat, nat, nat)>)
    requires |rows| == |good| && forall k :: 0 <= k < |good| ==> rows[k].scaled == Some(good[k].1)
    ensures ScaledTotal(rows) == SumValues(good)
  {
    if rows != [] {
      ScaledTotalIs(rows[..|rows| - 1], good[..|good| - 1]);
    }
  }

  // ---- collection --------------------------------------------------------------------------------

  function ScalarNames(token: Token): seq<Text>
    requires token.index.Some?
  {
    token.supplyFunctions + [token.index.value.outputName]
  }

  function IndexSpec(token: Token): Spec
    requires token.index.Some?
  {
    var source := token.index.value;
    Spec(Scalar(source.outputName), source.contract, NormalizedIncome(source.argument))
  }

  function Specs(token: Token, universe: Universe): seq<Spec>
    requires token.index.Some?
  {
    HolderSpecs(universe.addresses, token.address, true) + ScalarSpecs(token.supplyFunctions, token.address) +
        [IndexSpec(token)]
  }

  ghost predicate Admissible(token: Token, universe: Universe, anchorNumber: nat, mode: IntegrityMode) {
    && token.isAToken && token.balanceFunction == Ascii("scaledBalanceOf") && token.index.Some? && !mode.FullSupply?
    && anchorNumber >= token.deploymentBlock && ProperUniverse(universe) && ProperScalars(token.supplyFunctions)
    && token.index.value.outputName !in token.supplyFunctions
  }

  lemma {:induction false} SpecsDistinct(token: Token, universe: Universe)
    requires token.index.Some? && ProperUniverse(universe) && ProperScalars(token.supplyFunctions)
    ensures DistinctKeys(Specs(token, universe)) <==> token.index.value.outputName !in token.supplyFunctions
  {
    var specs := Specs(token, universe);
    var n, m := |universe.addresses|, |token.supplyFunctions|;
    assert forall i :: 0 <= i < n ==> specs[i].key == Balance(universe.addresses[i]);
    assert forall i :: n <= i < n + m ==> specs[i].key == Scalar(token.supplyFunctions[i - n]);
    assert specs[n + m].key == Scalar(token.index.value.outputName);
    if token.index.value.outputName in token.supplyFunctions {
      var j :| 0 <= j < m && token.supplyFunctions[j] == token.index.value.outputName;
      assert specs[n + j].key == specs[n + m].key;
    }
  }

  lemma {:induction false} SpecKeysAre(token: Token, universe: Universe)
    requires token.index.Some?
    ensures forall i :: 0 <= i < |universe.addresses| ==>
              Balance(universe.addresses[i]) in SpecKeys(Specs(token, universe))
    ensures forall i :: 0 <= i < |ScalarNames(token)| ==>
              Scalar(ScalarNames(token)[i]) in SpecKeys(Specs(token, universe))
  {
    var specs := Specs(token, universe);
    var n, names := |universe.addresses|, ScalarNames(token);
    forall i | 0 <= i < n ensures Balance(universe.addresses[i]) in SpecKeys(specs) {
      assert specs[i].key == Balance(universe.addresses[i]);
    }
    forall i | 0 <= i < |names| ensures Scalar(names[i]) in SpecKeys(specs) {
      assert specs[n + i].key == Scalar(names[i]);
    }
  }

  /** One row per address, in order: the scaled balance is the word returned for it, and the balance is
      that word times the index, rounded. */
  ghost predicate EveryHolder(ts: seq<(nat, Raw)>, addresses: seq<nat>, index: nat, rows: seq<BalanceRow>) {
    && |rows| == |addresses| && Reconstructed(rows, index)
    && forall i :: 0 <= i < |addresses| ==>
         rows[i].holder == addresses[i] && rows[i].scaled.Some? &&
         Returned(ts, Balance(addresses[i]), rows[i].scaled.value)
  }

  /** The reconstruction of every returned balance fits in uint256. */
  ghost predicate AllFit(ts: seq<(nat, Raw)>, addresses: seq<nat>, index: nat, limit: nat) {
    forall i, v: nat :: 0 <= i < |addresses| && Returned(ts, Balance(addresses[i]), v) ==> RayMul(v, index, limit).Ok?
  }

  ghost predicate Rebuilt(ts: seq<(nat, Raw)>, token: Token, universe: Universe, limit: nat, rows: seq<BalanceRow>,
      index: nat)
    requires token.index.Some?
  {
    && Returned(ts, Scalar(token.index.value.outputName), index)
    && AllFit(ts, universe.addresses, index, limit) && EveryHolder(ts, universe.addresses, index, rows)
  }

  /** The scaled balances sum to the scaled total supply that was returned. */
  ghost predicate ScaledSupplyMatches(ts: seq<(nat, Raw)>, token: Token, rows: seq<BalanceRow>)
    requires token.index.Some?
  {
    && ScaledTotalSupply() in ScalarNames(token)
    && (forall k :: 0 <= k < |rows| ==> rows[k].scaled.Some?)
    && Returned(ts, Scalar(ScaledTotalSupply()), ScaledTotal(rows))
  }

  /** What a verified result holds. */
  ghost predicate Sound(result: TokenResult, token: Token, universe: Universe, mode: IntegrityMode, limit: nat,
      ts: seq<(nat, Raw)>)
    requires token.index.Some?
  {
    Verified(result) <==>
      && AllReturned(ts, Specs(token, universe))
      && (exists index: nat :: Rebuilt(ts, token, universe, limit, result.balances, index))
      && (mode.ScaledFullSupply? ==> ScaledSupplyMatches(ts, token, result.balances))
  }

  /** A result is returned exactly when the request is admissible and the answer acceptable, and it is
      verified exactly when every call returned a word, every reconstruction fits, and the scaled sum
      is the scaled total supply. */
  method Collect(executor: seq<Spec> -> Option<seq<EvidenceBatch>>, digest: seq<Raw> -> nat, limit: nat,
                 token: Token, universe: Universe, anchorNumber: nat, anchorHash: nat, mode: IntegrityMode)
      returns (r: Result<TokenResult, CollectError>)
    ensures r.Ok? <==> Admissible(token, universe, anchorNumber, mode)
                       && Erc20.Accepted(executor(Specs(token, universe)), Specs(token, universe), anchorHash, digest)
    ensures r.Ok? ==> Sound(r.value, token, universe, mode, limit, Tagged(executor(Specs(token, universe)).value))
  {
    if !token.isAToken || token.balanceFunction != Ascii("scaledBalanceOf") || token.index.None? || mode.FullSupply? {
      return Err(Unsupported);
    }
    if anchorNumber < token.deploymentBlock {
      return Err(NotDeployed);
    }
    if !ProperUniverse(universe) {
      return Err(BadUniverse);
    }
    var scalarSpecs := MakeScalarSpecs(token.supplyFunctions, token.address);
    if scalarSpecs.Err? {
      return Err(scalarSpecs.error);
    }
    var specs := HolderSpecs(universe.addresses, token.address, true) + scalarSpecs.value + [IndexSpec(token)];
    SpecsDistinct(token, universe);
    var decoded, batches := ExecuteUIntCalls(executor, specs, anchorHash, digest);
    if decoded.Err? {
      return Err(decoded.error);
    }
    var result := Assemble(decoded.value, batches, specs, token, universe, mode, limit, Tagged(batches));
    return Ok(result);
  }

  lemma {:induction false} Reading(decoded: map<Key, Decoded>, specs: seq<Spec>, ts: seq<(nat, Raw)>, token: Token,
      universe: Universe)
    requires token.index.Some? && specs == Specs(token, universe) && Answered(decoded, specs, ts)
    ensures Present(decoded, BalanceKeys(universe.addresses)) && Present(decoded, ScalarKeys(ScalarNames(token)))
    ensures Places(GoodAt(decoded, BalanceKeys(universe.addresses)), |universe.addresses|)
    ensures Places(GoodAt(decoded, ScalarKeys(ScalarNames(token))), |ScalarNames(token)|)
  {
    SpecKeysAre(token, universe);
    PresentFor(decoded, specs, ts, BalanceKeys(universe.addresses));
    ReadExactly(decoded, BalanceKeys(universe.addresses));
    RecordedIsReturned(decoded, specs, ts, ScalarNames(token), ScaledTotalSupply());
  }

  /** The values read, one per address in order, are those returned. */
  ghost predicate ScaledRead(ts: seq<(nat, Raw)>, addresses: seq<nat>, scaled: seq<(nat, nat, nat)>) {
    |scaled| == |addresses| && forall k :: 0 <= k < |scaled| ==>
        scaled[k].0 == k && Returned(ts, Balance(addresses[k]), scaled[k].1)
  }

  lemma {:induction false} ScaledComplete(decoded: map<Key, Decoded>, specs: seq<Spec>, ts: seq<(nat, Raw)>,
      token: Token, universe: Universe)
    requires token.index.Some? && specs == Specs(token, universe) && DistinctKeys(specs) && Answered(decoded, specs, ts)
    requires AllReturned(ts, specs)
    ensures Present(decoded, BalanceKeys(universe.addresses)) && BadAt(decoded, BalanceKeys(universe.addresses)) == []
    ensures ScaledRead(ts, universe.addresses, GoodAt(decoded, BalanceKeys(universe.addresses)))
  {
    var keys := BalanceKeys(universe.addresses);
    SpecKeysAre(token, universe);
    Erc20.NoErrorsWhenComplete(decoded, specs, ts, keys);
    PresentFor(decoded, specs, ts, keys);
    ReadExactly(decoded, keys);
    var good := GoodAt(decoded, keys);
    forall k | 0 <= k < |good| ensures good[k].0 == k && Returned(ts, Balance(universe.addresses[k]), good[k].1) {
      assert Faithful(decoded[keys[k]].seen, ts, keys[k]);
    }
  }

  lemma {:induction false} ScalarComplete(decoded: map<Key, Decoded>, specs: seq<Spec>, ts: seq<(nat, Raw)>,
      token: Token, universe: Universe, name: Text)
    requires token.index.Some? && specs == Specs(token, universe) && DistinctKeys(specs) && Answered(decoded, specs, ts)
    requires AllReturned(ts, specs)
    ensures Present(decoded, ScalarKeys(ScalarNames(token))) && BadAt(decoded, ScalarKeys(ScalarNames(token))) == []
    ensures Places(GoodAt(decoded, ScalarKeys(ScalarNames(token))), |ScalarNames(token)|)
    ensures var v := Recorded(ScalarRows(ScalarNames(token), GoodAt(decoded, ScalarKeys(ScalarNames(token)))), name);
            (v.Some? <==> name in ScalarNames(token)) && (v.Some? ==> Returned(ts, Scalar(name), v.value))
  {
    SpecKeysAre(token, universe);
    Erc20.NoErrorsWhenComplete(decoded, specs, ts, ScalarKeys(ScalarNames(token)));
    RecordedIsReturned(decoded, specs, ts, ScalarNames(token), name);
  }

  /** Reconstruction of completely read balances is rebuilt exactly when nothing overflowed. */
  lemma {:induction false} RebuiltWhenFits(ts: seq<(nat, Raw)>, token: Token, universe: Universe, limit: nat,
                        scaled: seq<(nat, nat, nat)>, index: nat, rows: seq<BalanceRow>)
    requires token.index.Some? && ScaledRead(ts, universe.addresses, scaled) && DistinctResults(ts)
    requires Returned(ts, Scalar(token.index.value.outputName), index)
    requires forall k :: 0 <= k < |scaled| ==> Fits(scaled[k], index, limit)
    requires |rows| == |scaled| && forall k :: 0 <= k < |scaled| ==>
               RowFor(rows[k], universe.addresses[scaled[k].0], scaled[k], index, limit)
    ensures Rebuilt(ts, token, universe, limit, rows, index) && ScaledTotal(rows) == SumValues(scaled)
  {
    forall i, v: nat | 0 <= i < |universe.addresses| && Returned(ts, Balance(universe.addresses[i]), v)
      ensures RayMul(v, index, limit).Ok?
    {
      ReturnedOnce(ts, Balance(universe.addresses[i]), v, scaled[i].1);
      assert Fits(scaled[i], index, limit);
    }
    forall k | 0 <= k < |rows| ensures rows[k].scaled.Some? && Nearest(rows[k].balance, rows[k].scaled.value * index) {
      assert Fits(scaled[k], index, limit);
      RayMulNearest(scaled[k].1, index, limit, rows[k].balance);
    }
    ScaledTotalIs(rows, scaled);
  }

  lemma {:induction false} FitsWhenAllFit(ts: seq<(nat, Raw)>, addresses: seq<nat>, scaled: seq<(nat, nat, nat)>,
      index: nat, limit: nat)
    requires ScaledRead(ts, addresses, scaled) && AllFit(ts, addresses, index, limit)
    ensures forall k :: 0 <= k < |scaled| ==> Fits(scaled[k], index, limit)
  {
  }

  method Assemble(decoded: map<Key, Decoded>, batches: seq<EvidenceBatch>, specs: seq<Spec>, token: Token,
      universe: Universe, mode: IntegrityMode, limit: nat, ghost ts: seq<(nat, Raw)>)
      returns (result: TokenResult)
    requires token.index.Some? && specs == Specs(token, universe) && DistinctKeys(specs)
    requires Answered(decoded, specs, ts) && !mode.FullSupply?
    requires forall b :: 0 <= b < |batches| ==> batches[b].verified
    ensures Sound(result, token, universe, mode, limit, ts)
  {
    var names := ScalarNames(token);
    Reading(decoded, specs, ts, token, universe);
    var scaled, balanceErrors := ReadCalls(decoded, BalanceKeys(universe.addresses));
    var goodScalars, scalarErrors := ReadCalls(decoded, ScalarKeys(names));
    var scalars := ScalarRows(names, goodScalars);
    var index := Recorded(scalars, token.index.value.outputName);
    var balances: seq<BalanceRow>, rayErrors: seq<ErrorRow> := [], [];
    if index.None? {
      rayErrors := seq(|scaled|,
          k requires 0 <= k < |scaled| => ErrorRow(Balance(universe.addresses[scaled[k].0]), RpcFailure, scaled[k].2));
    } else {
      balances, rayErrors := Reconstruct(universe.addresses, scaled, index.value, limit);
      ReconstructedInOrder(universe.addresses, scaled, index.value, limit);
    }
    var errors := balanceErrors + scalarErrors + rayErrors;
    var complete := Successes(decoded) == |specs| && |balances| == |universe.addresses| && errors == [];
    var supplyOk := true;
    if mode.ScaledFullSupply? {
      var expected := Recorded(scalars, ScaledTotalSupply());
      supplyOk := complete && expected.Some? && SumValues(scaled) == expected.value;
    }
    result := TokenResult(|specs|, balances, scalars, errors, batches, [complete, supplyOk]);
    Erc20.VerifiedIff(result, complete, supplyOk);
    CompleteIffReturned(decoded, specs, ts);
    if Successes(decoded) == |specs| {
      ScaledComplete(decoded, specs, ts, token, universe);
      ScalarComplete(decoded, specs, ts, token, universe, token.index.value.outputName);
      ScalarComplete(decoded, specs, ts, token, universe, ScaledTotalSupply());
      assert token.index.value.outputName == names[|names| - 1];
      assert balanceErrors == [] && scalarErrors == [] && (errors == [] <==> rayErrors == []);
      Verdict(ts, token, universe, mode, limit, scaled, index.value, Recorded(scalars, ScaledTotalSupply()), balances,
          rayErrors == []);
    }
  }

  /** With every call read, the row checks decide as the specification does. */
  lemma {:induction false} Verdict(ts: seq<(nat, Raw)>, token: Token, universe: Universe, mode: IntegrityMode,
      limit: nat, scaled: seq<(nat, nat, nat)>, index: nat, supply: Option<nat>, rows: seq<BalanceRow>, allFit: bool)
    requires token.index.Some? && ScaledRead(ts, universe.addresses, scaled) && DistinctResults(ts)
    requires Returned(ts, Scalar(token.index.value.outputName), index)
    requires supply.Some? <==> ScaledTotalSupply() in ScalarNames(token)
    requires supply.Some? ==> Returned(ts, Scalar(ScaledTotalSupply()), supply.value)
    requires allFit <==> forall k :: 0 <= k < |scaled| ==> Fits(scaled[k], index, limit)
    requires allFit ==> |rows| == |scaled| && forall k :: 0 <= k < |scaled| ==>
               RowFor(rows[k], universe.addresses[scaled[k].0], scaled[k], index, limit)
    ensures allFit <==> exists i: nat :: Rebuilt(ts, token, universe, limit, rows, i)
    ensures allFit ==> (ScaledSupplyMatches(ts, token, rows) <==> supply.Some? && SumValues(scaled) == supply.value)
  {
    if allFit {
      RebuiltWhenFits(ts, token, universe, limit, scaled, index, rows);
      if ScaledSupplyMatches(ts, token, rows) {
        ReturnedOnce(ts, Scalar(ScaledTotalSupply()), ScaledTotal(rows), supply.value);
      }
    }
    if i: nat :| Rebuilt(ts, token, universe, limit, rows, i) {
      ReturnedOnce(ts, Scalar(token.index.value.outputName), i, index);
      FitsWhenAllFit(ts, universe.addresses, scaled, index, limit);
    }
  }

  /** A verified scaled-full-supply result: the balances times RAY are within n half rays of the scaled
      total supply times the index. */
  lemma {:induction false} SupplyWithinRounding(result: TokenResult, token: Token, universe: Universe, limit: nat,
      ts: seq<(nat, Raw)>)
    requires token.index.Some? && DistinctResults(ts)
    requires Sound(result, token, universe, ScaledFullSupply, limit, ts) && Verified(result)
    ensures exists index: nat, supply: nat ::
      && Returned(ts, Scalar(token.index.value.outputName), index) && Returned(ts, Scalar(ScaledTotalSupply()), supply)
      && EveryHolder(ts, universe.addresses, index, result.balances)
      && supply * index - |universe.addresses| * HALF_RAY <= Total(result.balances) * RAY <= supply * index +
           |universe.addresses| * HALF_RAY
  {
    var rows := result.balances;
    var index: nat :| Rebuilt(ts, token, universe, limit, rows, index);
    RoundingBound(rows, index);
    var supply: nat := ScaledTotal(rows);
    assert Returned(ts, Scalar(ScaledTotalSupply()), supply);
  }
}
