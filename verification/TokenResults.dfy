/** What a token collection asks for and returns, for plain and for rebasing tokens. */
module TokenResults {
  import opened Wrappers
  import opened Bytes
  import opened UIntCalls

  datatype IntegrityMode = FullSupply | Scoped | ScaledFullSupply

  /** Where an aToken's liquidity index is read, and the scalar name it is stored under. */
  datatype IndexSource = IndexSource(contract: nat, argument: nat, outputName: Text)

  datatype Token = Token(address: nat, isAToken: bool, balanceFunction: Text, deploymentBlock: nat,
                         supplyFunctions: seq<Text>, zeroIsSentinel: bool, index: Option<IndexSource>)

  datatype Universe = Universe(addresses: seq<nat>, sourced: set<nat>)

  datatype BalanceRow = BalanceRow(holder: nat, balance: nat, scaled: Option<nat>, sequence: nat)

  datatype ScalarRow = ScalarRow(name: Text, value: nat, sequence: nat)

  datatype ErrorRow = ErrorRow(key: Key, status: Status, sequence: nat)

  datatype TokenResult = TokenResult(expectedCalls: nat, balances: seq<BalanceRow>, scalars: seq<ScalarRow>,
                                     errors: seq<ErrorRow>, batches: seq<EvidenceBatch>, checks: seq<bool>)

  predicate Verified(r: TokenResult) {
    r.errors == [] && (forall b :: 0 <= b < |r.batches| ==> r.batches[b].verified) &&
    forall c :: 0 <= c < |r.checks| ==> r.checks[c]
  }

  function TotalSupply(): Text {
    Ascii("totalSupply")
  }

  function ScaledTotalSupply(): Text {
    Ascii("scaledTotalSupply")
  }

  predicate KnownScalar(name: Text) {
    name == TotalSupply() || name == ScaledTotalSupply()
  }

  /** Sorted, without duplicates, and with provenance for exactly its addresses. */
  predicate ProperUniverse(u: Universe) {
    && (forall i, j :: 0 <= i < j < |u.addresses| ==> u.addresses[i] < u.addresses[j])
    && u.sourced == set i | 0 <= i < |u.addresses| :: u.addresses[i]
  }

  ghost predicate DistinctNames(names: seq<Text>) {
    forall i, j :: 0 <= i < j < |names| ==> names[i] != names[j]
  }

  // ---- the calls -----------------------------------------------------------------------------------

  function HolderSpecs(addresses: seq<nat>, token: nat, scaled: bool): (specs: seq<Spec>)
    ensures |specs| == |addresses|
    ensures forall i :: 0 <= i < |addresses| ==>
              specs[i] == Spec(Balance(addresses[i]), token,
                  if scaled then ScaledBalanceOf(addresses[i]) else BalanceOf(addresses[i]))
  {
    seq(|addresses|, i requires 0 <= i < |addresses| =>
      Spec(Balance(addresses[i]), token, if scaled then ScaledBalanceOf(addresses[i]) else BalanceOf(addresses[i])))
  }

  function ScalarSpecs(names: seq<Text>, token: nat): (specs: seq<Spec>)
    ensures |specs| == |names|
    ensures forall i :: 0 <= i < |names| ==> specs[i] == Spec(Scalar(names[i]), token, Getter(names[i]))
  {
    seq(|names|, i requires 0 <= i < |names| => Spec(Scalar(names[i]), token, Getter(names[i])))
  }

  ghost predicate ProperScalars(names: seq<Text>) {
    DistinctNames(names) && forall i :: 0 <= i < |names| ==> KnownScalar(names[i])
  }

  method MakeScalarSpecs(names: seq<Text>, token: nat) returns (r: Result<seq<Spec>, CollectError>)
    ensures r.Ok? <==> ProperScalars(names)
    ensures r.Ok? ==> r.value == ScalarSpecs(names, token)
    ensures r.Err? ==> r.error == DuplicateScalar || r.error == UnknownScalar
  {
    var seen: set<Text> := {};
    var specs: seq<Spec> := [];
    for i := 0 to |names|
      invariant seen == set k | 0 <= k < i :: names[k]
      invariant DistinctNames(names[..i]) && forall k :: 0 <= k < i ==> KnownScalar(names[k])
      invariant |specs| == i && forall k :: 0 <= k < i ==> specs[k] == Spec(Scalar(names[k]), token, Getter(names[k]))
    {
      if names[i] in seen {
        return Err(DuplicateScalar);
      }
      seen := seen + {names[i]};
      if !KnownScalar(names[i]) {
        return Err(UnknownScalar);
      }
      specs := specs + [Spec(Scalar(names[i]), token, Getter(names[i]))];
    }
    assert names[..|names|] == names;
    return Ok(specs);
  }

  // ---- reading what was decoded --------------------------------------------------------------------

  ghost predicate Present(decoded: map<Key, Decoded>, keys: seq<Key>) {
    forall i :: 0 <= i < |keys| ==>
        keys[i] in decoded && (decoded[keys[i]].seen.value.Some? <==> decoded[keys[i]].seen.status.Good?)
  }

  /** The values of the good calls, with their places in `keys`. */
  function GoodAt(decoded: map<Key, Decoded>, keys: seq<Key>): (r: seq<(nat, nat, nat)>)
    requires Present(decoded, keys)
  {
    if keys == [] then [] else
      var n := |keys| - 1;
      var call := decoded[keys[n]];
      GoodAt(decoded, keys[..n]) + if call.seen.status.Good? then [(n, call.seen.value.value, call.sequence)] else []
  }

  function BadAt(decoded: map<Key, Decoded>, keys: seq<Key>): seq<ErrorRow>
    requires Present(decoded, keys)
  {
    if keys == [] then [] else
      var n := |keys| - 1;
      var call := decoded[keys[n]];
      BadAt(decoded, keys[..n])
        + if call.seen.status.Good? then [] else [ErrorRow(keys[n], call.seen.status, call.sequence)]
  }

  method ReadCalls(decoded: map<Key, Decoded>, keys: seq<Key>)
      returns (good: seq<(nat, nat, nat)>, errors: seq<ErrorRow>)
    requires Present(decoded, keys)
    ensures good == GoodAt(decoded, keys) && errors == BadAt(decoded, keys)
  {
    good, errors := [], [];
    for i := 0 to |keys|
      invariant Present(decoded, keys[..i])
      invariant good == GoodAt(decoded, keys[..i]) && errors == BadAt(decoded, keys[..i])
    {
      assert keys[..i + 1][..i] == keys[..i];
      var call := decoded[keys[i]];
      if !call.seen.status.Good? {
        errors := errors + [ErrorRow(keys[i], call.seen.status, call.sequence)];
        continue;
      }
      good := good + [(i, call.seen.value.value, call.sequence)];
    }
    assert keys[..|keys|] == keys;
  }

  /** Nothing is lost: each key gives a value or an error; no errors exactly when all are good; and
      each value sits with its own key, in order. */
  lemma {:induction false} ReadExactly(decoded: map<Key, Decoded>, keys: seq<Key>)
    requires Present(decoded, keys)
    ensures |GoodAt(decoded, keys)| + |BadAt(decoded, keys)| == |keys|
    ensures BadAt(decoded, keys) == [] <==> forall i :: 0 <= i < |keys| ==> decoded[keys[i]].seen.status.Good?
    ensures forall k :: 0 <= k < |GoodAt(decoded, keys)| ==>
              var g := GoodAt(decoded, keys)[k];
              g.0 < |keys| && decoded[keys[g.0]].seen.value == Some(g.1) && (BadAt(decoded, keys) == [] ==> g.0 == k)
    ensures forall j, k :: 0 <= j < k < |GoodAt(decoded, keys)| ==>
              GoodAt(decoded, keys)[j].0 < GoodAt(decoded, keys)[k].0
  {
    if keys != [] {
      var front := keys[..|keys| - 1];
      ReadExactly(decoded, front);
      assert forall i :: 0 <= i < |front| ==> front[i] == keys[i];
    }
  }

  function Total(rows: seq<BalanceRow>): nat {
    if rows == [] then 0 else Total(rows[..|rows| - 1]) + rows[|rows| - 1].balance
  }

  // ---- rows ------------------------------------------------------------------------------------

  function BalanceKeys(addresses: seq<nat>): (keys: seq<Key>)
    ensures |keys| == |addresses| && forall i :: 0 <= i < |addresses| ==> keys[i] == Balance(addresses[i])
  {
    seq(|addresses|, i requires 0 <= i < |addresses| => Balance(addresses[i]))
  }

  function ScalarKeys(names: seq<Text>): (keys: seq<Key>)
    ensures |keys| == |names| && forall i :: 0 <= i < |names| ==> keys[i] == Scalar(names[i])
  {
    seq(|names|, i requires 0 <= i < |names| => Scalar(names[i]))
  }

  ghost predicate Places(good: seq<(nat, nat, nat)>, n: nat) {
    forall k :: 0 <= k < |good| ==> good[k].0 < n
  }

  function ScalarRows(names: seq<Text>, good: seq<(nat, nat, nat)>): (rows: seq<ScalarRow>)
    requires Places(good, |names|)
    ensures |rows| == |good| && forall k :: 0 <= k < |good| ==>
              rows[k] == ScalarRow(names[good[k].0], good[k].1, good[k].2)
  {
    seq(|good|, k requires 0 <= k < |good| => ScalarRow(names[good[k].0], good[k].1, good[k].2))
  }

  /** The value recorded under a scalar name. */
  function Recorded(rows: seq<ScalarRow>, name: Text): (v: Option<nat>)
    ensures v.Some? ==> exists k :: 0 <= k < |rows| && rows[k].name == name && rows[k].value == v.value
    ensures v.None? ==> forall k :: 0 <= k < |rows| ==> rows[k].name != name
  {
    if rows == [] then None
    else if rows[|rows| - 1].name == name then Some(rows[|rows| - 1].value)
    else Recorded(rows[..|rows| - 1], name)
  }

  ghost predicate HasWord(ts: seq<(nat, Raw)>, key: Key) {
    exists v: nat :: Returned(ts, key, v)
  }

  /** All the calls under these keys returned a word. */
  ghost predicate AllReturned(ts: seq<(nat, Raw)>, specs: seq<Spec>) {
    forall i :: 0 <= i < |specs| ==> HasWord(ts, specs[i].key)
  }

  lemma {:induction false} PresentFor(decoded: map<Key, Decoded>, specs: seq<Spec>, ts: seq<(nat, Raw)>, keys: seq<Key>)
    requires Answered(decoded, specs, ts)
    requires forall i :: 0 <= i < |keys| ==> keys[i] in SpecKeys(specs)
    ensures Present(decoded, keys)
    ensures forall i :: 0 <= i < |keys| ==> Faithful(decoded[keys[i]].seen, ts, keys[i])
  {
    forall i | 0 <= i < |keys|
      ensures keys[i] in decoded && Faithful(decoded[keys[i]].seen, ts, keys[i])
    {
      var key := keys[i];
      assert key in SpecKeys(specs);
      var j :| 0 <= j < |specs| && specs[j].key == key;
    }
  }

  lemma {:induction false} GoodIffReturned(decoded: map<Key, Decoded>, specs: seq<Spec>, ts: seq<(nat, Raw)>, i: nat)
    requires Answered(decoded, specs, ts) && i < |specs|
    ensures decoded[specs[i].key].seen.status.Good? <==> HasWord(ts, specs[i].key)
  {
    var seen := decoded[specs[i].key].seen;
    assert Faithful(seen, ts, specs[i].key);
    if seen.status.Good? {
      var v: nat := seen.value.value;
      assert Returned(ts, specs[i].key, v);
    }
    if v: nat :| Returned(ts, specs[i].key, v) {
      assert seen.value == Some(v);
    }
  }

  /** The completeness check of the collectors: as many successes as calls. */
  lemma {:induction false} CompleteIffReturned(decoded: map<Key, Decoded>, specs: seq<Spec>, ts: seq<(nat, Raw)>)
    requires DistinctKeys(specs) && Answered(decoded, specs, ts)
    ensures Successes(decoded) == |specs| <==> AllReturned(ts, specs)
    ensures AllReturned(ts, specs) ==> forall i :: 0 <= i < |specs| ==> decoded[specs[i].key].seen.status.Good?
  {
    CompleteIff(decoded, specs);
    forall i | 0 <= i < |specs|
      ensures decoded[specs[i].key].seen.status.Good? <==> HasWord(ts, specs[i].key)
    {
      GoodIffReturned(decoded, specs, ts, i);
    }
    if AllReturned(ts, specs) {
      assert forall i :: 0 <= i < |specs| ==> specs[i].key in decoded && decoded[specs[i].key].seen.status.Good?;
    }
    if forall i :: 0 <= i < |specs| ==> specs[i].key in decoded && decoded[specs[i].key].seen.status.Good? {
      assert AllReturned(ts, specs);
    }
  }

  lemma {:induction false} ReturnedOnce(ts: seq<(nat, Raw)>, key: Key, v: nat, w: nat)
    requires DistinctResults(ts) && Returned(ts, key, v) && Returned(ts, key, w)
    ensures v == w
  {
    var i :| 0 <= i < |ts| && ts[i].1.key == key && ts[i].1.success && |ts[i].1.data| == 32 &&
        FromBigEndian(ts[i].1.data) == v;
    var j :| 0 <= j < |ts| && ts[j].1.key == key && ts[j].1.success && |ts[j].1.data| == 32 &&
        FromBigEndian(ts[j].1.data) == w;
    assert i == j;
  }

  /** The scalar recorded under a name is the word returned for it. */
  lemma {:induction false} RecordedIsReturned(decoded: map<Key, Decoded>, specs: seq<Spec>, ts: seq<(nat, Raw)>,
      names: seq<Text>, name: Text)
    requires Answered(decoded, specs, ts)
    requires forall i :: 0 <= i < |names| ==> Scalar(names[i]) in SpecKeys(specs)
    ensures Present(decoded, ScalarKeys(names)) && Places(GoodAt(decoded, ScalarKeys(names)), |names|)
    ensures var v := Recorded(ScalarRows(names, GoodAt(decoded, ScalarKeys(names))), name);
            && (v.Some? ==> name in names && Returned(ts, Scalar(name), v.value))
            && (name in names && BadAt(decoded, ScalarKeys(names)) == [] ==> v.Some?)
  {
    var keys := ScalarKeys(names);
    PresentFor(decoded, specs, ts, keys);
    ReadExactly(decoded, keys);
    var good := GoodAt(decoded, keys);
    var rows := ScalarRows(names, good);
    var v := Recorded(rows, name);
    if v.Some? {
      var k :| 0 <= k < |rows| && rows[k].name == name && rows[k].value == v.value;
      assert names[good[k].0] == name && Faithful(decoded[keys[good[k].0]].seen, ts, Scalar(name));
    }
    if name in names && BadAt(decoded, keys) == [] {
      var i :| 0 <= i < |names| && names[i] == name;
      assert good[i].0 == i && rows[i].name == name;
    }
  }
}
