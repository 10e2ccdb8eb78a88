/** Strict execution of calls that return one uint256, shared by the collectors. */
module UIntCalls {
  import opened Wrappers
  import opened Bytes

  /** What a call key spells: `balanceOf/<holder>`, `scalar/<name>`, `sentinel/<zero address>`. */
  datatype Key = Balance(holder: nat) | Scalar(name: Text) | Sentinel

  /** What the calldata asks. */
  datatype Query =
    | BalanceOf(holder: nat)
    | ScaledBalanceOf(holder: nat)
    | Getter(name: Text)
    | NormalizedIncome(asset: nat)

  datatype Spec = Spec(key: Key, target: nat, query: Query)

  /** `reverts` is how a failed call's error classifies. */
  datatype Raw = Raw(key: Key, success: bool, data: seq<Byte>, reverts: bool)

  datatype EvidenceBatch = EvidenceBatch(verified: bool, anchorHash: nat, digest: nat, results: seq<Raw>)

  datatype Status = Good | Reverted | RpcFailure | EmptyReturn | MalformedReturn

  datatype Observation = Observation(status: Status, value: Option<nat>)

  datatype Decoded = Decoded(spec: Spec, seen: Observation, sequence: nat)

  datatype CollectError =
    | Unsupported | NotDeployed | BadUniverse | DuplicateScalar | UnknownScalar | DuplicateKey
    | ExecutorFailed | Unverified | WrongAnchor | WrongDigest | UnexpectedKey | RepeatedResult | MissingKeys

  /** A zero is a value; nothing, or anything but one word, is not. */
  function DecodeUint256(success: bool, data: seq<Byte>): (o: Observation)
    ensures o.status.Good? <==> success && |data| == 32
    ensures o.value.Some? <==> o.status.Good?
    ensures o.value.Some? ==> o.value.value == FromBigEndian(data)
  {
    if !success then Observation(Reverted, None)
    else if data == [] then Observation(EmptyReturn, None)
    else if |data| != 32 then Observation(MalformedReturn, None)
    else Observation(Good, Some(FromBigEndian(data)))
  }

  function Observe(raw: Raw): Observation {
    if raw.success then DecodeUint256(true, raw.data)
    else Observation(if raw.reverts then Reverted else RpcFailure, None)
  }

  // ---- results in arrival order ------------------------------------------------------------------

  /** The results with the sequence number of their batch. */
  function Tag(results: seq<Raw>, sequence: nat): (ts: seq<(nat, Raw)>)
    ensures |ts| == |results| && forall j :: 0 <= j < |results| ==> ts[j] == (sequence, results[j])
  {
    seq(|results|, j requires 0 <= j < |results| => (sequence, results[j]))
  }

  function Tagged(batches: seq<EvidenceBatch>): seq<(nat, Raw)> {
    if batches == [] then [] else
      Tagged(batches[..|batches| - 1]) + Tag(batches[|batches| - 1].results, |batches| - 1)
  }

  predicate Trusted(b: EvidenceBatch, anchorHash: nat, digest: seq<Raw> -> nat) {
    b.verified && b.anchorHash == anchorHash && b.digest == digest(b.results)
  }

  ghost predicate DistinctKeys(specs: seq<Spec>) {
    forall i, j :: 0 <= i < j < |specs| ==> specs[i].key != specs[j].key
  }

  function SpecKeys(specs: seq<Spec>): set<Key> {
    set i | 0 <= i < |specs| :: specs[i].key
  }

  ghost predicate DistinctResults(ts: seq<(nat, Raw)>) {
    forall i, j :: 0 <= i < j < |ts| ==> ts[i].1.key != ts[j].1.key
  }

  function ResultKeys(ts: seq<(nat, Raw)>): set<Key> {
    set j | 0 <= j < |ts| :: ts[j].1.key
  }

  /** Each expected key answered exactly once, and nothing else. */
  ghost predicate ExactlyAnswered(specs: seq<Spec>, ts: seq<(nat, Raw)>) {
    DistinctResults(ts) && ResultKeys(ts) == SpecKeys(specs)
  }

  ghost predicate Maps(expected: map<Key, Spec>, specs: seq<Spec>) {
    expected.Keys == SpecKeys(specs) && forall i :: 0 <= i < |specs| ==>
        specs[i].key in expected && expected[specs[i].key] == specs[i]
  }

  /** `decoded` holds exactly these results, each under its own key. */
  ghost predicate Holds(decoded: map<Key, Decoded>, expected: map<Key, Spec>, ts: seq<(nat, Raw)>) {
    && decoded.Keys == ResultKeys(ts) && DistinctResults(ts) && decoded.Keys <= expected.Keys
    && forall j :: 0 <= j < |ts| ==>
         ts[j].1.key in decoded && ts[j].1.key in expected
         && decoded[ts[j].1.key] == Decoded(expected[ts[j].1.key], Observe(ts[j].1), ts[j].0)
  }

  method ExpectedOf(specs: seq<Spec>) returns (r: Result<map<Key, Spec>, CollectError>)
    ensures r.Ok? <==> DistinctKeys(specs)
    ensures r.Err? ==> r.error == DuplicateKey
    ensures r.Ok? ==> Maps(r.value, specs)
  {
    var expected: map<Key, Spec> := map[];
    for i := 0 to |specs|
      invariant DistinctKeys(specs[..i]) && Maps(expected, specs[..i])
    {
      assert forall j :: 0 <= j < i ==> specs[..i][j] == specs[j];
      if specs[i].key in expected {
        return Err(DuplicateKey);
      }
      expected := expected[specs[i].key := specs[i]];
      assert specs[..i + 1] == specs[..i] + [specs[i]];
      assert SpecKeys(specs[..i + 1]) == SpecKeys(specs[..i]) + {specs[i].key};
    }
    assert specs[..|specs|] == specs;
    return Ok(expected);
  }

  lemma {:induction false} HoldsMore(decoded: map<Key, Decoded>, expected: map<Key, Spec>, ts: seq<(nat, Raw)>,
      t: (nat, Raw))
    requires Holds(decoded, expected, ts) && t.1.key in expected && t.1.key !in decoded
    ensures Holds(decoded[t.1.key := Decoded(expected[t.1.key], Observe(t.1), t.0)], expected, ts + [t])
  {
    var more := ts + [t];
    assert forall j :: 0 <= j < |ts| ==> more[j] == ts[j] && ts[j].1.key in ResultKeys(ts);
    assert more[|ts|] == t;
    assert ResultKeys(more) == ResultKeys(ts) + {t.1.key};
  }

  /** A result with a key that is not expected or already seen makes the whole answer wrong. */
  lemma {:induction false} StrayResult(specs: seq<Spec>, ts: seq<(nat, Raw)>, j: nat)
    requires j < |ts|
    requires ts[j].1.key !in SpecKeys(specs) || ts[j].1.key in ResultKeys(ts[..j])
    ensures !ExactlyAnswered(specs, ts)
  {
    if ts[j].1.key in ResultKeys(ts[..j]) {
      var i :| 0 <= i < j && ts[..j][i].1.key == ts[j].1.key;
      assert ts[i].1.key == ts[j].1.key;
    } else {
      assert ts[j].1.key in ResultKeys(ts);
    }
  }

  /** Absorbs the results of one batch. */
  method Absorb(expected: map<Key, Spec>, before: map<Key, Decoded>, results: seq<Raw>, sequence: nat,
                ghost specs: seq<Spec>, ghost ts: seq<(nat, Raw)>, ghost all: seq<(nat, Raw)>)
      returns (r: Result<map<Key, Decoded>, CollectError>)
    requires Maps(expected, specs) && Holds(before, expected, ts)
    requires ts + Tag(results, sequence) <= all
    ensures r.Ok? ==> Holds(r.value, expected, ts + Tag(results, sequence))
    ensures r.Err? ==> !ExactlyAnswered(specs, all)
  {
    var decoded := before;
    ghost var tagged := Tag(results, sequence);
    assert ts + tagged[..0] == ts;
    for k := 0 to |results|
      invariant Holds(decoded, expected, ts + tagged[..k])
    {
      var raw := results[k];
      ghost var sofar := ts + tagged[..k];
      assert all[..|sofar|] == sofar && all[|sofar|] == tagged[k];
      if raw.key !in expected {
        StrayResult(specs, all, |sofar|);
        return Err(UnexpectedKey);
      }
      if raw.key in decoded {
        StrayResult(specs, all, |sofar|);
        return Err(RepeatedResult);
      }
      HoldsMore(decoded, expected, sofar, (sequence, raw));
      assert ts + tagged[..k + 1] == sofar + [tagged[k]];
      decoded := decoded[raw.key := Decoded(expected[raw.key], Observe(raw), sequence)];
    }
    assert ts + tagged[..|results|] == ts + tagged;
    return Ok(decoded);
  }

  lemma {:induction false} TaggedPrefix(batches: seq<EvidenceBatch>, k: nat)
    requires k <= |batches|
    ensures Tagged(batches[..k]) <= Tagged(batches)
    decreases |batches| - k
  {
    if k == |batches| {
      assert batches[..k] == batches;
    } else {
      assert batches[..k + 1][..k] == batches[..k];
      TaggedPrefix(batches, k + 1);
    }
  }

  /** Accepts exactly when the keys are distinct, the executor answered, every batch is verified at the
      anchor with a matching digest, and each key is answered once; then every key holds its own
      result, whatever the batches were. */
  method ExecuteUIntCalls(executor: seq<Spec> -> Option<seq<EvidenceBatch>>, specs: seq<Spec>, anchorHash: nat,
      digest: seq<Raw> -> nat)
      returns (r: Result<map<Key, Decoded>, CollectError>, batches: seq<EvidenceBatch>)
    ensures r.Ok? <==>
      (&& DistinctKeys(specs) && executor(specs).Some?
       && (forall b :: 0 <= b < |executor(specs).value| ==> Trusted(executor(specs).value[b], anchorHash, digest))
       && ExactlyAnswered(specs, Tagged(executor(specs).value)))
    ensures r.Ok? ==> executor(specs) == Some(batches) && Answered(r.value, specs, Tagged(batches))
  {
    batches := [];
    var wanted := ExpectedOf(specs);
    if wanted.Err? {
      return Err(wanted.error), batches;
    }
    var expected := wanted.value;
    var answer := executor(specs);
    if answer.None? {
      return Err(ExecutorFailed), batches;
    }
    batches := answer.value;
    var decoded: map<Key, Decoded> := map[];
    for b := 0 to |batches|
      invariant forall k :: 0 <= k < b ==> Trusted(batches[k], anchorHash, digest)
      invariant Holds(decoded, expected, Tagged(batches[..b]))
    {
      var batch := batches[b];
      if !batch.verified {
        return Err(Unverified), batches;
      }
      if batch.anchorHash != anchorHash {
        return Err(WrongAnchor), batches;
      }
      if batch.digest != digest(batch.results) {
        return Err(WrongDigest), batches;
      }
      assert batches[..b + 1][..b] == batches[..b];
      TaggedPrefix(batches, b + 1);
      var more := Absorb(expected, decoded, batch.results, b, specs, Tagged(batches[..b]), Tagged(batches));
      if more.Err? {
        return Err(more.error), batches;
      }
      decoded := more.value;
    }
    assert batches[..|batches|] == batches;
    if expected.Keys - decoded.Keys != {} {
      return Err(MissingKeys), batches;
    }
    forall k | k in expected ensures k in decoded {
      assert k !in expected.Keys - decoded.Keys;
    }
    HoldsAnswers(decoded, expected, specs, Tagged(batches));
    return Ok(decoded), batches;
  }

  /** The value returned for a key: one successful 32-byte word. */
  ghost predicate Returned(ts: seq<(nat, Raw)>, key: Key, value: nat) {
    exists j ::
      && 0 <= j < |ts| && ts[j].1.key == key
      && ts[j].1.success && |ts[j].1.data| == 32 && FromBigEndian(ts[j].1.data) == value
  }

  /** Every spec has its decoded call, good exactly when a word was returned for its key. */
  ghost predicate Answered(decoded: map<Key, Decoded>, specs: seq<Spec>, ts: seq<(nat, Raw)>) {
    && DistinctResults(ts)
    && decoded.Keys == SpecKeys(specs)
    && forall i :: 0 <= i < |specs| ==>
         && specs[i].key in decoded && decoded[specs[i].key].spec == specs[i]
         && Faithful(decoded[specs[i].key].seen, ts, specs[i].key)
  }

  ghost predicate Faithful(seen: Observation, ts: seq<(nat, Raw)>, key: Key) {
    && (seen.value.Some? <==> seen.status.Good?)
    && forall v: nat :: seen.value == Some(v) <==> Returned(ts, key, v)
  }

  lemma {:induction false} FaithfulAt(ts: seq<(nat, Raw)>, j: nat)
    requires DistinctResults(ts) && j < |ts|
    ensures Faithful(Observe(ts[j].1), ts, ts[j].1.key)
  {
    var key, seen := ts[j].1.key, Observe(ts[j].1);
    forall v: nat ensures seen.value == Some(v) <==> Returned(ts, key, v) {
      if Returned(ts, key, v) {
        var i :| 0 <= i < |ts| && ts[i].1.key == key && ts[i].1.success && |ts[i].1.data| == 32 &&
            FromBigEndian(ts[i].1.data) == v;
        assert i == j;
      }
    }
  }

  lemma {:induction false} HoldsAnswers(decoded: map<Key, Decoded>, expected: map<Key, Spec>, specs: seq<Spec>,
      ts: seq<(nat, Raw)>)
    requires Maps(expected, specs) && Holds(decoded, expected, ts) && expected.Keys <= decoded.Keys
    ensures Answered(decoded, specs, ts) && ExactlyAnswered(specs, ts)
  {
    forall i | 0 <= i < |specs|
      ensures specs[i].key in decoded && decoded[specs[i].key].spec == specs[i]
      ensures Faithful(decoded[specs[i].key].seen, ts, specs[i].key)
    {
      var key := specs[i].key;
      assert key in expected && key in ResultKeys(ts);
      var j :| 0 <= j < |ts| && ts[j].1.key == key;
      FaithfulAt(ts, j);
    }
  }

  /** How many calls succeeded. */
  function Successes(decoded: map<Key, Decoded>): nat {
    |set k | k in decoded && decoded[k].seen.status.Good?|
  }

  /** The completeness check passes exactly when every call succeeded. */
  lemma {:induction false} CompleteIff(decoded: map<Key, Decoded>, specs: seq<Spec>)
    requires DistinctKeys(specs) && decoded.Keys == SpecKeys(specs)
    ensures Successes(decoded) == |specs| <==>
              forall i :: 0 <= i < |specs| ==> specs[i].key in decoded && decoded[specs[i].key].seen.status.Good?
  {
    var good := set k | k in decoded && decoded[k].seen.status.Good?;
    KeyCount(specs);
    assert forall i :: 0 <= i < |specs| ==> specs[i].key in SpecKeys(specs);
    assert good <= SpecKeys(specs);
    if forall i :: 0 <= i < |specs| ==> specs[i].key in decoded && decoded[specs[i].key].seen.status.Good? {
      assert SpecKeys(specs) == good;
    }
    if |good| == |specs| {
      SubsetSameSize(good, SpecKeys(specs));
    }
  }

  lemma {:induction false} SubsetSameSize(a: set<Key>, b: set<Key>)
    requires a <= b && |a| == |b|
    ensures a == b
  {
    assert b == a + (b - a);
  }

  lemma {:induction false} KeyCount(specs: seq<Spec>)
    requires DistinctKeys(specs)
    ensures |SpecKeys(specs)| == |specs|
  {
    if specs != [] {
      var front, last := specs[..|specs| - 1], specs[|specs| - 1];
      KeyCount(front);
      assert forall i :: 0 <= i < |front| ==> front[i] == specs[i];
      assert SpecKeys(specs) == SpecKeys(front) + {last.key};
      assert last.key !in SpecKeys(front);
    }
  }
}
