/** JSON-RPC batches matched by id, and the provider quorum for number-pinned reads. */
module LegacyBatch {
  import opened Wrappers
  import opened Sorting
  import opened SortedSets
  import opened Bytes
  import opened Digests
  import opened Endpoints
  import opened Calls

  /** An `id` member that is an integer, or anything else (text, null, a boolean, absent). */
  datatype Id = IntId(id: int) | OtherId

  datatype Version = NoVersion | Version2 | OtherVersion

  datatype ResultValue = Hex(bytes: seq<Byte>) | BadHex | NotText

  datatype ErrorValue = ErrorObject(code: int, message: Text) | BadError | NotAnObject

  /** A response object; `result` and `error` say whether the member is present. */
  datatype Response = Response(id: Id, version: Version, result: Option<ResultValue>, error: Option<ErrorValue>)

  datatype BatchError = UnknownId | DuplicateId | Malformed | MissingIds

  /** Exactly one of a hex result and a well-formed error object. */
  predicate WellFormed(r: Response) {
    if r.error.Some? then r.result.None? && r.error.value.ErrorObject? else r.result.Some? && r.result.value.Hex?
  }

  function Interpret(call: Call, r: Response): RawResult
    requires WellFormed(r)
  {
    if r.error.Some? then RawResult(call.key, false, [], Some(r.error.value.code), Some(r.error.value.message))
    else RawResult(call.key, true, r.result.value.bytes, None, None)
  }

  ghost function RequestIds(n: nat): (ids: set<int>)
    ensures forall id :: id in ids <==> 1 <= id <= n
  {
    if n == 0 then {} else RequestIds(n - 1) + {n}
  }

  /** Request ids are 1, 2, ... in call order. */
  method BuildRequests(calls: seq<Call>) returns (byId: map<int, Call>)
    ensures forall id :: id in byId <==> 1 <= id <= |calls|
    ensures forall k :: 0 <= k < |calls| ==> byId[k + 1] == calls[k]
  {
    byId := map[];
    for k := 0 to |calls|
      invariant forall id :: id in byId <==> 1 <= id <= k
      invariant forall j :: 0 <= j < k ==> byId[j + 1] == calls[j]
    {
      byId := byId[k + 1 := calls[k]];
    }
  }

  // ---- decoding -----------------------------------------------------------------------------

  predicate Admissible(r: Response, ids: set<int>) {
    r.id.IntId? && r.id.id in ids && !r.version.OtherVersion?
  }

  /** Exactly one admissible, well-formed answer for each request id, and no other answer. */
  ghost predicate Complete(responses: seq<Response>, ids: set<int>) {
    && (forall r :: r in responses ==> Admissible(r, ids) && WellFormed(r))
    && (forall i, j :: 0 <= i < j < |responses| ==> responses[i].id != responses[j].id)
    && (forall id :: id in ids ==> exists r :: r in responses && r.id == IntId(id))
  }

  /** Acceptance exactly of complete batches; result k answers the k-th id. */
  ghost predicate DecodesTo(responses: seq<Response>, byId: map<int, Call>, ids: seq<int>,
      out: Result<seq<RawResult>, BatchError>)
  {
    && (out.Ok? <==> Complete(responses, byId.Keys))
    && (out.Ok? ==>
          && |out.value| == |ids|
          && forall k, r :: 0 <= k < |ids| && r in responses && r.id == IntId(ids[k]) ==>
               ids[k] in byId && WellFormed(r) && out.value[k] == Interpret(byId[ids[k]], r))
  }

  method DecodeResponses(responses: seq<Response>, byId: map<int, Call>)
      returns (out: Result<seq<RawResult>, BatchError>)
    ensures DecodesTo(responses, byId, SortedSet(byId.Keys), out)
  {
    var found, error := CollectById(responses, byId.Keys);
    if error.Some? {
      return Err(error.value);
    }
    Inhabited(byId.Keys - found.Keys);
    if byId.Keys - found.Keys != {} {
      return Err(MissingIds);
    }
    assert forall id :: id in byId.Keys ==> id !in byId.Keys - found.Keys;
    var ids := SortedSet(byId.Keys);
    forall k | 0 <= k < |ids| ensures ids[k] in byId && ids[k] in found && found[ids[k]] in responses {
      var id := ids[k];
      assert id in ids && id in byId.Keys;
    }
    out := InterpretAll(ids, byId, found, responses);
  }

  /** The second loop: the collected answers by ascending id, until one is malformed. */
  method InterpretAll(ids: seq<int>, byId: map<int, Call>, found: map<int, Response>, ghost responses: seq<Response>)
    returns (out: Result<seq<RawResult>, BatchError>)
    requires forall k :: 0 <= k < |ids| ==> ids[k] in byId && ids[k] in found && found[ids[k]] in responses
    requires forall id :: id in byId.Keys ==> id in ids && id in found
    requires Collected(responses, byId.Keys, found)
    ensures DecodesTo(responses, byId, ids, out)
  {
    var output: seq<RawResult> := [];
    for k := 0 to |ids|
      invariant |output| == k
      invariant forall j :: 0 <= j < k ==>
                  WellFormed(found[ids[j]]) && output[j] == Interpret(byId[ids[j]], found[ids[j]])
    {
      var response := found[ids[k]];
      if !WellFormed(response) {
        assert response in responses;
        return Err(Malformed);
      }
      output := output + [Interpret(byId[ids[k]], response)];
    }
    forall r | r in responses ensures WellFormed(r) {
      assert r.id.id in ids;
      var k :| 0 <= k < |ids| && ids[k] == r.id.id;
    }
    forall id | id in byId.Keys ensures exists r :: r in responses && r.id == IntId(id) {
      assert found[id] in responses;
    }
    return Ok(output);
  }

  ghost predicate Collected(responses: seq<Response>, ids: set<int>, found: map<int, Response>) {
    && (forall r :: r in responses ==> Admissible(r, ids) && r.id.id in found && found[r.id.id] == r)
    && (forall id :: id in found ==> id in ids && found[id] in responses && found[id].id == IntId(id))
    && (forall i, j :: 0 <= i < j < |responses| ==> responses[i].id != responses[j].id)
  }

  /** The first loop: responses by id, until one is unknown, repeated or of another protocol version. */
  method CollectById(responses: seq<Response>, ids: set<int>)
      returns (found: map<int, Response>, error: Option<BatchError>)
    ensures error.Some? ==> !Complete(responses, ids)
    ensures error.None? ==> Collected(responses, ids, found)
  {
    found := map[];
    for i := 0 to |responses|
      invariant forall j :: 0 <= j < i ==>
                  Admissible(responses[j], ids) && responses[j].id.id in found &&
                  found[responses[j].id.id] == responses[j]
      invariant forall id :: id in found ==>
                  exists j :: 0 <= j < i && responses[j] == found[id] && responses[j].id == IntId(id)
      invariant forall j, k :: 0 <= j < k < i ==> responses[j].id != responses[k].id
    {
      var response := responses[i];
      assert response in responses;
      if !response.id.IntId? || response.id.id !in ids {
        return found, Some(UnknownId);
      }
      if response.id.id in found {
        return found, Some(DuplicateId);
      }
      if response.version.OtherVersion? {
        return found, Some(Malformed);
      }
      found := found[response.id.id := response];
      assert responses[i] == found[response.id.id];
    }
    return found, None;
  }

  /** The order of the responses does not matter: a reordered batch is accepted alike and decodes to
      the same results. */
  lemma {:induction false} OrderIrrelevant(responses: seq<Response>, reordered: seq<Response>, byId: map<int, Call>,
      ids: seq<int>, out: Result<seq<RawResult>, BatchError>, out': Result<seq<RawResult>, BatchError>)
    requires multiset(responses) == multiset(reordered) && forall k :: 0 <= k < |ids| ==> ids[k] in byId
    requires DecodesTo(responses, byId, ids, out) && DecodesTo(reordered, byId, ids, out')
    ensures out.Ok? <==> out'.Ok?
    ensures out.Ok? ==> out == out'
  {
    if out.Ok? {
      CompleteReordered(responses, reordered, byId.Keys);
      SameMultiset(responses, reordered);
      forall k | 0 <= k < |ids| ensures out.value[k] == out'.value[k] {
        var id := ids[k];
        assert id in byId.Keys;
        var r :| r in responses && r.id == IntId(id);
        assert r in reordered;
      }
      assert out.value == out'.value;
    }
    if out'.Ok? {
      CompleteReordered(reordered, responses, byId.Keys);
    }
  }

  lemma {:induction false} CompleteReordered(responses: seq<Response>, reordered: seq<Response>, ids: set<int>)
    requires multiset(responses) == multiset(reordered) && Complete(responses, ids)
    ensures Complete(reordered, ids)
  {
    SameMultiset(responses, reordered);
    OneResponsePerId(responses, ids);
    DistinctMultiset(responses, reordered);
    forall i, j | 0 <= i < j < |reordered| ensures reordered[i].id != reordered[j].id {
      assert reordered[i] in responses && reordered[j] in responses && reordered[i] != reordered[j];
    }
  }

  lemma {:induction false} OneResponsePerId(responses: seq<Response>, ids: set<int>)
    requires Complete(responses, ids)
    ensures forall r, r' :: r in responses && r' in responses && r.id == r'.id ==> r == r'
    ensures Distinct(responses)
  {
  }

  /** With ids numbered by `BuildRequests`, ascending id is call order. */
  lemma {:induction false} CallOrder(calls: seq<Call>, byId: map<int, Call>, ids: seq<int>, responses: seq<Response>,
      out: Result<seq<RawResult>, BatchError>)
    requires forall id :: id in byId <==> 1 <= id <= |calls|
    requires forall k :: 0 <= k < |calls| ==> byId[k + 1] == calls[k]
    requires (forall id :: id in ids <==> id in byId) && forall i, j :: 0 <= i < j < |ids| ==> ids[i] < ids[j]
    requires DecodesTo(responses, byId, ids, out) && out.Ok?
    ensures AllAnswered(responses, calls, out.value)
  {
    SortedIds(ids, |calls|);
    forall k | 0 <= k < |calls| ensures AnsweredBy(responses, k + 1, calls[k], out.value[k]) {
      assert ids[k] == k + 1 && k + 1 in byId.Keys;
      var r :| r in responses && r.id == IntId(k + 1);
    }
  }

  /** In call order, each call has the reading of the response to its request. */
  ghost predicate AllAnswered(responses: seq<Response>, calls: seq<Call>, results: seq<RawResult>) {
    InOrder(calls, results) && forall k :: 0 <= k < |calls| ==> AnsweredBy(responses, k + 1, calls[k], results[k])
  }

  /** Build the requests, decode the responses. */
  method DecodeCalls(calls: seq<Call>, responses: seq<Response>) returns (out: Result<seq<RawResult>, BatchError>)
    ensures out.Ok? <==> Complete(responses, RequestIds(|calls|))
    ensures out.Ok? ==> AllAnswered(responses, calls, out.value)
  {
    var byId := BuildRequests(calls);
    assert byId.Keys == RequestIds(|calls|);
    out := DecodeResponses(responses, byId);
    if out.Ok? {
      CallOrder(calls, byId, SortedSet(byId.Keys), responses, out);
    }
  }

  /** The result is the reading of the response with this id. */
  ghost predicate AnsweredBy(responses: seq<Response>, id: int, call: Call, result: RawResult) {
    exists r :: r in responses && r.id == IntId(id) && WellFormed(r) && result == Interpret(call, r)
  }

  lemma {:induction false} SortedIds(ids: seq<int>, n: nat)
    requires forall id :: id in ids <==> 1 <= id <= n
    requires forall i, j :: 0 <= i < j < |ids| ==> ids[i] < ids[j]
    ensures |ids| == n && forall k :: 0 <= k < n ==> ids[k] == k + 1
  {
    for k := 0 to |ids|
      invariant k <= n && forall j :: 0 <= j < k ==> ids[j] == j + 1
    {
      assert ids[k] in ids && (k > 0 ==> ids[k - 1] < ids[k]);
      assert k + 1 in ids;
      var j :| 0 <= j < |ids| && ids[j] == k + 1;
    }
    assert n > 0 ==> n in ids;
  }

  // ---- the digest of raw results ------------------------------------------------------------------

  /** The code that is hashed for a result without one: -2^31. */
  const DEFAULT_CODE: int := -0x8000_0000

  /** A missing code is hashed as the default, a missing message as the empty one. */
  function RawParts(r: RawResult): seq<Part> {
    var code := if r.code.None? then DEFAULT_CODE else r.code.value;
    var message := if r.message.None? then [] else r.message.value;
    [Label(r.key), Number(if r.success then 1 else 0, 1), Label(r.data), Signed(code, 8), Label(message)]
  }

  predicate RawFits(r: RawResult) {
    forall k :: 0 <= k < |RawParts(r)| ==> Fits(RawParts(r)[k])
  }

  function RawStream(results: seq<RawResult>): seq<Byte>
    requires forall r :: r in results ==> RawFits(r)
  {
    if results == [] then [] else
      assert RawFits(results[0]);
      PartsThen(RawParts(results[0]), RawStream(results[1..]))
  }

  /** Two values that the digest cannot tell apart: equal ones, or none and the default. */
  predicate SameOr<T(==)>(a: Option<T>, b: Option<T>, default: T) {
    a == b || (a.None? && b == Some(default)) || (b.None? && a == Some(default))
  }

  predicate SameRaw(a: RawResult, b: RawResult) {
    && a.key == b.key && a.success == b.success && a.data == b.data
    && SameOr(a.code, b.code, DEFAULT_CODE) && SameOr(a.message, b.message, [])
  }

  lemma {:induction false} SameParts(a: RawResult, b: RawResult)
    ensures RawParts(a) == RawParts(b) <==> SameRaw(a, b)
  {
    var p, q := RawParts(a), RawParts(b);
    assert p == q <==> p[0] == q[0] && p[1] == q[1] && p[2] == q[2] && p[3] == q[3] && p[4] == q[4];
  }

  /** Two lists of results feed the same bytes if and only if they are as long and, call by call, keys,
      flags and data agree, the codes are equal or one is missing and the other is -2^31, and the messages
      are equal or one is missing and the other empty. */
  lemma {:induction false} RawStreamIff(a: seq<RawResult>, b: seq<RawResult>)
    requires (forall r :: r in a ==> RawFits(r)) && (forall r :: r in b ==> RawFits(r))
    ensures RawStream(a) == RawStream(b) <==> |a| == |b| && forall k :: 0 <= k < |a| ==> SameRaw(a[k], b[k])
  {
    if a == [] || b == [] {
      if a != [] {
        NonemptyRawStream(a);
      } else if b != [] {
        NonemptyRawStream(b);
      }
    } else {
      var p, q := RawParts(a[0]), RawParts(b[0]);
      var x, y := RawStream(a[1..]), RawStream(b[1..]);
      assert RawFits(a[0]) && RawFits(b[0]) && Aligned(p, q);
      SameParts(a[0], b[0]);
      RawStreamIff(a[1..], b[1..]);
      if RawStream(a) == RawStream(b) {
        PeelParts(p, x, q, y);
        forall k | 0 <= k < |a| ensures SameRaw(a[k], b[k]) {
          assert k > 0 ==> a[k] == a[1..][k - 1] && b[k] == b[1..][k - 1];
        }
      }
      if |a| == |b| && forall k :: 0 <= k < |a| ==> SameRaw(a[k], b[k]) {
        assert SameRaw(a[0], b[0]);
        forall k | 0 <= k < |a[1..]| ensures SameRaw(a[1..][k], b[1..][k]) {
          assert SameRaw(a[k + 1], b[k + 1]);
        }
      }
    }
  }

  lemma {:induction false} NonemptyRawStream(a: seq<RawResult>)
    requires a != [] && forall r :: r in a ==> RawFits(r)
    ensures RawStream(a) != []
  {
    assert RawFits(a[0]);
    assert RawParts(a[0])[0] == Label(a[0].key);
  }

  /** The two confusions: a missing code and the default one, a missing message and the empty one. */
  lemma {:induction false} RawDefaultCollides(key: Text, data: seq<Byte>, code: Option<int>, message: Option<Text>)
    requires RawFits(RawResult(key, false, data, code, message))
    ensures var a := RawResult(key, false, data, None, message);
            var b := RawResult(key, false, data, Some(DEFAULT_CODE), message);
            RawFits(a) && RawFits(b) && a != b && RawStream([a]) == RawStream([b])
    ensures var a, b := RawResult(key, false, data, code, None), RawResult(key, false, data, code, Some([]));
            RawFits(a) && RawFits(b) && a != b && RawStream([a]) == RawStream([b])
  {
    var r := RawResult(key, false, data, code, message);
    FitsWithout(r);
    var a, b := r.(code := None), r.(code := Some(DEFAULT_CODE));
    assert RawParts(a) == RawParts(b);
    RawStreamIff([a], [b]);
    var c, d := r.(message := None), r.(message := Some([]));
    assert RawParts(c) == RawParts(d);
    RawStreamIff([c], [d]);
  }

  /** The defaults fit their fields. */
  lemma {:induction false} FitsWithout(r: RawResult)
    requires RawFits(r)
    ensures RawFits(r.(code := None)) && RawFits(r.(message := None))
  {
    assert forall k :: 0 <= k < 5 ==> Fits(RawParts(r)[k]);
    assert Fits(RawParts(r)[0]) && Fits(RawParts(r)[1]) && Fits(RawParts(r)[2]);
    assert Fits(RawParts(r)[3]) && Fits(RawParts(r)[4]);
    DefaultsFit();
  }

  lemma {:induction false} DefaultsFit()
    ensures Fits(Signed(DEFAULT_CODE, 8)) && Fits(Label([]))
  {
  }

  /** A result with a code and a message exactly when it failed, as this executor makes them. */
  predicate Candid(r: RawResult) {
    (r.success <==> r.code.None?) && (r.success <==> r.message.None?)
  }

  ghost predicate AllCandid(results: seq<RawResult>) {
    forall k :: 0 <= k < |results| ==> Candid(results[k])
  }

  /** Among such results the digest confuses nothing: they feed the same bytes only if they are the same.
      (The Multicall3 executor reports no errors at all, so its results do not meet the confusion either.) */
  lemma {:induction false} CandidStreams(a: seq<RawResult>, b: seq<RawResult>)
    requires (forall r :: r in a ==> RawFits(r)) && (forall r :: r in b ==> RawFits(r))
    requires AllCandid(a) && AllCandid(b)
    ensures RawStream(a) == RawStream(b) <==> a == b
  {
    RawStreamIff(a, b);
    if |a| == |b| && forall k :: 0 <= k < |a| ==> SameRaw(a[k], b[k]) {
      forall k | 0 <= k < |a| ensures a[k] == b[k] {
        assert SameRaw(a[k], b[k]);
      }
    }
  }

  // ---- execution ------------------------------------------------------------------------------------

  /** What one call alone is answered. */
  datatype Outcome = Value(value: ResultValue) | Refusal(code: int, message: Text)

  /** One exchange: a batch, or for an endpoint without HTTP batching an outcome per call. A failed check
      of the anchor hash before or after a number-pinned exchange counts as broken. */
  datatype Exchange =
    | Responses(responses: seq<Response>)
    | Individual(outcome: nat -> Outcome)
    | Broken(failure: Failure)

  /** What an endpoint answers to the k-th exchange, pinned by hash (EIP-1898) or by number. */
  type BatchTransport = (nat, Endpoint, seq<Call>, bool) -> Exchange

  datatype VerifiedBatch = VerifiedBatch(results: seq<RawResult>, groups: seq<string>, byQuorum: bool)

  datatype LegacyError = ProviderLimit | NoHealthyEndpoint | RpcError | QuorumMismatch | Undigestible

  predicate Legible(o: Outcome) {
    o.Value? ==> o.value.Hex?
  }

  function ReadOutcome(call: Call, o: Outcome): RawResult
    requires Legible(o)
  {
    if o.Refusal? then RawResult(call.key, false, [], Some(o.code), Some(o.message))
    else RawResult(call.key, true, o.value.bytes, None, None)
  }

  /** Each call has the reading of its own outcome. */
  ghost predicate AllRead(outcome: nat -> Outcome, calls: seq<Call>, results: seq<RawResult>) {
    |results| == |calls| && forall k: nat :: k < |calls| ==>
        Legible(outcome(k)) && results[k] == ReadOutcome(calls[k], outcome(k))
  }

  /** Reads the outcomes in call order, unless one is neither hex data nor an error. */
  method DecodeIndividual(calls: seq<Call>, outcome: nat -> Outcome) returns (out: Result<seq<RawResult>, BatchError>)
    ensures out.Ok? <==> forall k: nat :: k < |calls| ==> Legible(outcome(k))
    ensures out.Ok? ==> AllRead(outcome, calls, out.value)
  {
    var results: seq<RawResult> := [];
    for k := 0 to |calls|
      invariant |results| == k
      invariant forall j: nat :: j < k ==> Legible(outcome(j)) && results[j] == ReadOutcome(calls[j], outcome(j))
    {
      if !Legible(outcome(k)) {
        return Err(Malformed);
      }
      results := results + [ReadOutcome(calls[k], outcome(k))];
    }
    return Ok(results);
  }

  /** The results are the reading of this exchange. */
  ghost predicate Reads(x: Exchange, calls: seq<Call>, results: seq<RawResult>) {
    match x
    case Responses(responses) => AllAnswered(responses, calls, results)
    case Individual(outcome) => AllRead(outcome, calls, results)
    case Broken(_) => false
  }

  lemma {:induction false} ReadsCandid(x: Exchange, calls: seq<Call>, results: seq<RawResult>)
    requires Reads(x, calls, results)
    ensures InOrder(calls, results) && AllCandid(results)
  {
    forall k | 0 <= k < |results| ensures results[k].key == calls[k].key && Candid(results[k]) {
      if x.Responses? {
        assert AnsweredBy(x.responses, k + 1, calls[k], results[k]);
      } else {
        var n: nat := k;
        assert results[k] == ReadOutcome(calls[k], x.outcome(n));
      }
    }
  }

  /** The results are the reading of the k-th exchange with this endpoint. */
  ghost predicate Exchanged(transport: BatchTransport, k: nat, endpoint: Endpoint, calls: seq<Call>, byHash: bool,
      results: seq<RawResult>)
  {
    Reads(transport(k, endpoint, calls, byHash), calls, results)
  }

  /** Some exchange with an endpoint of this group gave results with this digest. */
  ghost predicate Vouches(transport: BatchTransport, hash: seq<Byte> -> nat, lo: nat, hi: nat, calls: seq<Call>,
      group: string, digest: nat)
  {
    exists k: nat, endpoint: Endpoint, results ::
      && lo <= k < hi && endpoint.group == group && Exchanged(transport, k, endpoint, calls, false, results)
      && (forall r :: r in results ==> RawFits(r)) && hash(RawStream(results)) == digest
  }

  ghost predicate AllVouch(transport: BatchTransport, hash: seq<Byte> -> nat, lo: nat, hi: nat, calls: seq<Call>,
      groups: seq<string>, digest: nat)
  {
    forall g :: g in groups ==> Vouches(transport, hash, lo, hi, calls, g, digest)
  }

  /** One hash-pinned exchange, or the required number of different provider groups that agree. */
  ghost predicate Verified(transport: BatchTransport, hash: seq<Byte> -> nat, quorum: nat, lo: nat, hi: nat,
      calls: seq<Call>, b: VerifiedBatch)
  {
    && InOrder(calls, b.results) && AllCandid(b.results)
    && (!b.byQuorum ==> exists k: nat, endpoint: Endpoint :: lo <= k < hi && b.groups == [endpoint.group] &&
                                                   Exchanged(transport, k, endpoint, calls, true, b.results))
    && (b.byQuorum ==>
          && |b.groups| == quorum && (forall i, j :: 0 <= i < j < quorum ==> b.groups[i] != b.groups[j])
          && (forall r :: r in b.results ==> RawFits(r))
          && AllVouch(transport, hash, lo, hi, calls, b.groups, hash(RawStream(b.results))))
  }

  /** What a failed result is classified by: its code, or -1 where that is missing or zero, and its message. */
  function CodeSaid(x: RawResult): int {
    if x.code.None? || x.code.value == 0 then -1 else x.code.value
  }

  function MessageSaid(x: RawResult): Text {
    if x.message.None? then [] else x.message.value
  }

  /** The exchange answers every call well, and no error among its readings speaks of a limit; or it is refused
      as too large with more than one call. */
  ghost predicate Obliges(x: Exchange, calls: seq<Call>, isLimit: (int, Text) -> bool) {
    match x
    case Responses(responses) =>
      Complete(responses, RequestIds(|calls|)) &&
      forall r :: r in responses && WellFormed(r) && r.error.Some? ==>
        Harmless(r.error.value.code, r.error.value.message, isLimit)
    case Individual(outcome) =>
      forall k: nat :: k < |calls| ==>
        Legible(outcome(k)) && (outcome(k).Refusal? ==> Harmless(outcome(k).code, outcome(k).message, isLimit))
    case Broken(failure) => failure.isLimit && |calls| > 1
  }

  predicate Harmless(code: int, message: Text, isLimit: (int, Text) -> bool) {
    !isLimit(if code == 0 then -1 else code, message)
  }

  lemma {:induction false} ObligingReadings(x: Exchange, calls: seq<Call>, isLimit: (int, Text) -> bool,
      results: seq<RawResult>)
    requires Obliges(x, calls, isLimit) && Reads(x, calls, results)
    ensures forall j :: 0 <= j < |results| && !results[j].success ==>
              !isLimit(CodeSaid(results[j]), MessageSaid(results[j]))
  {
    forall j | 0 <= j < |results| && !results[j].success
      ensures !isLimit(CodeSaid(results[j]), MessageSaid(results[j]))
    {
      if x.Responses? {
        assert AnsweredBy(x.responses, j + 1, calls[j], results[j]);
        var r :| r in x.responses && r.id == IntId(j + 1) && WellFormed(r) && results[j] == Interpret(calls[j], r);
        assert Harmless(r.error.value.code, r.error.value.message, isLimit);
      } else {
        var n: nat := j;
        assert results[j] == ReadOutcome(calls[j], x.outcome(n));
        assert Harmless(x.outcome(n).code, x.outcome(n).message, isLimit);
      }
    }
  }

  class LegacyRpcBatchExecutor {
    const pool: EndpointPool
    const transport: BatchTransport
    const serves: nat -> (Endpoint -> bool)
    const classify: BatchError -> Failure
    const isLimit: (int, Text) -> bool
    const hash: seq<Byte> -> nat
    const batchSize: nat
    const quorum: nat
    const maxRetries: nat
    var requests: nat

    ghost predicate Valid()
      reads this, pool
    {
      pool.Valid() && quorum >= 2 && batchSize >= 1
    }

    constructor (pool: EndpointPool, transport: BatchTransport, serves: nat -> (Endpoint -> bool),
        classify: BatchError -> Failure, isLimit: (int, Text) -> bool, hash: seq<Byte> -> nat, quorum: nat,
        batchSize: nat, maxRetries: nat)
      requires pool.Valid() && quorum >= 2 && batchSize >= 1
      ensures Valid()
    {
      this.pool, this.transport, this.serves, this.classify := pool, transport, serves, classify;
      this.isLimit, this.hash, this.quorum, this.batchSize := isLimit, hash, quorum, batchSize;
      this.maxRetries, requests := maxRetries, 0;
    }

    /** An endpoint that supports hash-pinned reads can always serve, and every such read obliges. */
    ghost predicate Obliging() {
      && maxRetries >= 1
      && (forall k: nat :: exists e :: e in pool.endpoints && Eligible(e, serves(k), true, {}))
      && forall k: nat, e, calls: seq<Call> :: calls != [] ==> Obliges(transport(k, e, calls, true), calls, isLimit)
    }

    method RunOnEndpoint(endpoint: Endpoint, calls: seq<Call>, byHash: bool)
        returns (r: Result<seq<RawResult>, Failure>)
      requires Valid()
      modifies this
      ensures Valid() && requests == old(requests) + 1
      ensures r.Ok? ==>
                Exchanged(transport, old(requests), endpoint, calls, byHash, r.value) && InOrder(calls, r.value) &&
                AllCandid(r.value)
      ensures r.Ok? ==> forall x :: x in r.value && !x.success ==> !isLimit(CodeSaid(x), MessageSaid(x))
      ensures Obliges(transport(old(requests), endpoint, calls, byHash), calls, isLimit) ==>
                r.Ok? || (r.error.isLimit && |calls| > 1)
    {
      var exchange := transport(requests, endpoint, calls, byHash);
      requests := requests + 1;
      if exchange.Broken? {
        return Err(exchange.failure);
      }
      var out: Result<seq<RawResult>, BatchError>;
      if exchange.Responses? {
        out := DecodeCalls(calls, exchange.responses);
      } else {
        out := DecodeIndividual(calls, exchange.outcome);
      }
      if out.Err? {
        return Err(classify(out.error));
      }
      ReadsCandid(exchange, calls, out.value);
      if Obliges(exchange, calls, isLimit) {
        ObligingReadings(exchange, calls, isLimit, out.value);
      }
      for k := 0 to |out.value|
        invariant forall j :: 0 <= j < k && !out.value[j].success ==>
                    !isLimit(CodeSaid(out.value[j]), MessageSaid(out.value[j]))
      {
        var x := out.value[k];
        if !x.success && isLimit(CodeSaid(x), MessageSaid(x)) {
          return Err(Failure(true, false, false));
        }
      }
      return Ok(out.value);
    }

    /** Hash-pinned reads first; without a usable endpoint for them, a quorum of number-pinned reads. */
    method ExecuteOnce(calls: seq<Call>) returns (r: Result<VerifiedBatch, LegacyError>)
      requires Valid()
      modifies this, pool
      ensures Valid() && old(requests) <= requests
      ensures r.Ok? ==> Verified(transport, hash, quorum, old(requests), requests, calls, r.value)
      ensures Obliging() && calls != [] ==> r.Ok? || (r.error == ProviderLimit && |calls| > 1)
    {
      var excluded: set<string> := {};
      for attempt := 0 to maxRetries
        invariant Valid() && old(requests) <= requests
        invariant Obliging() && calls != [] ==> attempt == 0 && excluded == {}
      {
        var endpoint, _ := pool.Select(serves(requests), true, excluded);
        if endpoint.None? {
          break;
        }
        var results := RunOnEndpoint(endpoint.value, calls, true);
        if results.Ok? {
          assert Exchanged(transport, requests - 1, endpoint.value, calls, true, results.value);
          return Ok(VerifiedBatch(results.value, [endpoint.value.group], false));
        }
        if results.error.isLimit {
          return Err(ProviderLimit);
        }
        if !results.error.failover && !results.error.retryable {
          return Err(RpcError);
        }
        excluded := excluded + {endpoint.value.name};
      }
      r := ExecuteNumberQuorum(calls, old(requests));
    }

    /** One number-pinned exchange and its digest. */
    method AskGroup(endpoint: Endpoint, calls: seq<Call>, ghost lo: nat)
        returns (r: Result<(seq<RawResult>, nat), LegacyError>)
      requires Valid() && lo <= requests
      modifies this
      ensures Valid() && requests == old(requests) + 1
      ensures r.Ok? ==> Execution(transport, hash, lo, requests, calls, endpoint.group, r.value)
    {
      var results := RunOnEndpoint(endpoint, calls, false);
      if results.Err? {
        return Err(if results.error.isLimit then ProviderLimit else RpcError);
      }
      if !(forall x :: x in results.value ==> RawFits(x)) {
        return Err(Undigestible);
      }
      assert Exchanged(transport, requests - 1, endpoint, calls, false, results.value);
      return Ok((results.value, hash(RawStream(results.value))));
    }

    /** Asks every chosen endpoint. */
    method AskAll(chosen: seq<Endpoint>, calls: seq<Call>, ghost lo: nat)
        returns (r: Result<seq<(seq<RawResult>, nat)>, LegacyError>)
      requires Valid() && lo <= requests
      modifies this
      ensures Valid() && old(requests) <= requests
      ensures r.Ok? ==> Executions(transport, hash, lo, requests, calls, chosen, r.value)
    {
      var executions: seq<(seq<RawResult>, nat)> := [];
      for i := 0 to |chosen|
        invariant Valid() && old(requests) <= requests
        invariant Executions(transport, hash, lo, requests, calls, chosen[..i], executions)
      {
        ghost var before := requests;
        var answer := AskGroup(chosen[i], calls, lo);
        if answer.Err? {
          return Err(answer.error);
        }
        ghost var asked := chosen[..i];
        assert chosen[..i + 1] == asked + [chosen[i]];
        assert Executions(transport, hash, lo, before, calls, asked, executions);
        ExecutionsMore(transport, hash, lo, before, calls, asked, executions, chosen[i], answer.value);
        executions := executions + [answer.value];
      }
      assert chosen[..|chosen|] == chosen;
      return Ok(executions);
    }

    /** Accepts only when every one of the required number of different groups returned the same digest. */
    method ExecuteNumberQuorum(calls: seq<Call>, ghost lo: nat) returns (r: Result<VerifiedBatch, LegacyError>)
      requires Valid() && lo <= requests
      modifies this
      ensures Valid() && old(requests) <= requests
      ensures r.Ok? ==> r.value.byQuorum && Verified(transport, hash, quorum, lo, requests, calls, r.value)
    {
      var endpoints := pool.SelectDistinctGroups(quorum, serves(requests));
      if endpoints.None? {
        return Err(NoHealthyEndpoint);
      }
      var chosen := endpoints.value;
      var executions := AskAll(chosen, calls, lo);
      if executions.Err? {
        return Err(executions.error);
      }
      var (first, digest) := executions.value[0];
      if exists j :: 0 <= j < |chosen| && executions.value[j].1 != digest {
        return Err(QuorumMismatch);
      }
      var groups := seq(|chosen|, j requires 0 <= j < |chosen| => chosen[j].group);
      AgreeingExecutions(transport, hash, lo, requests, calls, chosen, executions.value, digest, groups);
      return Ok(VerifiedBatch(first, groups, true));
    }

    /** Halves a batch the provider refuses as too large, down to single calls. The calls split into
        consecutive parts, each with its own verified batch. */
    method ExecuteAdaptive(calls: seq<Call>)
        returns (r: Result<seq<VerifiedBatch>, LegacyError>, ghost parts: seq<seq<Call>>)
      requires Valid() && calls != []
      modifies this, pool
      ensures Valid() && old(requests) <= requests
      ensures r.Ok? ==>
                Flatten(parts) == calls && AllVerified(transport, hash, quorum, old(requests), requests, parts, r.value)
      ensures Obliging() ==> r.Ok?
      decreases |calls|
    {
      parts := [];
      var once := ExecuteOnce(calls);
      if once.Ok? {
        parts := [calls];
        assert parts[..0] == [] && Flatten(parts) == calls;
        return Ok([once.value]), parts;
      }
      if once.error != ProviderLimit || |calls| == 1 {
        return Err(once.error), parts;
      }
      var midpoint := |calls| / 2;
      ghost var before := requests;
      ghost var leftParts, rightParts;
      var left, right;
      left, leftParts := ExecuteAdaptive(calls[..midpoint]);
      if left.Err? {
        return left, parts;
      }
      ghost var between := requests;
      right, rightParts := ExecuteAdaptive(calls[midpoint..]);
      if right.Err? {
        return right, parts;
      }
      parts := leftParts + rightParts;
      HalvesVerified(transport, hash, quorum, old(requests), before, between, requests, leftParts, left.value,
          rightParts, right.value);
      assert calls == calls[..midpoint] + calls[midpoint..];
      return Ok(left.value + right.value), parts;
    }

    /** All groups of calls one after another: the calls split into consecutive parts, each backed by a
        hash-pinned exchange or by a quorum, and the results are in call order. */
    method Execute(calls: seq<Call>) returns (r: Result<seq<VerifiedBatch>, LegacyError>, ghost parts: seq<seq<Call>>)
      requires Valid()
      modifies this, pool
      ensures Valid() && old(requests) <= requests
      ensures r.Ok? ==>
                Flatten(parts) == calls && AllVerified(transport, hash, quorum, old(requests), requests, parts, r.value)
      ensures r.Ok? ==> InOrder(calls, AllResults(r.value))
      ensures Obliging() ==> r.Ok?
    {
      parts := [];
      var groups := Chunked(calls, batchSize);
      var output: seq<VerifiedBatch> := [];
      for g := 0 to |groups|
        invariant Valid() && old(requests) <= requests
        invariant Flatten(parts) == Flatten(groups[..g])
        invariant AllVerified(transport, hash, quorum, old(requests), requests, parts, output)
      {
        assert groups[g] in groups;
        ghost var before := requests;
        ghost var more;
        var batches;
        batches, more := ExecuteAdaptive(groups[g]);
        if batches.Err? {
          return batches, parts;
        }
        AllVerifiedConcat(transport, hash, quorum, old(requests), before, requests, parts, output, more, batches.value);
        FlattenConcat(parts, more);
        assert groups[..g + 1][..g] == groups[..g];
        parts, output := parts + more, output + batches.value;
      }
      assert groups[..|groups|] == groups;
      AllVerifiedInOrder(transport, hash, quorum, old(requests), requests, parts, output);
      return Ok(output), parts;
    }
  }

  function AllResults(batches: seq<VerifiedBatch>): seq<RawResult> {
    if batches == [] then [] else AllResults(batches[..|batches| - 1]) + batches[|batches| - 1].results
  }

  /** Each part of the calls has its own verified batch. */
  ghost predicate AllVerified(transport: BatchTransport, hash: seq<Byte> -> nat, quorum: nat, lo: nat, hi: nat,
                              parts: seq<seq<Call>>, batches: seq<VerifiedBatch>)
  {
    |parts| == |batches| && forall k :: 0 <= k < |parts| ==>
        Verified(transport, hash, quorum, lo, hi, parts[k], batches[k])
  }

  lemma {:induction false} VouchesWider(transport: BatchTransport, hash: seq<Byte> -> nat, lo: nat, hi: nat, lo': nat,
      hi': nat, calls: seq<Call>, group: string, digest: nat)
    requires Vouches(transport, hash, lo, hi, calls, group, digest) && lo' <= lo && hi <= hi'
    ensures Vouches(transport, hash, lo', hi', calls, group, digest)
  {
  }

  lemma {:induction false} VerifiedWider(transport: BatchTransport, hash: seq<Byte> -> nat, quorum: nat, lo: nat,
      hi: nat, lo': nat, hi': nat, calls: seq<Call>, b: VerifiedBatch)
    requires Verified(transport, hash, quorum, lo, hi, calls, b) && lo' <= lo && hi <= hi'
    ensures Verified(transport, hash, quorum, lo', hi', calls, b)
  {
    if b.byQuorum {
      var digest := hash(RawStream(b.results));
      forall g | g in b.groups ensures Vouches(transport, hash, lo', hi', calls, g, digest) {
        VouchesWider(transport, hash, lo, hi, lo', hi', calls, g, digest);
      }
    }
  }

  lemma {:induction false} AllVerifiedWider(transport: BatchTransport, hash: seq<Byte> -> nat, quorum: nat, lo: nat,
      hi: nat, lo': nat, hi': nat, parts: seq<seq<Call>>, batches: seq<VerifiedBatch>)
    requires AllVerified(transport, hash, quorum, lo, hi, parts, batches) && lo' <= lo && hi <= hi'
    ensures AllVerified(transport, hash, quorum, lo', hi', parts, batches)
  {
    forall k | 0 <= k < |parts| ensures Verified(transport, hash, quorum, lo', hi', parts[k], batches[k]) {
      VerifiedWider(transport, hash, quorum, lo, hi, lo', hi', parts[k], batches[k]);
    }
  }

  lemma {:induction false} AllVerifiedConcat(transport: BatchTransport, hash: seq<Byte> -> nat, quorum: nat, lo: nat,
      mid: nat, hi: nat, parts: seq<seq<Call>>, batches: seq<VerifiedBatch>, more: seq<seq<Call>>,
      others: seq<VerifiedBatch>)
    requires AllVerified(transport, hash, quorum, lo, mid, parts, batches) && lo <= mid <= hi
    requires AllVerified(transport, hash, quorum, mid, hi, more, others)
    ensures AllVerified(transport, hash, quorum, lo, hi, parts + more, batches + others)
  {
    AllVerifiedWider(transport, hash, quorum, lo, mid, lo, hi, parts, batches);
    AllVerifiedWider(transport, hash, quorum, mid, hi, lo, hi, more, others);
    forall k | 0 <= k < |parts + more|
      ensures Verified(transport, hash, quorum, lo, hi, (parts + more)[k], (batches + others)[k])
    {
      if k < |parts| {
        assert (parts + more)[k] == parts[k] && (batches + others)[k] == batches[k];
      } else {
        assert (parts + more)[k] == more[k - |parts|] && (batches + others)[k] == others[k - |parts|];
      }
    }
  }

  /** Two halves that follow each other make one whole. */
  lemma {:induction false} HalvesVerified(transport: BatchTransport, hash: seq<Byte> -> nat, quorum: nat, lo: nat,
      before: nat, between: nat, hi: nat, parts: seq<seq<Call>>, batches: seq<VerifiedBatch>, more: seq<seq<Call>>,
      others: seq<VerifiedBatch>)
    requires lo <= before <= between <= hi && AllVerified(transport, hash, quorum, before, between, parts, batches)
    requires AllVerified(transport, hash, quorum, between, hi, more, others)
    ensures Flatten(parts + more) == Flatten(parts) + Flatten(more)
    ensures AllVerified(transport, hash, quorum, lo, hi, parts + more, batches + others)
  {
    FlattenConcat(parts, more);
    AllVerifiedConcat(transport, hash, quorum, before, between, hi, parts, batches, more, others);
    AllVerifiedWider(transport, hash, quorum, before, hi, lo, hi, parts + more, batches + others);
  }

  lemma {:induction false} AllVerifiedInOrder(transport: BatchTransport, hash: seq<Byte> -> nat, quorum: nat, lo: nat,
      hi: nat, parts: seq<seq<Call>>, batches: seq<VerifiedBatch>)
    requires AllVerified(transport, hash, quorum, lo, hi, parts, batches)
    ensures InOrder(Flatten(parts), AllResults(batches))
  {
    if parts != [] {
      var n := |parts| - 1;
      AllVerifiedInOrder(transport, hash, quorum, lo, hi, parts[..n], batches[..n]);
      assert Verified(transport, hash, quorum, lo, hi, parts[n], batches[n]);
      InOrderConcat(Flatten(parts[..n]), AllResults(batches[..n]), parts[n], batches[n].results);
    }
  }

  /** Results in call order with their digest, from an exchange with an endpoint of this group. */
  ghost predicate Execution(transport: BatchTransport, hash: seq<Byte> -> nat, lo: nat, hi: nat, calls: seq<Call>,
      group: string, x: (seq<RawResult>, nat))
  {
    && InOrder(calls, x.0) && AllCandid(x.0) && (forall r :: r in x.0 ==> RawFits(r)) && x.1 == hash(RawStream(x.0))
    && Vouches(transport, hash, lo, hi, calls, group, x.1)
  }

  ghost predicate Executions(transport: BatchTransport, hash: seq<Byte> -> nat, lo: nat, hi: nat, calls: seq<Call>,
                             chosen: seq<Endpoint>, xs: seq<(seq<RawResult>, nat)>)
  {
    |xs| == |chosen| && forall j :: 0 <= j < |xs| ==> Execution(transport, hash, lo, hi, calls, chosen[j].group, xs[j])
  }

  lemma {:induction false} ExecutionsMore(transport: BatchTransport, hash: seq<Byte> -> nat, lo: nat, hi: nat,
      calls: seq<Call>, chosen: seq<Endpoint>, xs: seq<(seq<RawResult>, nat)>, endpoint: Endpoint,
      x: (seq<RawResult>, nat))
    requires Executions(transport, hash, lo, hi, calls, chosen, xs)
    requires Execution(transport, hash, lo, hi + 1, calls, endpoint.group, x)
    ensures Executions(transport, hash, lo, hi + 1, calls, chosen + [endpoint], xs + [x])
  {
    forall j | 0 <= j < |xs| ensures Execution(transport, hash, lo, hi + 1, calls, chosen[j].group, xs[j]) {
      assert Execution(transport, hash, lo, hi, calls, chosen[j].group, xs[j]);
      VouchesLater(transport, hash, lo, hi, calls, chosen[j].group, xs[j].1);
    }
  }

  lemma {:induction false} AgreeingExecutions(transport: BatchTransport, hash: seq<Byte> -> nat, lo: nat, hi: nat,
      calls: seq<Call>, chosen: seq<Endpoint>, xs: seq<(seq<RawResult>, nat)>, digest: nat, groups: seq<string>)
    requires Executions(transport, hash, lo, hi, calls, chosen, xs) && |groups| == |chosen| > 0
    requires forall j :: 0 <= j < |xs| ==> xs[j].1 == digest && groups[j] == chosen[j].group
    ensures InOrder(calls, xs[0].0) && AllCandid(xs[0].0) && (forall r :: r in xs[0].0 ==> RawFits(r))
    ensures digest == hash(RawStream(xs[0].0))
    ensures AllVouch(transport, hash, lo, hi, calls, groups, digest)
  {
    assert Execution(transport, hash, lo, hi, calls, chosen[0].group, xs[0]);
    forall g | g in groups ensures Vouches(transport, hash, lo, hi, calls, g, digest) {
      var j :| 0 <= j < |groups| && groups[j] == g;
      assert Execution(transport, hash, lo, hi, calls, chosen[j].group, xs[j]);
    }
  }

  lemma {:induction false} VouchesLater(transport: BatchTransport, hash: seq<Byte> -> nat, lo: nat, hi: nat,
      calls: seq<Call>, group: string, digest: nat)
    requires Vouches(transport, hash, lo, hi, calls, group, digest)
    ensures Vouches(transport, hash, lo, hi + 1, calls, group, digest)
  {
  }

  /** Where the hash does not collide, a quorum result is exactly what every one of its groups returned. */
  lemma {:induction false} QuorumAgreement(transport: BatchTransport, hash: seq<Byte> -> nat, quorum: nat, lo: nat,
      hi: nat, calls: seq<Call>, b: VerifiedBatch, g: string)
    requires Verified(transport, hash, quorum, lo, hi, calls, b) && b.byQuorum && g in b.groups
    requires forall x, y :: hash(x) == hash(y) ==> x == y
    ensures exists k: nat, endpoint: Endpoint ::
              lo <= k < hi && endpoint.group == g && Exchanged(transport, k, endpoint, calls, false, b.results)
  {
    var digest := hash(RawStream(b.results));
    assert Vouches(transport, hash, lo, hi, calls, g, digest);
    var k: nat, endpoint: Endpoint, results :|
      && lo <= k < hi && endpoint.group == g && Exchanged(transport, k, endpoint, calls, false, results)
      && (forall r :: r in results ==> RawFits(r)) && hash(RawStream(results)) == digest;
    ReadsCandid(transport(k, endpoint, calls, false), calls, results);
    CandidStreams(results, b.results);
  }
}
