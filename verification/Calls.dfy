/** Contract calls, their raw results, and the batches a verified executor returns. */
module Calls {
  import opened Wrappers
  import opened Bytes

  datatype Anchor = Anchor(number: nat, blockHash: nat, parentHash: nat, timestamp: nat)

  datatype Call = Call(key: Text, target: nat, calldata: seq<Byte>, allowFailure: bool)

  /** `code` and `message` are those of the JSON-RPC error of a failed call, where the transport reports one. */
  datatype RawResult = RawResult(key: Text, success: bool, data: seq<Byte>, code: Option<int>, message: Option<Text>)

  type Batch = seq<RawResult>

  /** How a failed request is classified: too large, worth retrying, worth another endpoint. */
  datatype Failure = Failure(isLimit: bool, retryable: bool, failover: bool)

  function Flatten<T>(parts: seq<seq<T>>): seq<T> {
    if parts == [] then [] else Flatten(parts[..|parts| - 1]) + parts[|parts| - 1]
  }

  lemma {:induction false} FlattenConcat<T>(a: seq<seq<T>>, b: seq<seq<T>>)
    ensures Flatten(a + b) == Flatten(a) + Flatten(b)
  {
    if b == [] {
      assert a + b == a;
    } else {
      var front := b[..|b| - 1];
      FlattenConcat(a, front);
      assert (a + b)[..|a + b| - 1] == a + front;
    }
  }

  /** Each result answers the call at its position. */
  ghost predicate InOrder(calls: seq<Call>, results: seq<RawResult>) {
    |results| == |calls| && forall j :: 0 <= j < |calls| ==> results[j].key == calls[j].key
  }

  lemma {:induction false} InOrderConcat(calls: seq<Call>, results: seq<RawResult>, more: seq<Call>,
      others: seq<RawResult>)
    requires InOrder(calls, results) && InOrder(more, others)
    ensures InOrder(calls + more, results + others)
  {
  }

  /** Consecutive groups of at most `size` values. */
  method Chunked<T>(values: seq<T>, size: nat) returns (groups: seq<seq<T>>)
    requires size >= 1
    ensures Flatten(groups) == values
    ensures forall g :: g in groups ==> 1 <= |g| <= size
    ensures |groups| <= |values|
  {
    groups := [];
    var offset := 0;
    while offset < |values|
      invariant 0 <= offset <= |values| && |groups| <= offset
      invariant Flatten(groups) == values[..offset]
      invariant forall g :: g in groups ==> 1 <= |g| <= size
    {
      var end := if offset + size < |values| then offset + size else |values|;
      var group := values[offset..end];
      ghost var before := groups;
      groups := groups + [group];
      assert groups[..|groups| - 1] == before;
      assert values[..end] == values[..offset] + group;
      offset := end;
    }
    assert values[..offset] == values;
  }
}
