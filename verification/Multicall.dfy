/** Multicall3 answers that prove themselves: sentinels at both ends, and results that rest on them. */
module Multicall {
  import opened Wrappers
  import opened Bytes
  import opened Endpoints
  import opened Calls

  datatype Entry = Entry(success: bool, data: seq<Byte>)

  /** One eth_call: a decoded aggregate3 answer, undecodable data, or a classified failure. */
  datatype Reply = Answered(entries: seq<Entry>) | Undecodable | Failed(failure: Failure)

  /** What an endpoint answers to the k-th request, for the packed calls of that request. */
  type Transport = (nat, Endpoint, seq<Call>) -> Reply

  /** Which endpoints can serve when the k-th request is sent. */
  type Health = nat -> (Endpoint -> bool)

  datatype ExecError = ProviderLimit | NoHealthyEndpoint | RpcError | Unverifiable | UnsupportedRange

  // ---- sentinels ---------------------------------------------------------------------------

  function SentinelCalls(anchor: Anchor, multicall: nat, position: string): (cs: seq<Call>)
    requires anchor.number >= 1
    ensures |cs| == 3
  {
    [Call(Ascii("__sentinel_" + position + "_block"), multicall, [0x42, 0xcb, 0xb1, 0x5c], false),
     Call(Ascii("__sentinel_" + position + "_timestamp"), multicall, [0x0f, 0x28, 0xc9, 0x7d], false),
     Call(Ascii("__sentinel_" + position + "_parent"), multicall, [0xee, 0x82, 0xac, 0x5e] + Word(anchor.number - 1),
         false)]
  }

  function Word(value: nat): seq<Byte> {
    if value < Pow256(32) then BigEndian(value, 32) else []
  }

  function Packed(calls: seq<Call>, anchor: Anchor, multicall: nat): (cs: seq<Call>)
    requires anchor.number >= 1
    ensures |cs| == |calls| + 6
  {
    SentinelCalls(anchor, multicall, "head") + calls + SentinelCalls(anchor, multicall, "tail")
  }

  predicate IsWord(data: seq<Byte>, value: nat) {
    |data| == 32 && FromBigEndian(data) == value
  }

  predicate SentinelsMatch(entries: seq<Entry>, anchor: Anchor) {
    && |entries| == 3 && entries[0].success && entries[1].success && entries[2].success
    && IsWord(entries[0].data, anchor.number)
    && IsWord(entries[1].data, anchor.timestamp)
    && IsWord(entries[2].data, anchor.parentHash)
  }

  /** The sentinel check accepts one answer only: the anchor's number, timestamp and parent hash as
      32-byte words. */
  lemma {:induction false} SentinelsUnique(entries: seq<Entry>, anchor: Anchor)
    requires anchor.number < Pow256(32) && anchor.timestamp < Pow256(32) && anchor.parentHash < Pow256(32)
    ensures SentinelsMatch(entries, anchor) <==>
            entries == [Entry(true, BigEndian(anchor.number, 32)), Entry(true, BigEndian(anchor.timestamp, 32)),
                        Entry(true, BigEndian(anchor.parentHash, 32))]
  {
    if |entries| == 3 {
      EntryUnique(entries[0], anchor.number);
      EntryUnique(entries[1], anchor.timestamp);
      EntryUnique(entries[2], anchor.parentHash);
    }
  }

  lemma {:induction false} EntryUnique(e: Entry, value: nat)
    requires value < Pow256(32)
    ensures e.success && IsWord(e.data, value) <==> e == Entry(true, BigEndian(value, 32))
  {
    WordUnique(e.data, value);
  }

  lemma {:induction false} WordUnique(data: seq<Byte>, value: nat)
    requires value < Pow256(32)
    ensures IsWord(data, value) <==> data == BigEndian(value, 32)
  {
    DecodeEncode(value, 32);
    EncodeDecode(data);
  }

  /** An answer to n calls is kept only with n + 6 entries and both sentinel triples matching. */
  predicate Proven(entries: seq<Entry>, n: nat, anchor: Anchor) {
    |entries| == n + 6 && SentinelsMatch(entries[..3], anchor) && SentinelsMatch(entries[n + 3..], anchor)
  }

  /** The result is entry i of a proven answer to request k, which carried this call as its i-th. */
  ghost predicate BackedBy(transport: Transport, anchor: Anchor, multicall: nat, call: Call, result: RawResult,
                           k: nat, endpoint: Endpoint, calls: seq<Call>, i: nat)
    requires anchor.number >= 1
  {
    && i < |calls| && calls[i] == call
    && var reply := transport(k, endpoint, Packed(calls, anchor, multicall));
       && reply.Answered? && Proven(reply.entries, |calls|, anchor)
       && result == RawResult(call.key, reply.entries[i + 3].success, reply.entries[i + 3].data, None, None)
  }

  ghost predicate Backed(transport: Transport, lo: nat, hi: nat, anchor: Anchor, multicall: nat, call: Call,
      result: RawResult)
    requires anchor.number >= 1
  {
    exists k: nat, endpoint, calls, i: nat ::
      lo <= k < hi && BackedBy(transport, anchor, multicall, call, result, k, endpoint, calls, i)
  }

  /** Every call has its own result, in order, and every result is backed by a proven answer. */
  ghost predicate AllBacked(transport: Transport, lo: nat, hi: nat, anchor: Anchor, multicall: nat,
                            calls: seq<Call>, results: seq<RawResult>)
    requires anchor.number >= 1
  {
    && InOrder(calls, results)
    && forall j {:trigger Backed(transport, lo, hi, anchor, multicall, calls[j], results[j])} :: 0 <= j < |calls| ==>
         Backed(transport, lo, hi, anchor, multicall, calls[j], results[j])
  }

  lemma {:induction false} BackedWider(transport: Transport, lo: nat, hi: nat, lo': nat, hi': nat, anchor: Anchor,
      multicall: nat, calls: seq<Call>, results: seq<RawResult>)
    requires anchor.number >= 1 && lo' <= lo && hi <= hi'
    requires AllBacked(transport, lo, hi, anchor, multicall, calls, results)
    ensures AllBacked(transport, lo', hi', anchor, multicall, calls, results)
  {
    forall j | 0 <= j < |calls| ensures Backed(transport, lo', hi', anchor, multicall, calls[j], results[j]) {
      assert Backed(transport, lo, hi, anchor, multicall, calls[j], results[j]);
      var k: nat, endpoint, cs, i: nat :|
        lo <= k < hi && BackedBy(transport, anchor, multicall, calls[j], results[j], k, endpoint, cs, i);
    }
  }

  lemma {:induction false} BackedConcat(transport: Transport, lo: nat, hi: nat, anchor: Anchor, multicall: nat,
                     calls: seq<Call>, results: seq<RawResult>, more: seq<Call>, others: seq<RawResult>)
    requires anchor.number >= 1
    requires AllBacked(transport, lo, hi, anchor, multicall, calls, results)
    requires AllBacked(transport, lo, hi, anchor, multicall, more, others)
    ensures AllBacked(transport, lo, hi, anchor, multicall, calls + more, results + others)
  {
    InOrderConcat(calls, results, more, others);
    forall j | 0 <= j < |calls + more|
      ensures Backed(transport, lo, hi, anchor, multicall, (calls + more)[j], (results + others)[j])
    {
      BackedConcatAt(transport, lo, hi, anchor, multicall, calls, results, more, others, j);
    }
  }

  lemma {:induction false} BackedConcatAt(transport: Transport, lo: nat, hi: nat, anchor: Anchor, multicall: nat,
                       calls: seq<Call>, results: seq<RawResult>, more: seq<Call>, others: seq<RawResult>, j: nat)
    requires anchor.number >= 1 && j < |calls + more| && |results| == |calls| && |others| == |more|
    requires j < |calls| ==> Backed(transport, lo, hi, anchor, multicall, calls[j], results[j])
    requires j >= |calls| ==> Backed(transport, lo, hi, anchor, multicall, more[j - |calls|], others[j - |calls|])
    ensures Backed(transport, lo, hi, anchor, multicall, (calls + more)[j], (results + others)[j])
  {
  }

  /** A result repeated alone takes its place in the batch. */
  lemma {:induction false} ReplaceBacked(transport: Transport, lo: nat, mid: nat, hi: nat, anchor: Anchor,
      multicall: nat, calls: seq<Call>, results: seq<RawResult>, index: nat, retry: seq<RawResult>)
    requires anchor.number >= 1 && lo <= mid <= hi && index < |calls|
    requires AllBacked(transport, lo, mid, anchor, multicall, calls, results)
    requires AllBacked(transport, mid, hi, anchor, multicall, [calls[index]], retry)
    ensures AllBacked(transport, lo, hi, anchor, multicall, calls, results[index := retry[0]])
  {
    BackedWider(transport, lo, mid, lo, hi, anchor, multicall, calls, results);
    BackedWider(transport, mid, hi, lo, hi, anchor, multicall, [calls[index]], retry);
    ReplaceWithin(transport, lo, hi, anchor, multicall, calls, results, index, retry);
  }

  lemma {:induction false} ReplaceWithin(transport: Transport, lo: nat, hi: nat, anchor: Anchor, multicall: nat,
                                         calls: seq<Call>, results: seq<RawResult>, index: nat, retry: seq<RawResult>)
    requires anchor.number >= 1 && index < |calls|
    requires AllBacked(transport, lo, hi, anchor, multicall, calls, results)
    requires AllBacked(transport, lo, hi, anchor, multicall, [calls[index]], retry)
    ensures AllBacked(transport, lo, hi, anchor, multicall, calls, results[index := retry[0]])
  {
    assert Backed(transport, lo, hi, anchor, multicall, [calls[index]][0], retry[0]);
    forall j | 0 <= j < |calls|
      ensures Backed(transport, lo, hi, anchor, multicall, calls[j], results[index := retry[0]][j])
    {
      assert Backed(transport, lo, hi, anchor, multicall, calls[j], results[j]);
    }
  }

  function Body(calls: seq<Call>, entries: seq<Entry>): (body: Batch)
    requires |entries| == |calls| + 6
    ensures |body| == |calls|
    ensures forall j :: 0 <= j < |calls| ==>
              body[j] == RawResult(calls[j].key, entries[j + 3].success, entries[j + 3].data, None, None)
  {
    seq(|calls|,
        j requires 0 <= j < |calls| =>
          RawResult(calls[j].key, entries[j + 3].success, entries[j + 3].data, None, None))
  }
}
