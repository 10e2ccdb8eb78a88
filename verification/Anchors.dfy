/** The last block of a UTC day, found by binary search over block timestamps. */
module Anchors {
  import opened Wrappers
  import opened Words

  datatype Block = Block(number: nat, blockHash: nat, parentHash: nat, timestamp: int)

  datatype Query = FinalityTag | Latest | Number(number: nat)

  /** A reply to one header read. `Rejected` is an application-level refusal, `Missing` a null block,
      `Unusable` a transport failure or a block that does not parse. */
  datatype Reply = Answer(block: Block) | Missing | Rejected | Unusable

  datatype AnchorError = NotFinalized | Invalid | Changed | Refused | Failed

  /** The provider's reply to each query at each point of the run: it need not repeat itself. */
  type Provider = (nat, Query) -> Reply

  datatype Resolved = Resolved(anchor: Block, next: Block, safeTip: Block)

  function DayEnd(day: int): int {
    (day + 1) * 86400
  }

  function ByTag(reply: Reply): Result<Block, AnchorError> {
    match reply
    case Answer(b) => Ok(b)
    case Missing => Err(Invalid)
    case Rejected => Err(Refused)
    case Unusable => Err(Failed)
  }

  function ByNumber(reply: Reply, number: nat): Result<Block, AnchorError> {
    match reply
    case Answer(b) => if b.number == number then Ok(b) else Err(Invalid)
    case Missing => Err(Invalid)
    case Rejected => Err(Refused)
    case Unusable => Err(Failed)
  }

  /** The endpoint refused the finality tag or has no block for it, and this is the block it serves `depth`
      below its latest. */
  ghost predicate BelowLatest(provider: Provider, depth: nat, tip: Block) {
    && (provider(0, FinalityTag).Rejected? || provider(0, FinalityTag).Missing?)
    && provider(1, Latest).Answer? && provider(1, Latest).block.number == tip.number + depth
    && provider(2, Number(tip.number)) == Answer(tip)
  }

  /** The finality tag where the endpoint has one; otherwise the block `depth` below the latest. With
      the number of reads made. */
  function SafeTip(provider: Provider, depth: nat): (r: (Result<Block, AnchorError>, nat))
    ensures r.1 <= 3
    ensures r.0.Ok? ==> provider(0, FinalityTag) == Answer(r.0.value) || BelowLatest(provider, depth, r.0.value)
    ensures provider(0, FinalityTag).Unusable? ==> r.0.Err?
  {
    var reply := provider(0, FinalityTag);
    if reply.Rejected? || reply.Missing? then
      var latest := ByTag(provider(1, Latest));
      if latest.Err? then (latest, 2)
      else if latest.value.number < depth then (Err(NotFinalized), 2)
      else (ByNumber(provider(2, Number(latest.value.number - depth)), latest.value.number - depth), 3)
    else (ByTag(reply), 1)
  }

  predicate Validates(r: Resolved, boundary: int) {
    && r.anchor.timestamp < boundary <= r.next.timestamp
    && r.next.number == r.anchor.number + 1
    && r.next.parentHash == r.anchor.blockHash
    && r.next.number <= r.safeTip.number
  }

  // ---- the number of halvings --------------------------------------------------------------------

  function CeilLog2(d: nat): nat {
    if d <= 1 then 0 else 1 + CeilLog2((d + 1) / 2)
  }

  /** The least n with d <= 2^n. */
  lemma {:induction false} CeilLog2Exact(d: nat, n: nat)
    ensures CeilLog2(d) <= n <==> d <= Pow2(n)
  {
    if d <= 1 {
    } else if n == 0 {
    } else {
      CeilLog2Exact((d + 1) / 2, n - 1);
    }
  }

  lemma {:induction false} CeilLog2Monotone(a: nat, b: nat)
    requires a <= b
    ensures CeilLog2(a) <= CeilLog2(b)
  {
    CeilLog2Exact(b, CeilLog2(b));
    CeilLog2Exact(a, CeilLog2(b));
  }

  lemma {:induction false} Halving(low: nat, high: nat, middle: nat)
    requires high - low > 1 && middle == low + (high - low) / 2
    ensures low < middle < high
    ensures CeilLog2(middle - low) < CeilLog2(high - low) && CeilLog2(high - middle) < CeilLog2(high - low)
  {
    CeilLog2Monotone((high - low) / 2, (high - low + 1) / 2);
  }

  // ---- resolution --------------------------------------------------------------------------------

  type Cache = map<nat, Block>

  ghost predicate Keyed(cache: Cache) {
    forall n :: n in cache ==> cache[n].number == n
  }

  /** A block already read is not read again. */
  method Read(provider: Provider, calls: nat, cache: Cache, number: nat)
      returns (r: Result<Block, AnchorError>, calls': nat, cache': Cache)
    requires Keyed(cache)
    ensures Keyed(cache')
    ensures number in cache ==> r == Ok(cache[number]) && calls' == calls && cache' == cache
    ensures number !in cache ==> calls' == calls + 1 && r == ByNumber(provider(calls, Number(number)), number)
    ensures number !in cache ==> cache' == if r.Ok? then cache[number := r.value] else cache
  {
    calls', cache' := calls, cache;
    if number in cache {
      return Ok(cache[number]), calls', cache';
    }
    r := ByNumber(provider(calls', Number(number)), number);
    calls' := calls' + 1;
    if r.Ok? {
      cache' := cache'[number := r.value];
    }
  }

  /** A chain of linked blocks with nondecreasing timestamps. */
  ghost predicate Linked(chain: seq<Block>) {
    && (forall n :: 0 <= n < |chain| ==> chain[n].number == n)
    && (forall m, n :: 0 <= m < n < |chain| ==> chain[m].timestamp <= chain[n].timestamp)
    && forall m, n :: 0 <= m && n == m + 1 < |chain| ==> chain[n].parentHash == chain[m].blockHash
  }

  /** Every read by number of a block of the chain is answered with it, whenever it is made. */
  ghost predicate Serves(provider: Provider, chain: seq<Block>) {
    forall t: nat, n: nat :: n < |chain| ==> provider(t, Number(n)) == Answer(chain[n])
  }

  ghost predicate FromChain(cache: Cache, chain: seq<Block>) {
    forall n :: n in cache ==> n < |chain| && cache[n] == chain[n]
  }

  /** The block is the highest of the chain before the boundary. */
  ghost predicate LastBefore(chain: seq<Block>, boundary: int, b: Block) {
    b.number < |chain| && chain[b.number] == b && forall n :: 0 <= n < |chain| ==>
        (chain[n].timestamp < boundary <==> n <= b.number)
  }

  /** Halves the interval between a block before the boundary and one at or after it. */
  method Search(provider: Provider, boundary: int, high0: nat, calls0: nat, cache0: Cache, ghost chain: seq<Block>)
      returns (r: Result<nat, AnchorError>, calls: nat, cache: Cache)
    requires high0 > 0 && Keyed(cache0) && 0 in cache0 && high0 in cache0
    requires cache0[0].timestamp < boundary <= cache0[high0].timestamp
    ensures calls <= calls0 + CeilLog2(high0)
    ensures Keyed(cache)
    ensures r.Ok? ==> r.value in cache && r.value + 1 in cache && r.value + 1 <= high0
    ensures r.Ok? ==> cache[r.value].timestamp < boundary <= cache[r.value + 1].timestamp
    ensures Serves(provider, chain) && Linked(chain) && FromChain(cache0, chain) ==> r.Ok? && FromChain(cache, chain)
  {
    var low, high := 0, high0;
    calls, cache := calls0, cache0;
    while high - low > 1
      invariant 0 <= low < high <= high0
      invariant Keyed(cache) && low in cache && high in cache
      invariant cache[low].timestamp < boundary <= cache[high].timestamp
      invariant calls + CeilLog2(high - low) <= calls0 + CeilLog2(high0)
      invariant Serves(provider, chain) && Linked(chain) && FromChain(cache0, chain) ==> FromChain(cache, chain)
    {
      var middle := low + (high - low) / 2;
      Halving(low, high, middle);
      var candidate;
      candidate, calls, cache := Read(provider, calls, cache, middle);
      if candidate.Err? {
        return Err(candidate.error), calls, cache;
      }
      if candidate.value.timestamp < boundary {
        low := middle;
      } else {
        high := middle;
      }
    }
    return Ok(low), calls, cache;
  }

  /** The last two reads returned exactly these blocks. */
  ghost predicate Confirmed(provider: Provider, calls: nat, r: Resolved) {
    && calls >= 2
    && provider(calls - 2, Number(r.anchor.number)) == Answer(r.anchor)
    && provider(calls - 1, Number(r.next.number)) == Answer(r.next)
  }

  /** Reads both proof blocks again and checks the boundary proof. */
  method Confirm(provider: Provider, boundary: int, found: Resolved, calls0: nat)
      returns (r: Result<Resolved, AnchorError>, calls: nat)
    ensures calls <= calls0 + 2
    ensures r.Ok? ==> r.value == found && Validates(found, boundary) && Confirmed(provider, calls, found)
    ensures r.Ok? <==> (Validates(found, boundary)
                        && provider(calls0, Number(found.anchor.number)) == Answer(found.anchor)
                        && provider(calls0 + 1, Number(found.next.number)) == Answer(found.next))
  {
    calls := calls0;
    var anchor := ByNumber(provider(calls, Number(found.anchor.number)), found.anchor.number);
    calls := calls + 1;
    if anchor.Err? {
      return Err(anchor.error), calls;
    }
    var next := ByNumber(provider(calls, Number(found.next.number)), found.next.number);
    calls := calls + 1;
    if next.Err? {
      return Err(next.error), calls;
    }
    if anchor.value != found.anchor || next.value != found.next {
      return Err(Changed), calls;
    }
    if !Validates(found, boundary) {
      return Err(Invalid), calls;
    }
    return Ok(found), calls;
  }

  /** On a linked chain, two adjacent blocks on either side of the boundary pin the last block before it. */
  lemma {:induction false} AdjacentPins(chain: seq<Block>, boundary: int, r: Resolved)
    requires Linked(chain) && r.next.number == r.anchor.number + 1 < |chain|
    requires chain[r.anchor.number] == r.anchor && chain[r.next.number] == r.next
    requires r.anchor.timestamp < boundary <= r.next.timestamp && r.next.number <= r.safeTip.number
    ensures LastBefore(chain, boundary, r.anchor) && Validates(r, boundary)
  {
    forall n | 0 <= n < |chain| ensures chain[n].timestamp < boundary <==> n <= r.anchor.number {
      assert n < r.anchor.number ==> chain[n].timestamp <= chain[r.anchor.number].timestamp;
      assert r.next.number < n ==> chain[r.next.number].timestamp <= chain[n].timestamp;
    }
  }

  ghost predicate Honest(provider: Provider, chain: seq<Block>, safeTip: Block) {
    Linked(chain) && Serves(provider, chain) && safeTip in chain
  }

  /** Resolution below a given safe tip at or after the boundary. */
  method ResolveBelow(provider: Provider, boundary: int, safeTip: Block, calls0: nat, ghost chain: seq<Block>)
      returns (r: Result<Resolved, AnchorError>, calls: nat)
    requires safeTip.timestamp >= boundary
    ensures calls <= calls0 + 3 + CeilLog2(safeTip.number)
    ensures r.Ok? ==> r.value.safeTip == safeTip && Validates(r.value, boundary) && Confirmed(provider, calls, r.value)
    ensures Honest(provider, chain, safeTip) ==> (r.Ok? <==> chain[0].timestamp < boundary)
    ensures Honest(provider, chain, safeTip) && r.Ok? ==> LastBefore(chain, boundary, r.value.anchor)
  {
    var cache: Cache := map[safeTip.number := safeTip];
    var genesis;
    genesis, calls, cache := Read(provider, calls0, cache, 0);
    if genesis.Err? {
      return Err(genesis.error), calls;
    }
    if genesis.value.timestamp >= boundary {
      return Err(Invalid), calls;
    }
    assert Honest(provider, chain, safeTip) ==> FromChain(cache, chain);
    var low;
    low, calls, cache := Search(provider, boundary, safeTip.number, calls, cache, chain);
    if low.Err? {
      return Err(low.error), calls;
    }
    var found := Resolved(cache[low.value], cache[low.value + 1], safeTip);
    if Honest(provider, chain, safeTip) {
      AdjacentPins(chain, boundary, found);
    }
    r, calls := Confirm(provider, boundary, found, calls);
  }

  /** Whatever the provider answers, an anchor is returned only with an adjacent successor linked to it
      by parent hash, the two on opposite sides of the boundary, not above the safe tip, both just
      confirmed by a second read, after at most 6 + ceil(log2(tip)) reads. On a linked chain with
      nondecreasing timestamps that the provider serves, resolution succeeds exactly when the day lies
      between genesis and the safe tip, and returns the highest block before the boundary. */
  method Resolve(provider: Provider, depth: nat, day: int, ghost chain: seq<Block>)
      returns (r: Result<Resolved, AnchorError>, calls: nat)
    ensures var tip := SafeTip(provider, depth).0;
            && (tip.Err? ==> r == Err(tip.error))
            && (tip.Ok? && tip.value.timestamp < DayEnd(day) ==> r == Err(NotFinalized))
            && (r.Ok? ==> tip == Ok(r.value.safeTip))
            && calls <= 6 + if tip.Ok? then CeilLog2(tip.value.number) else 0
    ensures r.Ok? ==> Validates(r.value, DayEnd(day)) && Confirmed(provider, calls, r.value)
    ensures var tip := SafeTip(provider, depth).0;
            tip.Ok? && Honest(provider, chain, tip.value) ==>
              && (r.Ok? <==> chain[0].timestamp < DayEnd(day) <= tip.value.timestamp)
              && (r.Ok? ==> LastBefore(chain, DayEnd(day), r.value.anchor))
  {
    var boundary := DayEnd(day);
    var (tip, made) := SafeTip(provider, depth);
    if tip.Err? {
      return Err(tip.error), made;
    }
    if tip.value.timestamp < boundary {
      return Err(NotFinalized), made;
    }
    r, calls := ResolveBelow(provider, boundary, tip.value, made, chain);
  }
}
