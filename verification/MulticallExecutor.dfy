/** The Multicall3 executor on one batch: retries on other endpoints, single-call repeats, adaptive halving. */
module MulticallExecutor {
  import opened Wrappers
  import opened Endpoints
  import opened Calls
  import opened Multicall
  import opened MulticallTasks

  // ---- where a task stands when the executor's methods begin and end ------------------------------------

  /** About to begin a round of requests that avoids these endpoints. */
  ghost predicate Poised(t: Task, calls: seq<Call>, exclude: set<string>, maxRetries: nat) {
    && t.Running? && WellFormed(t) && t.attempt.tries < maxRetries
    && t.attempt == Attempt(calls, t.attempt.tries, exclude, 0, exclude, None)
  }

  /** Within such a round. */
  ghost function InRound(t: Task, sent: nat, excluded: set<string>, last: Option<(Endpoint, Failure)>): Task {
    if t.Running? then t.(attempt := t.attempt.(sent := sent, excluded := excluded, last := last)) else t
  }

  /** Between two tries of the same calls. */
  ghost function InTry(t: Task, tries: nat, excluded: set<string>): Task {
    if t.Running? then t.(attempt := Attempt(t.attempt.calls, tries, excluded, 0, excluded, None)) else t
  }

  /** About to execute these calls: a whole part, or a failed subcall alone. */
  ghost predicate Ready(t: Task, calls: seq<Call>, whole: bool) {
    t.Running? && WellFormed(t) && t.attempt == Begin(calls) && (whole <==> t.repeating.None?)
  }

  ghost function Stop(t: Task, e: ExecError): Task {
    if e == ProviderLimit && t.Running? && t.pending != [] then Halve(t) else Raised(e)
  }

  /** After the reply that ended a round. */
  ghost function AfterCall(t: Task, r: Result<(seq<Entry>, bool), ExecError>, endpoint: Endpoint, anchor: Anchor): Task
  {
    if !t.Running? || !WellFormed(t) then t
    else if r.Err? then Stop(t, r.error)
    else if r.value.1 && Proven(r.value.0, |t.attempt.calls|, anchor) then Accept(t, r.value.0)
    else t.(attempt := Refuse(t.attempt, endpoint))
  }

  /** The running part is done, in these batches. */
  ghost function Completed(t: Task, batches: seq<Batch>): Task {
    if !t.Running? then t
    else if |t.pending| <= 1 then Finished(t.done + batches)
    else Running(t.done + batches, t.pending[1..], Begin(t.pending[1]), None)
  }

  ghost function AfterProof(t: Task, r: Result<Batch, ExecError>): Task {
    if !t.Running? || !WellFormed(t) then t
    else if r.Err? then Stop(t, r.error)
    else match t.repeating
         case None => if |r.value| == |t.pending[0]| then Repeat(t, r.value, 0) else t
         case Some((body, i)) => if r.value == [] then t else Repeat(t, body[i := r.value[0]], i + 1)
  }

  ghost function AfterOnce(t: Task, r: Result<Batch, ExecError>): Task {
    if !t.Running? || !WellFormed(t) then t
    else if r.Err? then Stop(t, r.error)
    else match t.repeating
         case None => Completed(t, [r.value])
         case Some((body, i)) => if r.value == [] then t else Repeat(t, body[i := r.value[0]], i + 1)
  }

  ghost function AfterAll(t: Task, r: Result<seq<Batch>, ExecError>): Task {
    if r.Ok? then Completed(t, r.value) else Raised(r.error)
  }

  // ---- what a reply does ----------------------------------------------------------------------------------

  /** A failure after which another request of the round is worth it. */
  predicate AsksAgain(reply: Reply) {
    reply.Failed? && !reply.failure.isLimit && (reply.failure.retryable || reply.failure.failover)
  }

  function Excluding(excluded: set<string>, endpoint: Endpoint, failure: Failure): set<string> {
    if failure.failover then excluded + {endpoint.name} else excluded
  }

  /** What a round returns for the reply that ends it. */
  function Verdict(reply: Reply): Result<(seq<Entry>, bool), ExecError> {
    match reply
    case Answered(entries) => Ok((entries, true))
    case Undecodable => Ok(([], false))
    case Failed(failure) => Err(if failure.isLimit then ProviderLimit else RpcError)
  }

  /** The reply to a request of a round ends it, or leads to its next request. */
  lemma {:induction false} RoundReply(s: Setup, t: Task, calls: seq<Call>, exclude: set<string>, sent: nat,
      excluded: set<string>, last: Option<(Endpoint, Failure)>, pick: Option<Endpoint>, k: nat)
    requires s.anchor.number >= 1 && Poised(t, calls, exclude, s.maxRetries) && sent < s.maxRetries
    ensures var now := InRound(t, sent, excluded, last);
            WellFormed(now) && Advance(s, now, pick, k) == Turn(s, t, calls, sent, excluded, last, pick, k)
  {
    var endpoint := Choose(Attempt(calls, 0, {}, sent, excluded, last), pick);
    if endpoint.Some? {
      RoundReact(s, t, calls, exclude, sent, excluded, last, endpoint.value, k);
    }
  }

  lemma {:induction false} RoundReact(s: Setup, t: Task, calls: seq<Call>, exclude: set<string>, sent: nat,
      excluded: set<string>, last: Option<(Endpoint, Failure)>, endpoint: Endpoint, k: nat)
    requires s.anchor.number >= 1 && Poised(t, calls, exclude, s.maxRetries)
    ensures var now := InRound(t, sent, excluded, last);
            var reply := s.transport(k, endpoint, Packed(calls, s.anchor, s.multicall));
            && WellFormed(now)
            && React(s, now, endpoint, k) ==
                 if AsksAgain(reply) then
                   InRound(t, sent + 1, Excluding(excluded, endpoint, reply.failure), Some((endpoint, reply.failure)))
                 else AfterCall(t, Verdict(reply), endpoint, s.anchor)
  {
    var now := InRound(t, sent, excluded, last);
    var reply := s.transport(k, endpoint, Packed(calls, s.anchor, s.multicall));
    if reply.Answered? && Proven(reply.entries, |calls|, s.anchor) {
      assert Accept(now, reply.entries) == Accept(t, reply.entries);
    }
  }

  ghost function Turn(s: Setup, t: Task, calls: seq<Call>, sent: nat, excluded: set<string>,
      last: Option<(Endpoint, Failure)>, pick: Option<Endpoint>, k: nat): (Task, nat)
    requires s.anchor.number >= 1
  {
    var endpoint := Choose(Attempt(calls, 0, {}, sent, excluded, last), pick);
    if endpoint.None? then (Raised(NoHealthyEndpoint), 0) else
      var reply := s.transport(k, endpoint.value, Packed(calls, s.anchor, s.multicall));
      (if AsksAgain(reply) then
         InRound(t, sent + 1, Excluding(excluded, endpoint.value, reply.failure), Some((endpoint.value, reply.failure)))
       else AfterCall(t, Verdict(reply), endpoint.value, s.anchor), 1)
  }

  /** What the end of a round means for the calls it was about. */
  lemma {:induction false} TryReply(t: Task, calls: seq<Call>, whole: bool, tries: nat, excluded: set<string>,
      r: Result<(seq<Entry>, bool), ExecError>, endpoint: Endpoint, anchor: Anchor)
    requires Ready(t, calls, whole)
    ensures var next := AfterCall(InTry(t, tries, excluded), r, endpoint, anchor);
            && WellFormed(InTry(t, tries, excluded))
            && (r.Err? ==> next == Stop(t, r.error))
            && (r.Ok? && !(r.value.1 && Proven(r.value.0, |calls|, anchor)) ==>
                  next == InTry(t, tries + 1, excluded + {endpoint.name}))
            && (r.Ok? && r.value.1 && Proven(r.value.0, |calls|, anchor) ==>
                  next == AfterProof(t, Ok(Body(calls, r.value.0))))
  {
  }

  /** One more try of the same calls: done, stopped, or refused. */
  ghost function AfterTry(t: Task, calls: seq<Call>, tries: nat, excluded: set<string>,
      r: Result<(seq<Entry>, bool), ExecError>, endpoint: Endpoint, anchor: Anchor): Task
  {
    if r.Err? then Stop(t, r.error)
    else if r.value.1 && Proven(r.value.0, |calls|, anchor) then AfterProof(t, Ok(Body(calls, r.value.0)))
    else InTry(t, tries + 1, excluded + {endpoint.name})
  }

  lemma {:induction false} TryWalks(s: Setup, t: Task, calls: seq<Call>, whole: bool, k: nat,
      picks: seq<Option<Endpoint>>, tries: nat, excluded: set<string>, before: nat, more: seq<Option<Endpoint>>,
      r: Result<(seq<Entry>, bool), ExecError>, endpoint: Endpoint, hi: nat)
    requires s.anchor.number >= 1 && Ready(t, calls, whole) && tries < s.maxRetries
    requires var now := InTry(t, tries, excluded);
             && Walks(s, t, k, picks, now, before)
             && (Poised(now, calls, excluded, s.maxRetries) ==>
                   Walks(s, now, before, more, AfterCall(now, r, endpoint, s.anchor), hi))
    ensures Walks(s, t, k, picks + more, AfterTry(t, calls, tries, excluded, r, endpoint, s.anchor), hi)
  {
    var now := InTry(t, tries, excluded);
    TryReply(t, calls, whole, tries, excluded, r, endpoint, s.anchor);
    WalkJoin(s, t, k, picks, now, before, more, AfterCall(now, r, endpoint, s.anchor), hi);
  }

  lemma {:induction false} GivesUp(s: Setup, t: Task, calls: seq<Call>, whole: bool, k: nat,
      picks: seq<Option<Endpoint>>, excluded: set<string>, m: nat)
    requires s.anchor.number >= 1 && Ready(t, calls, whole)
    requires Walks(s, t, k, picks, InTry(t, s.maxRetries, excluded), m)
    ensures Walks(s, t, k, picks + [None], Raised(Unverifiable), m)
  {
    WalkOn(s, t, k, picks, InTry(t, s.maxRetries, excluded), m, None);
  }

  // ---- halves ---------------------------------------------------------------------------------------------

  lemma {:induction false} HalvedReady(t: Task, calls: seq<Call>)
    requires Ready(t, calls, true) && |calls| > 1
    ensures Halve(t).Running? && Halve(t).pending == [calls[..|calls| / 2], calls[|calls| / 2..]] + t.pending[1..]
    ensures Ready(Halve(t), calls[..|calls| / 2], true)
  {
    NonemptyParts(t.pending, calls[..|calls| / 2], calls[|calls| / 2..]);
  }

  lemma {:induction false} LeftReady(t: Task, calls: seq<Call>, left: seq<Batch>)
    requires Ready(t, calls, true) && |calls| > 1
    ensures Ready(AfterAll(Halve(t), Ok(left)), calls[|calls| / 2..], true)
    ensures AfterAll(Halve(t), Ok(left)).pending == [calls[|calls| / 2..]] + t.pending[1..]
    ensures AfterAll(Halve(t), Ok(left)).done == t.done + left
  {
    HalvedReady(t, calls);
    var parts, next := Halve(t).pending, AfterAll(Halve(t), Ok(left));
    assert next.pending == parts[1..] && forall p :: p in next.pending ==> p in parts;
  }

  lemma {:induction false} BothDone(t: Task, calls: seq<Call>, left: seq<Batch>, right: seq<Batch>)
    requires Ready(t, calls, true) && |calls| > 1
    ensures AfterAll(AfterAll(Halve(t), Ok(left)), Ok(right)) == AfterAll(t, Ok(left + right))
  {
    LeftReady(t, calls, left);
    assert t.done + left + right == t.done + (left + right);
    assert ([calls[|calls| / 2..]] + t.pending[1..])[1..] == t.pending[1..];
  }

  lemma {:induction false} BodyBacked(transport: Transport, lo: nat, k: nat, anchor: Anchor, multicall: nat,
      calls: seq<Call>, entries: seq<Entry>, endpoint: Endpoint)
    requires anchor.number >= 1 && lo <= k && Proven(entries, |calls|, anchor)
    requires transport(k, endpoint, Packed(calls, anchor, multicall)) == Answered(entries)
    ensures AllBacked(transport, lo, k + 1, anchor, multicall, calls, Body(calls, entries))
  {
    var body := Body(calls, entries);
    forall j | 0 <= j < |calls| ensures Backed(transport, lo, k + 1, anchor, multicall, calls[j], body[j]) {
      assert BackedBy(transport, anchor, multicall, calls[j], body[j], k, endpoint, calls, j);
    }
  }

  lemma {:induction false} HalvesBacked(transport: Transport, lo: nat, start: nat, between: nat, hi: nat,
      anchor: Anchor, multicall: nat, calls: seq<Call>, midpoint: nat, left: seq<Batch>, right: seq<Batch>)
    requires anchor.number >= 1 && lo <= start <= between <= hi && midpoint <= |calls|
    requires AllBacked(transport, start, between, anchor, multicall, calls[..midpoint], Flatten(left))
    requires AllBacked(transport, between, hi, anchor, multicall, calls[midpoint..], Flatten(right))
    ensures AllBacked(transport, lo, hi, anchor, multicall, calls, Flatten(left + right))
  {
    BackedWider(transport, start, between, lo, hi, anchor, multicall, calls[..midpoint], Flatten(left));
    BackedWider(transport, between, hi, lo, hi, anchor, multicall, calls[midpoint..], Flatten(right));
    BackedConcat(transport, lo, hi, anchor, multicall, calls[..midpoint], Flatten(left), calls[midpoint..],
        Flatten(right));
    FlattenConcat(left, right);
    assert calls == calls[..midpoint] + calls[midpoint..];
  }

  class Multicall3Executor {
    const pool: EndpointPool
    const transport: Transport
    const health: Health
    const multicall: nat
    const maxRetries: nat
    var requests: nat

    ghost predicate Valid()
      reads this, pool
    {
      pool.Valid()
    }

    constructor (pool: EndpointPool, transport: Transport, health: Health, multicall: nat, maxRetries: nat)
      requires pool.Valid()
      ensures Valid()
    {
      this.pool, this.transport, this.health, this.multicall := pool, transport, health, multicall;
      this.maxRetries, requests := maxRetries, 0;
    }

    /** Prefers an endpoint with EIP-1898 support, otherwise takes any that can serve. */
    method SelectEndpoint(excluded: set<string>) returns (r: Option<Endpoint>)
      requires Valid()
      modifies pool
      ensures Valid()
      ensures r.Some? ==> r.value.name !in excluded
    {
      ghost var skipped;
      r, skipped := pool.Select(health(requests), true, excluded);
      if r.None? {
        r, skipped := pool.Select(health(requests), false, excluded);
      }
    }

    ghost function SetupAt(anchor: Anchor): Setup {
      Setup(transport, anchor, multicall, maxRetries)
    }

    /** What an endpoint answers to request `k` with these calls between the sentinels. */
    function ReplyTo(k: nat, endpoint: Endpoint, calls: seq<Call>, anchor: Anchor): Reply
      requires anchor.number >= 1
    {
      transport(k, endpoint, Packed(calls, anchor, multicall))
    }

    /** With both sentinel triples in place, the entries of the answer to request `k` back their results. */
    ghost predicate Backs(k: nat, calls: seq<Call>, anchor: Anchor, entries: seq<Entry>)
      requires anchor.number >= 1
    {
      Proven(entries, |calls|, anchor) ==>
        AllBacked(transport, k, k + 1, anchor, multicall, calls, Body(calls, entries))
    }

    /** One request, to the endpoint that selection yields or, for want of one, again to the last if it was
        only busy. */
    method Ask(calls: seq<Call>, anchor: Anchor, excluded: set<string>, last: Option<(Endpoint, Failure)>)
        returns (reply: Option<Reply>, endpoint: Endpoint, ghost pick: Option<Endpoint>)
      requires Valid() && anchor.number >= 1
      modifies this, pool
      ensures Valid() && requests == old(requests) + if reply.Some? then 1 else 0
      ensures Choose(Attempt(calls, 0, {}, 0, excluded, last), pick) == if reply.Some? then Some(endpoint) else None
      ensures reply.Some? ==>
                && reply.value == ReplyTo(old(requests), endpoint, calls, anchor)
                && (reply.value.Answered? ==> Backs(old(requests), calls, anchor, reply.value.entries))
    {
      var chosen := SelectEndpoint(excluded);
      pick := chosen;
      if chosen.None? && last.Some? && last.value.1.retryable {
        chosen := Some(last.value.0);
      }
      if chosen.None? {
        return None, Endpoint("", "", false), pick;
      }
      reply, endpoint := Some(ReplyTo(requests, chosen.value, calls, anchor)), chosen.value;
      var answer := reply.value;
      if answer.Answered? && Proven(answer.entries, |calls|, anchor) {
        BodyBacked(transport, requests, requests, anchor, multicall, calls, answer.entries, endpoint);
      }
      requests := requests + 1;
    }

    /** One packed request with failover. The endpoint that answers is never one the caller excluded,
        also when a busy endpoint is retried for want of another. A task that is about to begin such a
        round can take the same steps. */
    method EthCall(calls: seq<Call>, anchor: Anchor, exclude: set<string>, ghost t: Task)
        returns (r: Result<(seq<Entry>, bool), ExecError>, endpoint: Endpoint, ghost picks: seq<Option<Endpoint>>)
      requires Valid() && anchor.number >= 1
      modifies this, pool
      ensures Valid() && old(requests) <= requests
      ensures r.Ok? ==> endpoint.name !in exclude && requests > old(requests)
      ensures r.Ok? ==> var reply := ReplyTo(requests - 1, endpoint, calls, anchor);
                        if r.value.1 then reply == Answered(r.value.0) else reply.Undecodable?
      ensures r.Ok? && r.value.1 ==> Backs(requests - 1, calls, anchor, r.value.0)
      ensures Poised(t, calls, exclude, maxRetries) ==>
                Walks(SetupAt(anchor), t, old(requests), picks, AfterCall(t, r, endpoint, anchor), requests)
    {
      endpoint, picks := Endpoint("", "", false), [];
      ghost var s, poised := SetupAt(anchor), Poised(t, calls, exclude, maxRetries);
      var excluded := exclude;
      var last: Option<(Endpoint, Failure)> := None;
      for attempt := 0 to maxRetries
        invariant Valid() && old(requests) <= requests && exclude <= excluded
        invariant last.Some? ==> last.value.0.name !in exclude
        invariant poised ==> Walks(s, t, old(requests), picks, InRound(t, attempt, excluded, last), requests)
      {
        var reply;
        ghost var pick, before := None, requests;
        reply, endpoint, pick := Ask(calls, anchor, excluded, last);
        if poised {
          RoundReply(s, t, calls, exclude, attempt, excluded, last, pick, before);
          WalkOn(s, t, old(requests), picks, InRound(t, attempt, excluded, last), before, pick);
        }
        picks := picks + [pick];
        if reply.None? {
          r := Err(NoHealthyEndpoint);
          return;
        }
        if !AsksAgain(reply.value) {
          r := Verdict(reply.value);
          return;
        }
        last := Some((endpoint, reply.value.failure));
        excluded := Excluding(excluded, endpoint, reply.value.failure);
      }
      if poised {
        WalkOn(s, t, old(requests), picks, InRound(t, maxRetries, excluded, last), requests, None);
      }
      picks := picks + [None];
      r := Err(NoHealthyEndpoint);
    }

    /** The calls in one request, again on other endpoints until an answer is proven. */
    method Prove(calls: seq<Call>, anchor: Anchor, whole: bool, ghost t: Task)
        returns (r: Result<Batch, ExecError>, ghost picks: seq<Option<Endpoint>>)
      requires Valid() && anchor.number >= 1
      modifies this, pool
      ensures Valid() && old(requests) <= requests
      ensures r.Ok? ==> AllBacked(transport, old(requests), requests, anchor, multicall, calls, r.value)
      ensures Ready(t, calls, whole) ==>
                Walks(SetupAt(anchor), t, old(requests), picks, AfterProof(t, r), requests)
    {
      picks := [];
      ghost var s, ready := SetupAt(anchor), Ready(t, calls, whole);
      var excluded: set<string> := {};
      for attempt := 0 to maxRetries
        invariant Valid() && old(requests) <= requests
        invariant ready ==> Walks(s, t, old(requests), picks, InTry(t, attempt, excluded), requests)
      {
        ghost var now, before := InTry(t, attempt, excluded), requests;
        var answer, endpoint;
        ghost var more;
        answer, endpoint, more := EthCall(calls, anchor, excluded, now);
        if ready {
          TryWalks(s, t, calls, whole, old(requests), picks, attempt, excluded, before, more, answer, endpoint,
              requests);
        }
        picks := picks + more;
        if answer.Err? {
          r := Err(answer.error);
          return;
        }
        var entries := answer.value.0;
        if answer.value.1 && Proven(entries, |calls|, anchor) {
          BackedWider(transport, requests - 1, requests, old(requests), requests, anchor, multicall, calls,
              Body(calls, entries));
          r := Ok(Body(calls, entries));
          return;
        }
        excluded := excluded + {endpoint.name};
      }
      if ready {
        GivesUp(s, t, calls, whole, old(requests), picks, excluded, requests);
      }
      picks := picks + [None];
      r := Err(Unverifiable);
    }

    /** One batch with proof; failed subcalls are repeated alone before their failure is believed. */
    method ExecuteOnce(calls: seq<Call>, anchor: Anchor, escalate: bool, ghost t: Task)
        returns (r: Result<Batch, ExecError>, ghost picks: seq<Option<Endpoint>>)
      requires Valid() && anchor.number >= 1
      modifies this, pool
      ensures Valid() && old(requests) <= requests
      ensures r.Ok? ==> AllBacked(transport, old(requests), requests, anchor, multicall, calls, r.value)
      ensures Ready(t, calls, escalate) ==>
                Walks(SetupAt(anchor), t, old(requests), picks, AfterOnce(t, r), requests)
      decreases escalate
    {
      var body;
      body, picks := Prove(calls, anchor, escalate, t);
      if body.Err? || !escalate {
        return body, picks;
      }
      ghost var mid, more := requests, [];
      r, more := Escalate(calls, anchor, body.value, old(requests), t);
      if Ready(t, calls, escalate) {
        WalkJoin(SetupAt(anchor), t, old(requests), picks, Repeat(t, body.value, 0), mid, more, AfterOnce(t, r),
            requests);
      }
      picks := picks + more;
    }

    method Escalate(calls: seq<Call>, anchor: Anchor, proven: Batch, ghost lo: nat, ghost t: Task)
        returns (r: Result<Batch, ExecError>, ghost picks: seq<Option<Endpoint>>)
      requires Valid() && anchor.number >= 1 && lo <= requests
      requires AllBacked(transport, lo, requests, anchor, multicall, calls, proven)
      modifies this, pool
      ensures Valid() && old(requests) <= requests
      ensures r.Ok? ==> AllBacked(transport, lo, requests, anchor, multicall, calls, r.value)
      ensures Ready(t, calls, true) ==>
                Walks(SetupAt(anchor), Repeat(t, proven, 0), old(requests), picks, AfterOnce(t, r), requests)
      decreases true, 0
    {
      picks := [];
      ghost var s, ready := SetupAt(anchor), Ready(t, calls, true);
      ghost var first := if ready then Repeat(t, proven, 0) else t;
      var body := proven;
      for index := 0 to |body|
        invariant Valid() && old(requests) <= requests && |body| == |proven|
        invariant AllBacked(transport, lo, requests, anchor, multicall, calls, body)
        invariant ready ==> Walks(s, first, old(requests), picks, Repeat(t, body, index), requests)
      {
        if body[index].success {
          continue;
        }
        ghost var now, before := if ready then Repeat(t, body, index) else t, requests;
        var retry;
        ghost var more;
        retry, more := ExecuteOnce([calls[index]], anchor, false, now);
        if ready {
          WalkJoin(s, first, old(requests), picks, now, before, more, AfterOnce(now, retry), requests);
        }
        picks := picks + more;
        if retry.Err? {
          r := Err(retry.error);
          return;
        }
        ReplaceBacked(transport, lo, before, requests, anchor, multicall, calls, body, index, retry.value);
        body := body[index := retry.value[0]];
      }
      r := Ok(body);
    }

    /** Halves a batch the provider refuses as too large, down to single calls. */
    method ExecuteAdaptive(calls: seq<Call>, anchor: Anchor, ghost t: Task)
        returns (r: Result<seq<Batch>, ExecError>, ghost picks: seq<Option<Endpoint>>)
      requires Valid() && anchor.number >= 1 && calls != []
      modifies this, pool
      ensures Valid() && old(requests) <= requests
      ensures r.Ok? ==> AllBacked(transport, old(requests), requests, anchor, multicall, calls, Flatten(r.value))
      ensures Ready(t, calls, true) ==>
                Walks(SetupAt(anchor), t, old(requests), picks, AfterAll(t, r), requests)
      decreases |calls|
    {
      ghost var s, ready := SetupAt(anchor), Ready(t, calls, true);
      var once;
      once, picks := ExecuteOnce(calls, anchor, true, t);
      if once.Ok? {
        assert [once.value][..0] == [] && Flatten([once.value]) == once.value;
        r := Ok([once.value]);
        return;
      }
      if once.error != ProviderLimit || |calls| == 1 {
        r := Err(once.error);
        return;
      }
      var midpoint := |calls| / 2;
      ghost var start, halved := requests, if ready then Halve(t) else t;
      ghost var more;
      var left, right;
      left, more := ExecuteAdaptive(calls[..midpoint], anchor, halved);
      ghost var lefty := AfterAll(halved, left);
      if ready {
        HalvedReady(t, calls);
        WalkJoin(s, t, old(requests), picks, halved, start, more, lefty, requests);
      }
      picks := picks + more;
      if left.Err? {
        r := left;
        return;
      }
      ghost var between := requests;
      right, more := ExecuteAdaptive(calls[midpoint..], anchor, lefty);
      if ready {
        LeftReady(t, calls, left.value);
        WalkJoin(s, t, old(requests), picks, lefty, between, more, AfterAll(lefty, right), requests);
      }
      picks := picks + more;
      if right.Err? {
        r := right;
        return;
      }
      HalvesBacked(transport, old(requests), start, between, requests, anchor, multicall, calls, midpoint, left.value,
          right.value);
      if ready {
        BothDone(t, calls, left.value, right.value);
      }
      r := Ok(left.value + right.value);
    }

    /** The executor with a single group of calls, which it runs without concurrency: its run is a schedule
        of one task, with the same result. */
    method ExecuteAlone(calls: seq<Call>, anchor: Anchor)
        returns (r: Result<seq<Batch>, ExecError>, ghost steps: seq<Step>)
      requires Valid() && anchor.number >= 1 && calls != []
      modifies this, pool
      ensures Valid() && old(requests) <= requests
      ensures r.Ok? ==> AllBacked(transport, old(requests), requests, anchor, multicall, calls, Flatten(r.value))
      ensures var w := World(old(requests), [Start(calls)]);
              && AllSound(SetupAt(anchor), w, [calls])
              && Play(SetupAt(anchor), w, [calls], steps) ==
                   World(requests, [if r.Ok? then Finished(r.value) else Raised(r.error)])
    {
      ghost var s, t, lo := SetupAt(anchor), Start(calls), requests;
      ghost var picks;
      r, picks := ExecuteAdaptive(calls, anchor, t);
      StartSound(s, calls);
      SoundLater(s, t, calls, 0, lo);
      assert r.Ok? ==> [] + r.value == r.value;
      assert Ready(t, calls, true) && AfterAll(t, r) == if r.Ok? then Finished(r.value) else Raised(r.error);
      steps := StepsOf(picks);
      WalkPlays(s, calls, t, lo, picks, AfterAll(t, r), requests);
    }
  }
}
