/** Concurrent Multicall3 batches: tasks that interleave at every request, in any schedule. */
module MulticallTasks {
  import opened Wrappers
  import opened Endpoints
  import opened Calls
  import opened Multicall

  /** What all tasks share: the providers, the anchor, the contract and the retry bound. */
  datatype Setup = Setup(transport: Transport, anchor: Anchor, multicall: nat, maxRetries: nat)

  /** Between two requests of one verified execution of `calls`: how often an answer was refused and by
      which endpoints, and within the current round how many requests were sent, which endpoints are
      excluded, and how the last one failed. */
  datatype Attempt = Attempt(calls: seq<Call>, tries: nat, refused: set<string>,
                             sent: nat, excluded: set<string>, last: Option<(Endpoint, Failure)>)

  /** A batch in progress: finished parts, parts still to run (the first is running), the attempt, and
      while failed subcalls are repeated alone the proven body and the index being repeated. */
  datatype Task =
    | Running(done: seq<Batch>, pending: seq<seq<Call>>, attempt: Attempt, repeating: Option<(Batch, nat)>)
    | Finished(batches: seq<Batch>)
    | Raised(error: ExecError)

  /** The scheduler lets one task send its next request. `pick` is what endpoint selection yields at that
      moment: the pool, its cursor and its cooldowns are shared, so it may be anything not excluded. */
  datatype Step = Step(task: nat, pick: Option<Endpoint>)

  datatype World = World(requests: nat, tasks: seq<Task>)

  function Begin(calls: seq<Call>): Attempt {
    Attempt(calls, 0, {}, 0, {}, None)
  }

  function Start(group: seq<Call>): Task {
    Running([], [group], Begin(group), None)
  }

  /** An answer without proof: the endpoint is not asked again for these calls. */
  function Refuse(a: Attempt, endpoint: Endpoint): Attempt {
    var refused := a.refused + {endpoint.name};
    Attempt(a.calls, a.tries + 1, refused, 0, refused, None)
  }

  /** The first failed subcall from an index on, or the length. */
  function NextFailed(body: Batch, from: nat): (i: nat)
    requires from <= |body|
    ensures from <= i <= |body| && (i < |body| ==> !body[i].success)
    ensures forall j :: from <= j < i ==> body[j].success
    decreases |body| - from
  {
    if from == |body| || !body[from].success then from else NextFailed(body, from + 1)
  }

  /** With a proven body: repeat the next failed subcall alone, or finish the part. */
  function Repeat(t: Task, body: Batch, from: nat): Task
    requires t.Running? && t.pending != [] && |body| == |t.pending[0]| && from <= |body|
  {
    var i := NextFailed(body, from);
    if i < |body| then Running(t.done, t.pending, Begin([t.pending[0][i]]), Some((body, i)))
    else if |t.pending| == 1 then Finished(t.done + [body])
    else Running(t.done + [body], t.pending[1..], Begin(t.pending[1]), None)
  }

  /** A provider limit: halve the running part, unless it is a single call. */
  function Halve(t: Task): Task
    requires t.Running? && t.pending != []
  {
    var calls := t.pending[0];
    if |calls| <= 1 then Raised(ProviderLimit) else
      var left, right := calls[..|calls| / 2], calls[|calls| / 2..];
      Running(t.done, [left, right] + t.pending[1..], Begin(left), None)
  }

  function Fail(t: Task, endpoint: Endpoint, failure: Failure): Task
    requires t.Running? && t.pending != []
  {
    var a := t.attempt;
    if failure.isLimit then Halve(t)
    else if !failure.retryable && !failure.failover then Raised(RpcError)
    else
      var excluded := if failure.failover then a.excluded + {endpoint.name} else a.excluded;
      t.(attempt := a.(sent := a.sent + 1, excluded := excluded, last := Some((endpoint, failure))))
  }

  /** The endpoint of the next request: the selected one, or again the last one if it was only busy. */
  function Choose(a: Attempt, pick: Option<Endpoint>): Option<Endpoint> {
    if pick.Some? && pick.value.name !in a.excluded then pick
    else if a.last.Some? && a.last.value.1.retryable then Some(a.last.value.0)
    else None
  }

  /** The shape of a task between requests. */
  ghost predicate WellFormed(t: Task) {
    t.Running? ==>
      && t.pending != [] && (forall p :: p in t.pending ==> p != [])
      && match t.repeating
         case None => t.attempt.calls == t.pending[0]
         case Some((body, i)) =>
           |body| == |t.pending[0]| && i < |body| && t.attempt.calls == [t.pending[0][i]]
  }

  function Accept(t: Task, entries: seq<Entry>): Task
    requires t.Running? && WellFormed(t) && |entries| == |t.attempt.calls| + 6
  {
    var body := Body(t.attempt.calls, entries);
    match t.repeating
    case None => Repeat(t, body, 0)
    case Some((proven, i)) => Repeat(t, proven[i := body[0]], i + 1)
  }

  /** The task after the reply to request `k`. */
  function React(s: Setup, t: Task, endpoint: Endpoint, k: nat): Task
    requires s.anchor.number >= 1 && t.Running? && WellFormed(t)
  {
    var reply := s.transport(k, endpoint, Packed(t.attempt.calls, s.anchor, s.multicall));
    match reply
    case Failed(failure) => Fail(t, endpoint, failure)
    case Undecodable => t.(attempt := Refuse(t.attempt, endpoint))
    case Answered(entries) =>
      if Proven(entries, |t.attempt.calls|, s.anchor) then Accept(t, entries)
      else t.(attempt := Refuse(t.attempt, endpoint))
  }

  /** One step of a task as request number `k`: the task after it, and how many requests were sent. */
  function Advance(s: Setup, t: Task, pick: Option<Endpoint>, k: nat): (Task, nat)
    requires s.anchor.number >= 1 && WellFormed(t)
  {
    if !t.Running? then (t, 0)
    else if t.attempt.tries >= s.maxRetries then (Raised(Unverifiable), 0)
    else if t.attempt.sent >= s.maxRetries then (Raised(NoHealthyEndpoint), 0)
    else
      var endpoint := Choose(t.attempt, pick);
      if endpoint.None? then (Raised(NoHealthyEndpoint), 0) else (React(s, t, endpoint.value, k), 1)
  }

  // ---- what every step keeps -------------------------------------------------------------------------

  /** The results so far answer the first calls of the group in order, each backed by a proven answer, and
      the pending parts are the rest of the group. */
  ghost predicate Sound(s: Setup, t: Task, group: seq<Call>, hi: nat)
    requires s.anchor.number >= 1
  {
    && WellFormed(t)
    && match t
       case Finished(batches) => AllBacked(s.transport, 0, hi, s.anchor, s.multicall, group, Flatten(batches))
       case Raised(_) => true
       case Running(done, pending, _, repeating) =>
         var n := |Flatten(done)|;
         && n <= |group| && Flatten(pending) == group[n..]
         && AllBacked(s.transport, 0, hi, s.anchor, s.multicall, group[..n], Flatten(done))
         && (repeating.Some? ==>
               AllBacked(s.transport, 0, hi, s.anchor, s.multicall, pending[0], repeating.value.0))
  }

  lemma {:induction false} SoundLater(s: Setup, t: Task, group: seq<Call>, lo: nat, hi: nat)
    requires s.anchor.number >= 1 && Sound(s, t, group, lo) && lo <= hi
    ensures Sound(s, t, group, hi)
  {
    match t
    case Finished(batches) =>
      BackedWider(s.transport, 0, lo, 0, hi, s.anchor, s.multicall, group, Flatten(batches));
    case Raised(_) =>
    case Running(done, pending, _, repeating) =>
      var n := |Flatten(done)|;
      BackedWider(s.transport, 0, lo, 0, hi, s.anchor, s.multicall, group[..n], Flatten(done));
      if repeating.Some? {
        BackedWider(s.transport, 0, lo, 0, hi, s.anchor, s.multicall, pending[0], repeating.value.0);
      }
  }

  lemma {:induction false} FlattenFirst<T>(parts: seq<seq<T>>)
    requires parts != []
    ensures Flatten(parts) == parts[0] + Flatten(parts[1..])
  {
    FlattenConcat([parts[0]], parts[1..]);
    assert [parts[0]] + parts[1..] == parts;
    assert [parts[0]][..0] == [] && Flatten([parts[0]]) == parts[0];
  }

  lemma {:induction false} FlattenLast<T>(parts: seq<seq<T>>, last: seq<T>)
    ensures Flatten(parts + [last]) == Flatten(parts) + last
  {
    assert (parts + [last])[..|parts + [last]| - 1] == parts;
  }

  lemma {:induction false} FlattenTwo<T>(a: seq<T>, b: seq<T>, rest: seq<seq<T>>)
    ensures Flatten([a, b] + rest) == a + b + Flatten(rest)
  {
    FlattenConcat([a, b], rest);
    FlattenLast([a], b);
    FlattenLast([], a);
    assert [] + [a] == [a] && [a] + [b] == [a, b];
  }

  /** Halving keeps the calls that remain. */
  lemma {:induction false} HalveSound(s: Setup, t: Task, group: seq<Call>, hi: nat)
    requires s.anchor.number >= 1 && t.Running? && Sound(s, t, group, hi)
    ensures Sound(s, Halve(t), group, hi)
  {
    var calls, rest := t.pending[0], t.pending[1..];
    if |calls| > 1 {
      var left, right := calls[..|calls| / 2], calls[|calls| / 2..];
      FlattenFirst(t.pending);
      FlattenTwo(left, right, rest);
      assert calls == left + right;
      NonemptyParts(t.pending, left, right);
    }
  }

  lemma {:induction false} NonemptyParts(parts: seq<seq<Call>>, left: seq<Call>, right: seq<Call>)
    requires parts != [] && left != [] && right != [] && forall p :: p in parts ==> p != []
    ensures forall p :: p in [left, right] + parts[1..] ==> p != []
  {
    assert forall p :: p in parts[1..] ==> p in parts;
  }

  /** A proven body of the running part is kept while its failed calls are repeated, and then joins the
      finished parts. */
  lemma {:induction false} RepeatSound(s: Setup, t: Task, group: seq<Call>, hi: nat, body: Batch, from: nat)
    requires s.anchor.number >= 1 && t.Running? && Sound(s, t, group, hi)
    requires AllBacked(s.transport, 0, hi, s.anchor, s.multicall, t.pending[0], body) && from <= |body|
    ensures Sound(s, Repeat(t, body, from), group, hi)
  {
    if NextFailed(body, from) == |body| {
      PartDone(s, t, group, hi, body, Repeat(t, body, from));
    }
  }

  lemma {:induction false} PartDone(s: Setup, t: Task, group: seq<Call>, hi: nat, body: Batch, next: Task)
    requires s.anchor.number >= 1 && t.Running? && Sound(s, t, group, hi)
    requires AllBacked(s.transport, 0, hi, s.anchor, s.multicall, t.pending[0], body)
    requires next == if |t.pending| == 1 then Finished(t.done + [body])
                     else Running(t.done + [body], t.pending[1..], Begin(t.pending[1]), None)
    ensures Sound(s, next, group, hi)
  {
    var n, part, rest := |Flatten(t.done)|, t.pending[0], t.pending[1..];
    FlattenFirst(t.pending);
    FlattenLast(t.done, body);
    PrefixGrows(group, n, part, Flatten(rest));
    BackedConcat(s.transport, 0, hi, s.anchor, s.multicall, group[..n], Flatten(t.done), part, body);
    if |t.pending| == 1 {
      assert Flatten(rest) == [] && group[..n + |part|] == group;
    } else {
      assert forall p :: p in rest ==> p in t.pending;
    }
  }

  lemma {:induction false} PrefixGrows(group: seq<Call>, n: nat, part: seq<Call>, rest: seq<Call>)
    requires n <= |group| && group[n..] == part + rest
    ensures n + |part| <= |group| && group[..n + |part|] == group[..n] + part && group[n + |part|..] == rest
  {
    var m := n + |part|;
    assert |group| == n + |part| + |rest|;
    assert group[n..][..|part|] == part && group[n..][|part|..] == rest;
    assert group[n..m] == group[n..][..|part|];
    assert group[..m] == group[..n] + group[n..m];
    assert group[m..] == group[n..][|part|..];
  }

  /** A proven answer to the calls of the attempt. */
  lemma {:induction false} ProvenBacked(s: Setup, calls: seq<Call>, endpoint: Endpoint, k: nat, entries: seq<Entry>)
    requires s.anchor.number >= 1 && Proven(entries, |calls|, s.anchor)
    requires s.transport(k, endpoint, Packed(calls, s.anchor, s.multicall)) == Answered(entries)
    ensures AllBacked(s.transport, 0, k + 1, s.anchor, s.multicall, calls, Body(calls, entries))
  {
    var body := Body(calls, entries);
    forall j | 0 <= j < |calls| ensures Backed(s.transport, 0, k + 1, s.anchor, s.multicall, calls[j], body[j]) {
      assert BackedBy(s.transport, s.anchor, s.multicall, calls[j], body[j], k, endpoint, calls, j);
    }
  }

  lemma {:induction false} AcceptSound(s: Setup, t: Task, group: seq<Call>, endpoint: Endpoint, k: nat,
      entries: seq<Entry>)
    requires s.anchor.number >= 1 && t.Running? && Sound(s, t, group, k)
    requires Proven(entries, |t.attempt.calls|, s.anchor)
    requires s.transport(k, endpoint, Packed(t.attempt.calls, s.anchor, s.multicall)) == Answered(entries)
    ensures Sound(s, Accept(t, entries), group, k + 1)
  {
    var calls := t.attempt.calls;
    var body := Body(calls, entries);
    ProvenBacked(s, calls, endpoint, k, entries);
    SoundLater(s, t, group, k, k + 1);
    if t.repeating.None? {
      RepeatSound(s, t, group, k + 1, body, 0);
    } else {
      var (proven, i) := t.repeating.value;
      ReplaceWithin(s.transport, 0, k + 1, s.anchor, s.multicall, t.pending[0], proven, i, body);
      RepeatSound(s, t, group, k + 1, proven[i := body[0]], i + 1);
    }
  }

  /** The bookkeeping of an attempt does not touch the results. */
  lemma {:induction false} AttemptSound(s: Setup, t: Task, group: seq<Call>, hi: nat, a: Attempt)
    requires s.anchor.number >= 1 && t.Running? && Sound(s, t, group, hi) && a.calls == t.attempt.calls
    ensures Sound(s, t.(attempt := a), group, hi)
  {
  }

  lemma {:induction false} FailSound(s: Setup, t: Task, group: seq<Call>, hi: nat, endpoint: Endpoint, failure: Failure)
    requires s.anchor.number >= 1 && t.Running? && Sound(s, t, group, hi)
    ensures Sound(s, Fail(t, endpoint, failure), group, hi)
  {
    if failure.isLimit {
      HalveSound(s, t, group, hi);
    } else if failure.retryable || failure.failover {
      AttemptSound(s, t, group, hi, Fail(t, endpoint, failure).attempt);
    }
  }

  /** Whatever the answer, a step keeps the task sound. */
  lemma {:induction false} AdvanceSound(s: Setup, t: Task, group: seq<Call>, pick: Option<Endpoint>, k: nat, next: Task,
      used: nat)
    requires s.anchor.number >= 1 && Sound(s, t, group, k) && Advance(s, t, pick, k) == (next, used)
    ensures used <= 1 && Sound(s, next, group, k + used)
  {
    if t.Running? && !next.Raised? {
      var endpoint := Choose(t.attempt, pick).value;
      assert next == React(s, t, endpoint, k) && used == 1;
      AnswerSound(s, t, group, endpoint, k, next);
    }
  }

  lemma {:induction false} AnswerSound(s: Setup, t: Task, group: seq<Call>, endpoint: Endpoint, k: nat, next: Task)
    requires s.anchor.number >= 1 && t.Running? && Sound(s, t, group, k) && next == React(s, t, endpoint, k)
    ensures Sound(s, next, group, k + 1)
  {
    var reply := s.transport(k, endpoint, Packed(t.attempt.calls, s.anchor, s.multicall));
    if reply.Answered? && Proven(reply.entries, |t.attempt.calls|, s.anchor) {
      AcceptSound(s, t, group, endpoint, k, reply.entries);
    } else {
      SoundLater(s, t, group, k, k + 1);
      if reply.Failed? {
        FailSound(s, t, group, k + 1, endpoint, reply.failure);
      } else {
        AttemptSound(s, t, group, k + 1, Refuse(t.attempt, endpoint));
      }
    }
  }

  // ---- schedules -------------------------------------------------------------------------------------

  ghost predicate AllWellFormed(w: World) {
    forall g :: 0 <= g < |w.tasks| ==> WellFormed(w.tasks[g])
  }

  /** Every task is sound for its own group. */
  ghost predicate AllSound(s: Setup, w: World, groups: seq<seq<Call>>)
    requires s.anchor.number >= 1
  {
    |w.tasks| == |groups| && forall g :: 0 <= g < |groups| ==> Sound(s, w.tasks[g], groups[g], w.requests)
  }

  function Apply(s: Setup, w: World, step: Step): World
    requires s.anchor.number >= 1 && AllWellFormed(w)
  {
    if step.task >= |w.tasks| then w else
      var (next, used) := Advance(s, w.tasks[step.task], step.pick, w.requests);
      World(w.requests + used, w.tasks[step.task := next])
  }

  lemma {:induction false} UpdateSound(s: Setup, w: World, groups: seq<seq<Call>>, i: nat, next: Task, used: nat)
    requires s.anchor.number >= 1 && AllSound(s, w, groups) && i < |groups|
    requires Sound(s, next, groups[i], w.requests + used)
    ensures AllSound(s, World(w.requests + used, w.tasks[i := next]), groups)
  {
    forall g | 0 <= g < |groups| && g != i ensures Sound(s, w.tasks[g], groups[g], w.requests + used) {
      SoundLater(s, w.tasks[g], groups[g], w.requests, w.requests + used);
    }
  }

  /** Whichever task sends its next request and whatever comes back, every task stays sound. */
  lemma {:induction false} ApplySound(s: Setup, w: World, groups: seq<seq<Call>>, step: Step)
    requires s.anchor.number >= 1 && AllSound(s, w, groups)
    ensures AllWellFormed(w) && AllSound(s, Apply(s, w, step), groups)
  {
    forall g | 0 <= g < |w.tasks| ensures WellFormed(w.tasks[g]) {
      assert Sound(s, w.tasks[g], groups[g], w.requests);
    }
    if step.task < |w.tasks| {
      var i := step.task;
      var (next, used) := Advance(s, w.tasks[i], step.pick, w.requests);
      TurnSound(s, w, groups, i, step.pick, next, used);
    }
  }

  function InitialTasks(groups: seq<seq<Call>>): (tasks: seq<Task>)
    ensures |tasks| == |groups| && forall g :: 0 <= g < |groups| ==> tasks[g] == Start(groups[g])
  {
    seq(|groups|, g requires 0 <= g < |groups| => Start(groups[g]))
  }

  lemma {:induction false} StartSound(s: Setup, group: seq<Call>)
    requires s.anchor.number >= 1 && group != []
    ensures Sound(s, Start(group), group, 0)
  {
    var t := Start(group);
    assert t.pending[..0] == [] && Flatten(t.pending) == group;
    assert group[..0] == [] && group[0..] == group;
  }

  /** The results of finished tasks, in the order of their groups. */
  function Slots(tasks: seq<Task>): seq<Batch>
    requires forall g :: 0 <= g < |tasks| ==> tasks[g].Finished?
  {
    if tasks == [] then [] else Slots(tasks[..|tasks| - 1]) + tasks[|tasks| - 1].batches
  }

  lemma {:induction false} SlotsBacked(s: Setup, tasks: seq<Task>, groups: seq<seq<Call>>, hi: nat)
    requires s.anchor.number >= 1 && |tasks| == |groups|
    requires forall g :: 0 <= g < |tasks| ==> tasks[g].Finished? && Sound(s, tasks[g], groups[g], hi)
    ensures AllBacked(s.transport, 0, hi, s.anchor, s.multicall, Flatten(groups), Flatten(Slots(tasks)))
  {
    if tasks != [] {
      var n := |tasks| - 1;
      SlotsBacked(s, tasks[..n], groups[..n], hi);
      assert Sound(s, tasks[n], groups[n], hi);
      BackedConcat(s.transport, 0, hi, s.anchor, s.multicall,
                   Flatten(groups[..n]), Flatten(Slots(tasks[..n])), groups[n], Flatten(tasks[n].batches));
      FlattenConcat(Slots(tasks[..n]), tasks[n].batches);
    }
  }

  /** Over every schedule from the start: each task's results are those of its own group, in order and
      backed by proven answers. */
  lemma {:induction false} AllSchedules(s: Setup, w: World, groups: seq<seq<Call>>, steps: seq<Step>)
    requires s.anchor.number >= 1 && AllSound(s, w, groups)
    ensures AllSound(s, Play(s, w, groups, steps), groups)
    decreases |steps|
  {
    if steps != [] {
      ApplySound(s, w, groups, steps[0]);
      AllSchedules(s, Apply(s, w, steps[0]), groups, steps[1..]);
    }
  }

  /** The world after a schedule. */
  function Play(s: Setup, w: World, ghost groups: seq<seq<Call>>, steps: seq<Step>): World
    requires s.anchor.number >= 1 && AllSound(s, w, groups)
    decreases |steps|
  {
    if steps == [] then w else
      ApplySound(s, w, groups, steps[0]);
      Play(s, Apply(s, w, steps[0]), groups, steps[1..])
  }

  // ---- one task alone ------------------------------------------------------------------------------------

  /** The task steps with these picks, one after another, from request `k` on, to `t'` and request `k'`. */
  ghost predicate Walks(s: Setup, t: Task, k: nat, picks: seq<Option<Endpoint>>, t': Task, k': nat)
    requires s.anchor.number >= 1
    decreases |picks|
  {
    if picks == [] then t' == t && k' == k
    else WellFormed(t) && var (next, used) := Advance(s, t, picks[0], k); Walks(s, next, k + used, picks[1..], t', k')
  }

  lemma {:induction false} WalkFirst(s: Setup, t: Task, k: nat, picks: seq<Option<Endpoint>>, next: Task, used: nat,
      t': Task, k': nat)
    requires s.anchor.number >= 1 && picks != [] && WellFormed(t) && Advance(s, t, picks[0], k) == (next, used)
    requires Walks(s, next, k + used, picks[1..], t', k')
    ensures Walks(s, t, k, picks, t', k')
  {
  }

  lemma {:induction false} WalkJoin(s: Setup, t: Task, k: nat, picks: seq<Option<Endpoint>>, mid: Task, m: nat,
      more: seq<Option<Endpoint>>, t': Task, k': nat)
    requires s.anchor.number >= 1 && Walks(s, t, k, picks, mid, m) && Walks(s, mid, m, more, t', k')
    ensures Walks(s, t, k, picks + more, t', k')
    decreases |picks|
  {
    if picks == [] {
      assert picks + more == more;
    } else {
      var (next, used) := Advance(s, t, picks[0], k);
      WalkJoin(s, next, k + used, picks[1..], mid, m, more, t', k');
      var all := picks + more;
      assert all[0] == picks[0] && all[1..] == picks[1..] + more;
      WalkFirst(s, t, k, all, next, used, t', k');
    }
  }

  /** One more step. */
  lemma {:induction false} WalkOn(s: Setup, t: Task, k: nat, picks: seq<Option<Endpoint>>, mid: Task, m: nat,
      pick: Option<Endpoint>)
    requires s.anchor.number >= 1 && Walks(s, t, k, picks, mid, m) && WellFormed(mid)
    ensures var (next, used) := Advance(s, mid, pick, m); Walks(s, t, k, picks + [pick], next, m + used)
  {
    var (next, used) := Advance(s, mid, pick, m);
    assert [pick][1..] == [] && Walks(s, next, m + used, [], next, m + used);
    assert Walks(s, mid, m, [pick], next, m + used);
    WalkJoin(s, t, k, picks, mid, m, [pick], next, m + used);
  }

  ghost function StepsOf(picks: seq<Option<Endpoint>>): (steps: seq<Step>)
    ensures |steps| == |picks| && forall i :: 0 <= i < |picks| ==> steps[i] == Step(0, picks[i])
  {
    seq(|picks|, i requires 0 <= i < |picks| => Step(0, picks[i]))
  }

  /** Such a walk is a schedule of one task. */
  lemma {:induction false} WalkPlays(s: Setup, group: seq<Call>, t: Task, k: nat, picks: seq<Option<Endpoint>>,
      t': Task, k': nat)
    requires s.anchor.number >= 1 && Sound(s, t, group, k) && Walks(s, t, k, picks, t', k')
    ensures AllSound(s, World(k, [t]), [group])
    ensures Play(s, World(k, [t]), [group], StepsOf(picks)) == World(k', [t'])
    decreases |picks|
  {
    var w := World(k, [t]);
    if picks != [] {
      var (next, used) := Advance(s, t, picks[0], k);
      AdvanceSound(s, t, group, picks[0], k, next, used);
      WalkPlays(s, group, next, k + used, picks[1..], t', k');
      ApplySound(s, w, [group], StepsOf(picks)[0]);
      assert [t][0 := next] == [next] && StepsOf(picks)[1..] == StepsOf(picks[1..]);
      assert Apply(s, w, StepsOf(picks)[0]) == World(k + used, [next]);
    }
  }

  // ---- every schedule ends -----------------------------------------------------------------------------

  /** n times c, by addition. */
  function Times(n: nat, c: nat): nat {
    if n == 0 then 0 else c + Times(n - 1, c)
  }

  lemma {:induction false} TimesLess(x: nat, y: nat, c: nat)
    requires x < y
    ensures Times(x, c) + c <= Times(y, c)
  {
    if x < y - 1 {
      TimesLess(x, y - 1, c);
    }
  }

  ghost predicate InBounds(t: Task, a: nat) {
    t.Running? ==> t.attempt.tries <= a && t.attempt.sent <= a
  }

  /** The steps that an attempt can still take: a round of at most `a` requests per try. */
  function AttemptRank(x: Attempt, a: nat): nat
    requires x.tries <= a && x.sent <= a
  {
    Times(a - x.tries, a + 2) + (a - x.sent)
  }

  /** A bound on the steps of one attempt from its beginning. */
  function AttemptCost(a: nat): nat {
    Times(a, a + 2) + a + 1
  }

  /** A bound on the steps of a part of n calls, where an attempt takes c: its own attempt, a repetition
      per call, and its halves. */
  function Cost(n: nat, c: nat): nat
    decreases n, 1
  {
    Times(n + 1, c) + Halves(n, c)
  }

  function Halves(n: nat, c: nat): nat
    decreases n, 0
  {
    if n <= 1 then 0 else Cost(n / 2, c) + Cost(n - n / 2, c)
  }

  function Costs(parts: seq<seq<Call>>, c: nat): nat {
    if parts == [] then 0 else Cost(|parts[0]|, c) + Costs(parts[1..], c)
  }

  /** The calls of the running part that may still be repeated. */
  function Left(t: Task): nat
    requires t.Running? && WellFormed(t)
  {
    if t.repeating.None? then |t.pending[0]| else |t.pending[0]| - t.repeating.value.1 - 1
  }

  function RunningRank(attempt: nat, left: nat, pending: seq<seq<Call>>, c: nat): nat
    requires pending != []
  {
    1 + attempt + Times(left, c) + Halves(|pending[0]|, c) + Costs(pending[1..], c)
  }

  function Rank(t: Task, a: nat): nat
    requires WellFormed(t) && InBounds(t, a)
  {
    if !t.Running? then 0 else RunningRank(AttemptRank(t.attempt, a), Left(t), t.pending, AttemptCost(a))
  }

  lemma {:induction false} BeginRank(calls: seq<Call>, a: nat)
    ensures AttemptRank(Begin(calls), a) + 1 == AttemptCost(a)
  {
  }

  /** Repeating a later call costs one attempt and leaves fewer. */
  lemma {:induction false} FewerLeft(attempt: nat, x: nat, y: nat, pending: seq<seq<Call>>, c: nat)
    requires pending != [] && x < y && c > 0
    ensures RunningRank(c - 1, x, pending, c) < RunningRank(attempt, y, pending, c)
  {
    TimesLess(x, y, c);
  }

  /** Going on to the next part drops the first. */
  lemma {:induction false} NextPart(attempt: nat, left: nat, pending: seq<seq<Call>>, c: nat)
    requires |pending| > 1 && c > 0
    ensures RunningRank(c - 1, |pending[1]|, pending[1..], c) < RunningRank(attempt, left, pending, c)
  {
    assert pending[1..][0] == pending[1];
    assert Times(|pending[1]| + 1, c) == c + Times(|pending[1]|, c);
  }

  lemma {:induction false} CostIs(n: nat, c: nat)
    ensures Cost(n, c) == c + Times(n, c) + Halves(n, c)
  {
    assert Times(n + 1, c) == c + Times(n, c);
  }

  lemma {:induction false} SecondPart(a: seq<Call>, b: seq<Call>, rest: seq<seq<Call>>, c: nat)
    ensures ([a, b] + rest)[0] == a && Costs(([a, b] + rest)[1..], c) == Cost(|b|, c) + Costs(rest, c)
  {
    var next := ([a, b] + rest)[1..];
    assert next[0] == b && next[1..] == rest;
  }

  /** Halving trades the halves of the first part for two parts. */
  lemma {:induction false} HalvesPart(attempt: nat, left: nat, pending: seq<seq<Call>>, a: seq<Call>, b: seq<Call>,
      c: nat)
    requires pending != [] && c > 0 && Halves(|pending[0]|, c) == Cost(|a|, c) + Cost(|b|, c)
    ensures RunningRank(c - 1, |a|, [a, b] + pending[1..], c) < RunningRank(attempt, left, pending, c)
  {
    SecondPart(a, b, pending[1..], c);
    CostIs(|a|, c);
  }

  lemma {:induction false} HalvesAre(n: nat, l: nat, r: nat, c: nat)
    requires n > 1 && l == n / 2 && r == n - n / 2
    ensures Halves(n, c) == Cost(l, c) + Cost(r, c)
  {
  }

  lemma {:induction false} RepeatFormed(t: Task, body: Batch, from: nat, a: nat, next: Task)
    requires t.Running? && WellFormed(t) && InBounds(t, a) && |body| == |t.pending[0]| && from <= |body|
    requires next == Repeat(t, body, from)
    ensures WellFormed(next) && InBounds(next, a)
  {
    if |t.pending| > 1 {
      assert t.pending[1] in t.pending && forall p :: p in t.pending[1..] ==> p in t.pending;
    }
  }

  lemma {:induction false} RepeatRank(t: Task, body: Batch, from: nat, a: nat, next: Task)
    requires t.Running? && WellFormed(t) && InBounds(t, a) && |body| == |t.pending[0]| && from <= |body|
    requires if t.repeating.None? then from == 0 else from == t.repeating.value.1 + 1
    requires next == Repeat(t, body, from)
    ensures WellFormed(next) && InBounds(next, a) && Rank(next, a) < Rank(t, a)
  {
    RepeatFormed(t, body, from, a, next);
    if NextFailed(body, from) < |body| {
      AgainRank(t, body, from, a, next);
    } else if |t.pending| > 1 {
      BeginRank(t.pending[1], a);
      NextPart(AttemptRank(t.attempt, a), Left(t), t.pending, AttemptCost(a));
    }
  }

  lemma {:induction false} AgainRank(t: Task, body: Batch, from: nat, a: nat, next: Task)
    requires t.Running? && WellFormed(t) && InBounds(t, a) && |body| == |t.pending[0]| && from <= |body|
    requires if t.repeating.None? then from == 0 else from == t.repeating.value.1 + 1
    requires NextFailed(body, from) < |body| && next == Repeat(t, body, from)
    requires WellFormed(next) && InBounds(next, a)
    ensures Rank(next, a) < Rank(t, a)
  {
    var i := NextFailed(body, from);
    BeginRank(next.attempt.calls, a);
    assert Left(next) == |body| - i - 1 && Left(next) < Left(t) && next.pending == t.pending;
    FewerLeft(AttemptRank(t.attempt, a), Left(next), Left(t), t.pending, AttemptCost(a));
  }

  lemma {:induction false} HalveRank(t: Task, a: nat, next: Task)
    requires t.Running? && WellFormed(t) && InBounds(t, a) && next == Halve(t)
    ensures WellFormed(next) && InBounds(next, a) && Rank(next, a) < Rank(t, a)
  {
    var calls := t.pending[0];
    var n := |calls| / 2;
    if |calls| > 1 {
      NonemptyParts(t.pending, calls[..n], calls[n..]);
      BeginRank(calls[..n], a);
      HalvesAre(|calls|, |calls[..n]|, |calls[n..]|, AttemptCost(a));
      HalvesPart(AttemptRank(t.attempt, a), Left(t), t.pending, calls[..n], calls[n..], AttemptCost(a));
    }
  }

  lemma {:induction false} RetryRank(t: Task, x: Attempt, a: nat, next: Task)
    requires t.Running? && WellFormed(t) && t.attempt.tries < a && t.attempt.sent < a
    requires (x.tries == t.attempt.tries && x.sent == t.attempt.sent + 1) ||
               (x.tries == t.attempt.tries + 1 && x.sent == 0)
    requires x.calls == t.attempt.calls && next == t.(attempt := x)
    ensures WellFormed(next) && InBounds(next, a) && Rank(next, a) < Rank(t, a)
  {
    if x.sent == 0 {
      TimesLess(a - x.tries, a - t.attempt.tries, a + 2);
    }
  }

  lemma {:induction false} AcceptRank(t: Task, entries: seq<Entry>, a: nat, next: Task)
    requires t.Running? && WellFormed(t) && InBounds(t, a) && |entries| == |t.attempt.calls| + 6
    requires next == Accept(t, entries)
    ensures WellFormed(next) && InBounds(next, a) && Rank(next, a) < Rank(t, a)
  {
    var body := Body(t.attempt.calls, entries);
    if t.repeating.None? {
      RepeatRank(t, body, 0, a, next);
    } else {
      var (proven, i) := t.repeating.value;
      RepeatRank(t, proven[i := body[0]], i + 1, a, next);
    }
  }

  lemma {:induction false} FailRank(t: Task, endpoint: Endpoint, failure: Failure, a: nat, next: Task)
    requires t.Running? && WellFormed(t) && t.attempt.tries < a && t.attempt.sent < a
    requires next == Fail(t, endpoint, failure)
    ensures WellFormed(next) && InBounds(next, a) && Rank(next, a) < Rank(t, a)
  {
    if failure.isLimit {
      HalveRank(t, a, next);
    } else if failure.retryable || failure.failover {
      RetryRank(t, next.attempt, a, next);
    }
  }

  lemma {:induction false} ReactRank(s: Setup, t: Task, endpoint: Endpoint, k: nat, next: Task)
    requires s.anchor.number >= 1 && t.Running? && WellFormed(t)
    requires t.attempt.tries < s.maxRetries && t.attempt.sent < s.maxRetries && next == React(s, t, endpoint, k)
    ensures WellFormed(next) && InBounds(next, s.maxRetries) && Rank(next, s.maxRetries) < Rank(t, s.maxRetries)
  {
    var a := s.maxRetries;
    var reply := s.transport(k, endpoint, Packed(t.attempt.calls, s.anchor, s.multicall));
    if reply.Answered? && Proven(reply.entries, |t.attempt.calls|, s.anchor) {
      AcceptRank(t, reply.entries, a, next);
    } else if reply.Failed? {
      FailRank(t, endpoint, reply.failure, a, next);
    } else {
      RetryRank(t, Refuse(t.attempt, endpoint), a, next);
    }
  }

  /** Each step of a running task lowers its rank, whatever is picked and whatever comes back. */
  lemma {:induction false} AdvanceRank(s: Setup, t: Task, pick: Option<Endpoint>, k: nat, next: Task, used: nat)
    requires s.anchor.number >= 1 && t.Running? && WellFormed(t) && InBounds(t, s.maxRetries)
    requires Advance(s, t, pick, k) == (next, used)
    ensures WellFormed(next) && InBounds(next, s.maxRetries) && Rank(next, s.maxRetries) < Rank(t, s.maxRetries)
  {
    if !next.Raised? {
      ReactRank(s, t, Choose(t.attempt, pick).value, k, next);
    }
  }

  // ---- when every schedule succeeds ------------------------------------------------------------------------

  /** Every request gets a proven answer, unless it is refused as too large with more than one call. */
  ghost predicate Serving(s: Setup)
    requires s.anchor.number >= 1
  {
    forall k: nat, endpoint, calls: seq<Call> :: calls != [] ==>
      Serves(s.transport(k, endpoint, Packed(calls, s.anchor, s.multicall)), calls, s.anchor)
  }

  ghost predicate Serves(reply: Reply, calls: seq<Call>, anchor: Anchor) {
    || (reply.Answered? && Proven(reply.entries, |calls|, anchor))
    || (reply.Failed? && reply.failure.isLimit && |calls| > 1)
  }

  /** Nothing has gone wrong in the task. */
  ghost predicate Pristine(t: Task) {
    !t.Raised? && (t.Running? ==> t.attempt == Begin(t.attempt.calls))
  }

  lemma {:induction false} RepeatPristine(t: Task, body: Batch, from: nat)
    requires t.Running? && t.pending != [] && |body| == |t.pending[0]| && from <= |body|
    ensures Pristine(Repeat(t, body, from))
  {
  }

  lemma {:induction false} AcceptPristine(t: Task, entries: seq<Entry>)
    requires t.Running? && WellFormed(t) && |entries| == |t.attempt.calls| + 6
    ensures Pristine(Accept(t, entries))
  {
    var body := Body(t.attempt.calls, entries);
    match t.repeating
    case None => RepeatPristine(t, body, 0);
    case Some((proven, i)) => RepeatPristine(t, proven[i := body[0]], i + 1);
  }

  /** Where selection yields an endpoint and endpoints serve, nothing goes wrong. */
  lemma {:induction false} AdvancePristine(s: Setup, t: Task, pick: Option<Endpoint>, k: nat)
    requires s.anchor.number >= 1 && s.maxRetries >= 1 && Serving(s) && pick.Some? && WellFormed(t) && Pristine(t)
    ensures Pristine(Advance(s, t, pick, k).0)
  {
    if t.Running? {
      var calls := t.attempt.calls;
      var reply := s.transport(k, pick.value, Packed(calls, s.anchor, s.multicall));
      assert t.pending[0] in t.pending && calls != [];
      assert Serves(reply, calls, s.anchor);
      if reply.Answered? {
        AcceptPristine(t, reply.entries);
      }
    }
  }

  // ---- the whole execution -------------------------------------------------------------------------------

  function Ranks(tasks: seq<Task>, a: nat): nat
    requires forall g :: 0 <= g < |tasks| ==> WellFormed(tasks[g]) && InBounds(tasks[g], a)
  {
    if tasks == [] then 0 else Ranks(tasks[..|tasks| - 1], a) + Rank(tasks[|tasks| - 1], a)
  }

  lemma {:induction false} RanksDrop(tasks: seq<Task>, i: nat, next: Task, a: nat)
    requires forall g :: 0 <= g < |tasks| ==> WellFormed(tasks[g]) && InBounds(tasks[g], a)
    requires i < |tasks| && WellFormed(next) && InBounds(next, a) && Rank(next, a) < Rank(tasks[i], a)
    ensures Ranks(tasks[i := next], a) < Ranks(tasks, a)
  {
    var n := |tasks| - 1;
    var after := tasks[i := next];
    if i < n {
      RanksDrop(tasks[..n], i, next, a);
      assert after[..n] == tasks[..n][i := next];
    } else {
      assert after[..n] == tasks[..n];
    }
  }

  /** The tasks that can still take a step. */
  function Unfinished(tasks: seq<Task>): (ids: seq<nat>)
    ensures forall i :: 0 <= i < |ids| ==> ids[i] < |tasks| && tasks[ids[i]].Running?
    ensures ids == [] ==> forall g :: 0 <= g < |tasks| ==> !tasks[g].Running?
  {
    if tasks == [] then [] else
      var n := |tasks| - 1;
      Unfinished(tasks[..n]) + if tasks[n].Running? then [n] else []
  }

  function FirstRaised(tasks: seq<Task>): (e: Option<ExecError>)
    ensures e.None? <==> forall g :: 0 <= g < |tasks| ==> !tasks[g].Raised?
  {
    if tasks == [] then None
    else if tasks[0].Raised? then Some(tasks[0].error)
    else
      var e := FirstRaised(tasks[1..]);
      assert e.None? ==> forall g :: 1 <= g < |tasks| ==> tasks[g] == tasks[1..][g - 1];
      e
  }

  /** Selection always yields an endpoint, and every request is served. */
  ghost predicate Smooth(s: Setup, schedule: nat -> (nat, Option<Endpoint>))
    requires s.anchor.number >= 1
  {
    s.maxRetries >= 1 && Serving(s) && forall n: nat :: schedule(n).1.Some?
  }

  ghost predicate AllPristine(w: World) {
    forall g :: 0 <= g < |w.tasks| ==> Pristine(w.tasks[g])
  }

  /** All groups concurrently, under any scheduler: at turn n it lets the `schedule(n).0`-th unfinished task
      send its next request, to whatever endpoint selection yields then. The first task that raises ends
      the execution. */
  method RunTasks(s: Setup, groups: seq<seq<Call>>, schedule: nat -> (nat, Option<Endpoint>)) returns (w: World)
    requires s.anchor.number >= 1 && forall g :: g in groups ==> g != []
    ensures AllSound(s, w, groups) && (FirstRaised(w.tasks).None? ==> Unfinished(w.tasks) == [])
    ensures Smooth(s, schedule) ==> AllPristine(w)
  {
    w := World(0, InitialTasks(groups));
    InitialSound(s, groups);
    ghost var smooth := Smooth(s, schedule);
    var turn := 0;
    while Unfinished(w.tasks) != [] && FirstRaised(w.tasks).None?
      invariant AllSound(s, w, groups) && Bounded(s, w)
      invariant smooth ==> AllPristine(w)
      decreases Ranks(w.tasks, s.maxRetries)
    {
      var ids := Unfinished(w.tasks);
      var (choice, pick) := schedule(turn);
      var i := ids[choice % |ids|];
      var (next, used) := Advance(s, w.tasks[i], pick, w.requests);
      TurnTaken(s, w, groups, i, pick, next, used);
      if smooth {
        assert schedule(turn).1.Some?;
        AdvancePristine(s, w.tasks[i], pick, w.requests);
      }
      w := World(w.requests + used, w.tasks[i := next]);
      turn := turn + 1;
    }
  }

  /** The whole execution. It always ends, and a result answers the calls one for one in input order, each
      backed by a proven answer. It succeeds under every schedule in which selection always yields an
      endpoint and every request is served. */
  method Execute(s: Setup, deploymentBlock: nat, batchSize: nat, calls: seq<Call>,
      schedule: nat -> (nat, Option<Endpoint>))
      returns (r: Result<seq<Batch>, ExecError>, requests: nat)
    requires batchSize >= 1
    ensures s.anchor.number < deploymentBlock || s.anchor.number == 0 ==> r == Err(UnsupportedRange)
    ensures r.Ok? ==> s.anchor.number >= 1
                      && AllBacked(s.transport, 0, requests, s.anchor, s.multicall, calls, Flatten(r.value))
    ensures s.anchor.number >= deploymentBlock && s.anchor.number >= 1 && Smooth(s, schedule) ==> r.Ok?
  {
    if s.anchor.number < deploymentBlock || s.anchor.number == 0 {
      return Err(UnsupportedRange), 0;
    }
    var groups := Chunked(calls, batchSize);
    var w := RunTasks(s, groups, schedule);
    var raised := FirstRaised(w.tasks);
    if raised.Some? {
      return Err(raised.value), w.requests;
    }
    SlotsBacked(s, w.tasks, groups, w.requests);
    return Ok(Slots(w.tasks)), w.requests;
  }

  ghost predicate Bounded(s: Setup, w: World) {
    forall g :: 0 <= g < |w.tasks| ==> WellFormed(w.tasks[g]) && InBounds(w.tasks[g], s.maxRetries)
  }

  lemma {:induction false} InitialSound(s: Setup, groups: seq<seq<Call>>)
    requires s.anchor.number >= 1 && forall g :: g in groups ==> g != []
    ensures AllSound(s, World(0, InitialTasks(groups)), groups) && Bounded(s, World(0, InitialTasks(groups)))
  {
    var w := World(0, InitialTasks(groups));
    forall g | 0 <= g < |groups| ensures Sound(s, w.tasks[g], groups[g], 0) && InBounds(w.tasks[g], s.maxRetries) {
      assert groups[g] in groups;
      StartSound(s, groups[g]);
    }
  }

  lemma {:induction false} TurnSound(s: Setup, w: World, groups: seq<seq<Call>>, i: nat, pick: Option<Endpoint>,
      next: Task, used: nat)
    requires s.anchor.number >= 1 && AllSound(s, w, groups) && i < |w.tasks|
    requires Sound(s, w.tasks[i], groups[i], w.requests) && Advance(s, w.tasks[i], pick, w.requests) == (next, used)
    ensures AllSound(s, World(w.requests + used, w.tasks[i := next]), groups)
  {
    AdvanceSound(s, w.tasks[i], groups[i], pick, w.requests, next, used);
    UpdateSound(s, w, groups, i, next, used);
  }

  lemma {:induction false} TurnTaken(s: Setup, w: World, groups: seq<seq<Call>>, i: nat, pick: Option<Endpoint>,
      next: Task, used: nat)
    requires s.anchor.number >= 1 && AllSound(s, w, groups) && Bounded(s, w)
    requires i < |w.tasks| && w.tasks[i].Running? && Advance(s, w.tasks[i], pick, w.requests) == (next, used)
    ensures var after := World(w.requests + used, w.tasks[i := next]);
            && AllSound(s, after, groups) && Bounded(s, after)
            && Ranks(after.tasks, s.maxRetries) < Ranks(w.tasks, s.maxRetries)
  {
    var t, a := w.tasks[i], s.maxRetries;
    assert WellFormed(t) && InBounds(t, a);
    TurnSound(s, w, groups, i, pick, next, used);
    AdvanceRank(s, t, pick, w.requests, next, used);
    RanksDrop(w.tasks, i, next, a);
  }
}
