/** The single-writer guard: processes that share only a heartbeat table, in any interleaving. */
module WriterGuard {

  type Pid = nat

  /** `discover` runs conflict only with each other; every other operation is a census writer. */
  datatype LockClass = Discovery | Census

  function ClassOf(operation: string): LockClass {
    if operation == "discover" then Discovery else Census
  }

  /** Where a guard stands between two accesses to the table.
      `Checked`: the first read saw no fresh writer. `Wrote`: the own beat is written, the second read is due.
      `Losing`: the second read saw a rival. `Holding`: acquired, heartbeat loop alive. `Dead`: the loop gave up.
      `Stopping`: the second read itself failed. `Releasing(n)`: n release writes have failed.
      `Crashed`: the process is gone and takes no further step. */
  datatype Phase = Idle | Checked | Wrote | Losing | Holding | Dead | Stopping | Releasing(failed: nat) | Crashed

  datatype Guard = Guard(lockClass: LockClass, phase: Phase, lastSuccess: nat)

  datatype Beat = Beat(lockClass: LockClass, at: nat)

  /** The heartbeat table keeps the last row of each process; reads see all earlier writes. */
  datatype World = World(now: nat, table: map<Pid, Beat>, guards: map<Pid, Guard>)

  const RELEASE_ATTEMPTS: nat := 5

  /** What becomes of a write: stored and acknowledged, stored but reported failed, or lost. */
  datatype Write = Done | LostReply | LostRequest

  datatype Step =
    | Tick(seconds: nat)
    | FirstRead(p: Pid)
    | WriteBeat(p: Pid, at: nat, write: Write)
    | SecondRead(p: Pid, ok: bool)
    | GiveUp(p: Pid, write: Write)
    | Heartbeat(p: Pid, at: nat, write: Write)
    | Stop(p: Pid)
    | ReleaseWrite(p: Pid, write: Write)
    | Crash(p: Pid)

  predicate Fresh(w: World, stale: nat, q: Pid, c: LockClass) {
    q in w.table && w.table[q].lockClass == c && w.table[q].at + stale >= w.now
  }

  /** Another process of the class has a fresh row. */
  predicate Contested(w: World, stale: nat, p: Pid, c: LockClass) {
    exists q :: q in w.table && q != p && Fresh(w, stale, q, c)
  }

  function Put(w: World, p: Pid, at: nat, write: Write): map<Pid, Beat>
    requires p in w.guards
  {
    if write.LostRequest? then w.table else w.table[p := Beat(w.guards[p].lockClass, at)]
  }

  function Move(w: World, p: Pid, phase: Phase): World
    requires p in w.guards
  {
    w.(guards := w.guards[p := w.guards[p].(phase := phase)])
  }

  /** One step; a step that is not enabled changes nothing. A beat is stamped no later than it is stored. */
  function Apply(w: World, stale: nat, step: Step): World {
    match step
    case Tick(seconds) => w.(now := w.now + seconds)
    case FirstRead(p) =>
      if p in w.guards && w.guards[p].phase.Idle? then
        var c := w.guards[p].lockClass;
        if Contested(w, stale, p, c) || Fresh(w, stale, p, c) then w else Move(w, p, Checked)
      else w
    case WriteBeat(p, at, write) =>
      if p in w.guards && w.guards[p].phase.Checked? && at <= w.now then
        Move(w, p, if write.Done? then Wrote else Idle).(table := Put(w, p, at, write))
      else w
    case SecondRead(p, ok) =>
      if p in w.guards && w.guards[p].phase.Wrote? then
        if !ok then Move(w, p, Stopping)
        else if Contested(w, stale, p, w.guards[p].lockClass) then Move(w, p, Losing)
        else w.(guards := w.guards[p := w.guards[p].(phase := Holding, lastSuccess := w.now)])
      else w
    case GiveUp(p, write) =>
      if p in w.guards && w.guards[p].phase.Losing? then
        Move(w, p, Idle).(table := Put(w, p, 0, write))
      else w
    case Heartbeat(p, at, write) =>
      if p in w.guards && w.guards[p].phase.Holding? && at <= w.now then
        var beaten := w.(table := Put(w, p, at, write));
        if write.Done? then beaten.(guards := w.guards[p := w.guards[p].(lastSuccess := w.now)])
        else if w.now - w.guards[p].lastSuccess >= stale then Move(beaten, p, Dead)
        else beaten
      else w
    case Stop(p) =>
      if p in w.guards && (w.guards[p].phase.Holding? || w.guards[p].phase.Dead? || w.guards[p].phase.Stopping?) then
        Move(w, p, Releasing(0))
      else w
    case ReleaseWrite(p, write) =>
      if p in w.guards && w.guards[p].phase.Releasing? then
        var failed := w.guards[p].phase.failed;
        var next := if write.Done? || failed + 1 >= RELEASE_ATTEMPTS then Idle else Releasing(failed + 1);
        Move(w, p, next).(table := Put(w, p, 0, write))
      else w
    case Crash(p) =>
      if p in w.guards then Move(w, p, Crashed) else w
  }

  predicate Holds(w: World, p: Pid) {
    p in w.guards && w.guards[p].phase.Holding?
  }

  predicate Initial(w: World) {
    w.table == map[] && forall p :: p in w.guards ==> w.guards[p].phase.Idle?
  }

  ghost predicate Exclusive(w: World) {
    forall p, q :: Holds(w, p) && Holds(w, q) && w.guards[p].lockClass == w.guards[q].lockClass ==> p == q
  }

  /** No holder's stored beat is older than the staleness window. */
  ghost predicate HoldersFresh(w: World, stale: nat) {
    forall p :: Holds(w, p) && p in w.table ==> w.table[p].at + stale >= w.now
  }

  // ---- runs: what holds before the first step and after each one ------------------------------

  ghost predicate AlwaysExclusive(w: World, stale: nat, steps: seq<Step>)
    decreases |steps|
  {
    Exclusive(w) && (steps != [] ==> AlwaysExclusive(Apply(w, stale, steps[0]), stale, steps[1..]))
  }

  ghost predicate AlwaysFresh(w: World, stale: nat, steps: seq<Step>)
    decreases |steps|
  {
    HoldersFresh(w, stale) && (steps != [] ==> AlwaysFresh(Apply(w, stale, steps[0]), stale, steps[1..]))
  }

  /** The stored beat of the process is older than the staleness window. */
  predicate Expired(w: World, stale: nat, q: Pid) {
    q in w.table && w.table[q].at + stale < w.now
  }

  /** A second read is due while a holder of its class has an expired beat and no other process of the
      class has a fresh one. */
  ghost predicate StaleAdmission(w: World, stale: nat, step: Step) {
    && step.SecondRead? && step.ok && step.p in w.guards && w.guards[step.p].phase.Wrote?
    && (exists q :: Holds(w, q) && w.guards[q].lockClass == w.guards[step.p].lockClass && Expired(w, stale, q))
    && forall q :: q in w.table && q != step.p && w.table[q].lockClass == w.guards[step.p].lockClass ==>
         Expired(w, stale, q)
  }

  ghost predicate SomeStaleAdmission(w: World, stale: nat, steps: seq<Step>)
    decreases |steps|
  {
    steps != [] &&
    (StaleAdmission(w, stale, steps[0]) || SomeStaleAdmission(Apply(w, stale, steps[0]), stale, steps[1..]))
  }

  /** A holder's row is in the table, and every row carries the class of its process. */
  ghost predicate RowsMatch(w: World) {
    && (forall p :: p in w.table ==> p in w.guards && w.table[p].lockClass == w.guards[p].lockClass)
    && (forall p :: p in w.guards && (w.guards[p].phase.Wrote? || w.guards[p].phase.Holding?) ==> p in w.table)
  }

  lemma {:induction false} RowsMatchStep(w: World, stale: nat, step: Step)
    requires RowsMatch(w)
    ensures RowsMatch(Apply(w, stale, step))
  {
  }

  /** The exact failure of one step: from an exclusive state, a step puts two writers of a class in
      possession if and only if it is a stale admission. */
  lemma {:induction false} StepBreaksIff(w: World, stale: nat, step: Step)
    requires RowsMatch(w) && Exclusive(w)
    ensures !Exclusive(Apply(w, stale, step)) <==> StaleAdmission(w, stale, step)
  {
    if StaleAdmission(w, stale, step) {
      AdmissionOverlaps(w, stale, step);
    } else {
      OthersKeepExclusive(w, stale, step);
    }
  }

  lemma {:induction false} AdmissionOverlaps(w: World, stale: nat, step: Step)
    requires StaleAdmission(w, stale, step)
    ensures !Exclusive(Apply(w, stale, step))
  {
    var q :| Holds(w, q) && w.guards[q].lockClass == w.guards[step.p].lockClass;
    var next := Apply(w, stale, step);
    assert Holds(next, q) && Holds(next, step.p);
  }

  lemma {:induction false} OthersKeepExclusive(w: World, stale: nat, step: Step)
    requires RowsMatch(w) && Exclusive(w) && !StaleAdmission(w, stale, step)
    ensures Exclusive(Apply(w, stale, step))
  {
    var next := Apply(w, stale, step);
    forall p, q | Holds(next, p) && Holds(next, q) && next.guards[p].lockClass == next.guards[q].lockClass
      ensures p == q
    {
      if !Holds(w, p) {
        NewHolderAlone(w, stale, step, p, q);
      } else if !Holds(w, q) {
        NewHolderAlone(w, stale, step, q, p);
      }
    }
  }

  /** A writer that becomes a holder without a stale admission has no rival of its class. */
  lemma {:induction false} NewHolderAlone(w: World, stale: nat, step: Step, p: Pid, q: Pid)
    requires RowsMatch(w) && !StaleAdmission(w, stale, step) && !Holds(w, p)
    requires var next := Apply(w, stale, step);
             Holds(next, p) && Holds(next, q) && next.guards[p].lockClass == next.guards[q].lockClass
    ensures p == q
  {
    assert step == SecondRead(p, true) && !Contested(w, stale, p, w.guards[p].lockClass);
    if p != q {
      assert Holds(w, q) && q in w.table;
      assert !Fresh(w, stale, q, w.guards[p].lockClass);
      assert Expired(w, stale, q);
      forall r | r in w.table && r != p && w.table[r].lockClass == w.guards[p].lockClass ensures Expired(w, stale, r) {
        assert !Fresh(w, stale, r, w.guards[p].lockClass);
      }
      assert false;
    }
  }

  /** The exact failure of a run: writers of one class overlap somewhere in it if and only if one of
      its steps is a stale admission. */
  lemma {:induction false} RunBreaksIff(w: World, stale: nat, steps: seq<Step>)
    requires RowsMatch(w) && Exclusive(w)
    ensures AlwaysExclusive(w, stale, steps) <==> !SomeStaleAdmission(w, stale, steps)
    decreases |steps|
  {
    if steps != [] {
      StepBreaksIff(w, stale, steps[0]);
      RowsMatchStep(w, stale, steps[0]);
      if Exclusive(Apply(w, stale, steps[0])) {
        RunBreaksIff(Apply(w, stale, steps[0]), stale, steps[1..]);
      }
    }
  }

  /** The exact state in which the lock can be overtaken: an idle writer that acquires undisturbed ends
      up beside another holder if and only if a holder of its class exists and no row of the class is
      fresh. */
  lemma {:induction false} AcquireBreaksIff(w: World, stale: nat, p: Pid)
    requires RowsMatch(w) && Exclusive(w) && p in w.guards && w.guards[p].phase.Idle?
    ensures var c := w.guards[p].lockClass;
            !Exclusive(Acquire(w, stale, p)) <==>
              && (exists q :: Holds(w, q) && w.guards[q].lockClass == c)
              && forall q :: q in w.table ==> !Fresh(w, stale, q, c)
  {
    var c, next := w.guards[p].lockClass, Acquire(w, stale, p);
    if forall q :: q in w.table ==> !Fresh(w, stale, q, c) {
      LoneWriterAcquires(w, stale, p);
      if q :| Holds(w, q) && w.guards[q].lockClass == c {
        assert Holds(next, q) && Holds(next, p);
      }
    } else {
      BlockedUnchanged(w, stale, p);
    }
  }

  /** Where a row of the class is fresh, the first read turns the writer away. */
  lemma {:induction false} BlockedUnchanged(w: World, stale: nat, p: Pid)
    requires p in w.guards && w.guards[p].phase.Idle?
    requires exists q :: q in w.table && Fresh(w, stale, q, w.guards[p].lockClass)
    ensures Acquire(w, stale, p) == w
  {
    var q :| q in w.table && Fresh(w, stale, q, w.guards[p].lockClass);
    assert Contested(w, stale, p, w.guards[p].lockClass) || Fresh(w, stale, p, w.guards[p].lockClass);
  }

  /** A fresh holder is seen by every second read of its class. */
  lemma {:induction false} FreshHoldersAdmitNobody(w: World, stale: nat, step: Step)
    requires RowsMatch(w) && HoldersFresh(w, stale)
    ensures !StaleAdmission(w, stale, step)
  {
  }

  /** Mutual exclusion: in every interleaving of any number of writers, with writes lost, processes
      crashing and releases failing anywhere, two guards of one class never hold the lock together as
      long as no holder's beat ages past the window. */
  lemma {:induction false} MutualExclusion(w: World, stale: nat, steps: seq<Step>)
    requires RowsMatch(w) && Exclusive(w)
    requires AlwaysFresh(w, stale, steps)
    ensures AlwaysExclusive(w, stale, steps)
    decreases |steps|
  {
    if steps != [] {
      FreshHoldersAdmitNobody(w, stale, steps[0]);
      StepBreaksIff(w, stale, steps[0]);
      RowsMatchStep(w, stale, steps[0]);
      MutualExclusion(Apply(w, stale, steps[0]), stale, steps[1..]);
    }
  }

  /** Exclusion over every run of any number of writers from an empty heartbeat table. */
  lemma {:induction false} ExclusionFromStart(w: World, stale: nat, steps: seq<Step>)
    requires Initial(w) && AlwaysFresh(w, stale, steps)
    ensures AlwaysExclusive(w, stale, steps)
  {
    MutualExclusion(w, stale, steps);
  }

  /** A writer that is alone in its class does acquire: three accesses, with nobody fresh around. */
  lemma {:induction false} LoneWriterAcquires(w: World, stale: nat, p: Pid)
    requires p in w.guards && w.guards[p].phase.Idle?
    requires forall q :: q in w.table ==> !Fresh(w, stale, q, w.guards[p].lockClass)
    ensures Acquire(w, stale, p) ==
            World(w.now, w.table[p := Beat(w.guards[p].lockClass, w.now)],
                  w.guards[p := Guard(w.guards[p].lockClass, Holding, w.now)])
  {
  }

  /** The three accesses of `acquire`, all successful and undisturbed. */
  function Acquire(w: World, stale: nat, p: Pid): World {
    Apply(Apply(Apply(w, stale, FirstRead(p)), stale, WriteBeat(p, w.now, Done)), stale, SecondRead(p, true))
  }

  /** A stored release leaves the process with no fresh row, so it cannot lock its successor out. */
  lemma {:induction false} ReleasedIsStale(w: World, stale: nat, p: Pid, step: Step)
    requires p in w.guards && w.now > stale
    requires (step == GiveUp(p, Done) && w.guards[p].phase.Losing?) ||
               (step == ReleaseWrite(p, Done) && w.guards[p].phase.Releasing?)
    ensures forall c :: !Fresh(Apply(w, stale, step), stale, p, c)
    ensures Apply(w, stale, step).guards[p].phase.Idle?
  {
  }

  /** Why freshness is an assumption: the heartbeat loop looks at the age of its last beat only when
      a write fails. Process 0 holds, a heartbeat inside the window is lost without killing the loop,
      the beat goes stale, and process 1 acquires while 0 still holds. */
  lemma {:induction false} OvertakenHolder(stale: nat)
    requires stale >= 1
    ensures var start := World(stale + 1, map[], map[0 := Guard(Census, Idle, 0), 1 := Guard(Census, Idle, 0)]);
            var held := Acquire(start, stale, 0);
            var beaten := Apply(Apply(held, stale, Tick(stale - 1)), stale, Heartbeat(0, 2 * stale, LostRequest));
            var late := Apply(beaten, stale, Tick(2));
            Initial(start) && !Exclusive(Acquire(late, stale, 1))
  {
    var start := World(stale + 1, map[], map[0 := Guard(Census, Idle, 0), 1 := Guard(Census, Idle, 0)]);
    LoneWriterAcquires(start, stale, 0);
    var held := Acquire(start, stale, 0);
    var beaten := Apply(Apply(held, stale, Tick(stale - 1)), stale, Heartbeat(0, 2 * stale, LostRequest));
    var late := Apply(beaten, stale, Tick(2));
    assert late == held.(now := 2 * stale + 2);
    LoneWriterAcquires(late, stale, 1);
    assert Holds(Acquire(late, stale, 1), 0) && Holds(Acquire(late, stale, 1), 1);
  }

  /** The two lock classes do not exclude each other: `discover` and any other operation. */
  lemma {:induction false} ClassesCoexist(stale: nat, operation: string)
    requires operation != "discover"
    ensures var start := World(stale, map[],
              map[0 := Guard(ClassOf(operation), Idle, 0), 1 := Guard(ClassOf("discover"), Idle, 0)]);
            var both := Acquire(Acquire(start, stale, 0), stale, 1);
            Holds(both, 0) && Holds(both, 1)
  {
    var start := World(stale, map[], map[0 := Guard(Census, Idle, 0), 1 := Guard(Discovery, Idle, 0)]);
    LoneWriterAcquires(start, stale, 0);
    LoneWriterAcquires(Acquire(start, stale, 0), stale, 1);
  }
}
