/** Attempts that interleave at every store call. */
module CensusRuns {
  import opened Wrappers
  import opened Calls
  import opened Census
  import Digests
  import PublishedRows

  /** Where an attempt stands between two store calls: its started row due; with inserts to make; reading
      back its rows, its error count or its universe, first fast and then for `sure`; its verified row,
      its publication or its failed row due; returned; or stopped. `clean` says that no check has failed. */
  datatype Phase =
    | Waiting
    | Inserting(members: seq<Member>, groups: seq<seq<Row>>, errors: seq<nat>)
    | ReadingRows(sure: bool)
    | Counting(readback: nat, sure: bool)
    | ReadingMembers(clean: bool, sure: bool)
    | Verifying
    | Publishing
    | Raised
    | Returned
    | Stopped

  /** An attempt with its part of the tables; every row names its attempt. */
  datatype Run = Run(q: Request, tables: Tables, phase: Phase)

  /** The shared journal of attempt states and publications, and any number of attempts. */
  datatype World = World(journal: seq<Entry>, runs: seq<Run>)

  /** What all attempts share: the digests, whether inserts ever store more than they are given, and the
      bound of the sum column. */
  datatype Setup = Setup(digests: Digesters, lean: bool, limit: nat)

  // ---- one store call ----------------------------------------------------------------------------------

  /** An insert may lose rows or alter them, acknowledged or not. */
  ghost predicate Stored<T>(s: Setup, before: seq<T>, more: seq<T>, after: seq<T>) {
    before <= after && (s.lean ==> |after| <= |before| + |more|)
  }

  /** A fast read sees some of the rows; a consistent one sees all. */
  ghost predicate Saw<T>(part: seq<T>, rows: seq<T>, sure: bool) {
    Sub(part, rows) && (sure ==> part == rows)
  }

  /** All checks are in: on to the verified row, or not. */
  function Decide(s: Setup, c: Collected, clean: bool): Phase {
    if clean && CollectorVerified(c) && SumFits(c, s.limit) then Verifying else Raised
  }

  /** The inserts of an attempt: its rows in any groups that keep their order. */
  ghost predicate Begins(c: Collected, p: Phase) {
    && p.Inserting? && Flatten(p.groups) == AllRows(c) && p.errors == c.errors
    && p.members == if IsToken(c) then c.members else []
  }

  /** The next insert: the universe, then the rows, then the errors. */
  ghost predicate Inserts(s: Setup, p: Phase, t: Tables, t': Tables, p': Phase, ok: bool)
    requires p.Inserting?
  {
    if p.members != [] then
      && Stored(s, t.members, p.members, t'.members) && t'.rows == t.rows && t'.errors == t.errors
      && p' == if ok then Inserting([], p.groups, p.errors) else Raised
    else if p.groups != [] then
      && Stored(s, t.rows, p.groups[0], t'.rows) && t'.members == t.members && t'.errors == t.errors
      && p' == if ok then Inserting([], p.groups[1..], p.errors) else Raised
    else if p.errors != [] then
      && t.errors <= t'.errors && t'.rows == t.rows && t'.members == t.members
      && p' == if ok then ReadingRows(false) else Raised
    else t' == t && p' == ReadingRows(false)
  }

  /** A read of the rows and what follows from its digest. */
  ghost predicate ReadsRows(s: Setup, c: Collected, rows: seq<Row>, sure: bool, p': Phase) {
    exists part :: Saw(part, rows, sure) && AfterRows(s, c, DigestRows(s.digests, c.target, part), sure, p')
  }

  ghost predicate AfterRows(s: Setup, c: Collected, r: Option<nat>, sure: bool, p': Phase) {
    p' == if r.None? || RowsDigest(s.digests, c).None? then Raised
          else if r != RowsDigest(s.digests, c) && !sure then ReadingRows(true)
          else Counting(r.value, false)
  }

  ghost predicate Counts(s: Setup, c: Collected, errors: seq<nat>, readback: nat, sure: bool, p': Phase) {
    exists part :: Saw(part, errors, sure) && AfterCount(s, c, |part|, readback, sure, p')
  }

  ghost predicate AfterCount(s: Setup, c: Collected, count: nat, readback: nat, sure: bool, p': Phase) {
    var clean := count == 0 && AllTrue(c.batches) && AllTrue(c.checks) && Some(readback) == RowsDigest(s.digests, c);
    p' == if count != |c.errors| && !sure then Counting(readback, true)
          else if IsToken(c) then ReadingMembers(clean, false)
          else Decide(s, c, clean)
  }

  ghost predicate ReadsMembers(s: Setup, c: Collected, members: seq<Member>, clean: bool, sure: bool, p': Phase) {
    exists part :: Saw(part, members, sure) && AfterMembers(s, c, DigestMembers(s.digests, part), clean, sure, p')
  }

  ghost predicate AfterMembers(s: Setup, c: Collected, r: Option<nat>, clean: bool, sure: bool, p': Phase) {
    p' == if r.None? then Raised
          else if r != MembersDigest(s.digests, c) && !sure then ReadingMembers(clean, true)
          else Decide(s, c, clean && r == MembersDigest(s.digests, c))
  }

  /** The entry that the phase has due in the journal. */
  function Due(s: Setup, r: Run): Option<Entry> {
    match r.phase
    case Waiting => Some(State(r.q.attempt, Started))
    case Verifying => Some(State(r.q.attempt, Verified))
    case Publishing => Some(Published(r.q.attempt, DigestOf(s.digests, r.q.collected)))
    case Raised => Some(State(r.q.attempt, Failed))
    case _ => None
  }

  /** One store call of an attempt, meeting this fault, with what the attempt does next. */
  ghost predicate Moves(s: Setup, r: Run, r': Run, journal: seq<Entry>, journal': seq<Entry>, fault: Fault) {
    && r'.q == r.q
    && (if Due(s, r).Some? then journal' == Put(journal, Written(fault), Due(s, r).value) else journal' == journal)
    && (!r.phase.Inserting? ==> r'.tables == r.tables)
    && var ok := Acknowledged(fault);
       match r.phase
       case Waiting =>
         if !ok then r'.phase == Stopped
         else if r.q.codeVerified && r.q.collected.Some? then Begins(r.q.collected.value, r'.phase)
         else r'.phase == Raised
       case Inserting(_, _, _) => Inserts(s, r.phase, r.tables, r'.tables, r'.phase, ok)
       case ReadingRows(sure) =>
         r.q.collected.Some? &&
         if ok then ReadsRows(s, r.q.collected.value, r.tables.rows, sure, r'.phase) else r'.phase == Raised
       case Counting(readback, sure) =>
         r.q.collected.Some? &&
         if ok then Counts(s, r.q.collected.value, r.tables.errors, readback, sure, r'.phase) else r'.phase == Raised
       case ReadingMembers(clean, sure) =>
         r.q.collected.Some? &&
         if ok then ReadsMembers(s, r.q.collected.value, r.tables.members, clean, sure, r'.phase)
         else r'.phase == Raised
       case Verifying => r'.phase == if ok then Publishing else Raised
       case Publishing => r'.phase == if ok then Returned else Raised
       case Raised => r'.phase == Stopped
       case Returned => r' == r
       case Stopped => r' == r
  }

  ghost predicate NextAt(s: Setup, w: World, w': World, i: nat, fault: Fault)
    requires i < |w.runs|
  {
    && |w'.runs| == |w.runs| && Moves(s, w.runs[i], w'.runs[i], w.journal, w'.journal, fault)
    && forall j :: 0 <= j < |w.runs| && j != i ==> w'.runs[j] == w.runs[j]
  }

  /** Any one attempt makes its next store call. */
  ghost predicate Next(s: Setup, w: World, w': World) {
    exists i: nat, fault :: i < |w.runs| && NextAt(s, w, w', i, fault)
  }

  // ---- what an attempt knows -----------------------------------------------------------------------------

  /** Everything is stored, no more than was collected, and no errors unless there were some. */
  ghost predicate AllStored(s: Setup, q: Request, t: Tables) {
    && q.codeVerified && q.collected.Some? && Bounded(s.lean, t, q.collected.value)
    && (q.collected.value.errors == [] ==> t.errors == [])
  }

  ghost predicate StillStoring(s: Setup, q: Request, t: Tables, p: Phase)
    requires p.Inserting?
  {
    && q.codeVerified && q.collected.Some?
    && var c := q.collected.value;
       && (s.lean ==> |t.rows| + |Flatten(p.groups)| <= |AllRows(c)| && |t.members| + |p.members| <= |c.members|)
       && (c.errors == [] ==> t.errors == [] && p.errors == [])
  }

  ghost predicate RowsRead(s: Setup, q: Request, t: Tables, readback: Option<nat>) {
    AllStored(s, q, t) && Snapshot(RowDigester(s.digests, q.collected.value.target), t.rows, readback)
  }

  ghost predicate CleanSoFar(s: Setup, q: Request, t: Tables) {
    && q.collected.Some? && RowsRead(s, q, t, RowsDigest(s.digests, q.collected.value))
    && AllTrue(q.collected.value.batches) && AllTrue(q.collected.value.checks)
  }

  ghost predicate Attests(s: Setup, q: Request, t: Tables) {
    Backed(s.digests, s.lean, t, q, s.limit)
  }

  ghost predicate Knows(s: Setup, r: Run, journal: seq<Entry>) {
    var a, t := r.q.attempt, r.tables;
    match r.phase
    case Waiting => Fresh(journal, a) && t == Tables([], [], [])
    case Inserting(_, _, _) => Publications(journal, a) == 0 && StillStoring(s, r.q, t, r.phase)
    case ReadingRows(_) => Publications(journal, a) == 0 && AllStored(s, r.q, t)
    case Counting(readback, _) => Publications(journal, a) == 0 && RowsRead(s, r.q, t, Some(readback))
    case ReadingMembers(clean, _) =>
      Publications(journal, a) == 0 && AllStored(s, r.q, t) && (clean ==> CleanSoFar(s, r.q, t))
    case Verifying => Publications(journal, a) == 0 && Attests(s, r.q, t)
    case Publishing =>
      && Publications(journal, a) == 0 && Attests(s, r.q, t) && Current(journal, a) == Some(Verified)
    case Returned => Publications(journal, a) == 1 && Attests(s, r.q, t) && Current(journal, a) == Some(Verified)
    case _ => Publications(journal, a) <= 1 && (Publications(journal, a) == 1 ==> Attests(s, r.q, t))
  }

  ghost predicate AllKnow(s: Setup, w: World) {
    && Gated(w.journal) && (forall i, j :: 0 <= i < j < |w.runs| ==> w.runs[i].q.attempt != w.runs[j].q.attempt)
    && forall i :: 0 <= i < |w.runs| ==> Knows(s, w.runs[i], w.journal)
  }

  // ---- what the tables gain ------------------------------------------------------------------------------

  lemma {:induction false} FlattenFirst<T>(groups: seq<seq<T>>)
    requires groups != []
    ensures |Flatten(groups)| == |groups[0]| + |Flatten(groups[1..])|
  {
    assert groups == [groups[0]] + groups[1..];
    FlattenConcat([groups[0]], groups[1..]);
    assert [groups[0]][..0] == [] && Flatten([groups[0]]) == groups[0];
  }

  lemma {:induction false} InsertKnows(s: Setup, r: Run, r': Run, journal: seq<Entry>, fault: Fault)
    requires r.phase.Inserting? && Moves(s, r, r', journal, journal, fault) && Knows(s, r, journal)
    ensures Knows(s, r', journal)
  {
    if r.phase.members == [] && r.phase.groups != [] {
      FlattenFirst(r.phase.groups);
    }
  }

  lemma {:induction false} BeginKnows(s: Setup, r: Run, r': Run, journal: seq<Entry>, journal': seq<Entry>,
      fault: Fault)
    requires r.phase.Waiting? && Moves(s, r, r', journal, journal', fault) && Knows(s, r, journal)
    ensures Knows(s, r', journal')
  {
    FreshSeesNothing(journal, r.q.attempt);
    Appended(journal, journal', Written(fault), State(r.q.attempt, Started), r.q.attempt);
  }

  // ---- what the reads establish --------------------------------------------------------------------------

  lemma {:induction false} RowsReadKnows(s: Setup, r: Run, r': Run, journal: seq<Entry>, fault: Fault)
    requires r.phase.ReadingRows? && Moves(s, r, r', journal, journal, fault) && Knows(s, r, journal)
    ensures Knows(s, r', journal)
  {
    var c := r.q.collected.value;
    if Acknowledged(fault) {
      var part :| Saw(part, r.tables.rows, r.phase.sure) &&
          AfterRows(s, c, DigestRows(s.digests, c.target, part), r.phase.sure, r'.phase);
      if r'.phase.Counting? {
        assert RowDigester(s.digests, c.target)(part) == Some(r'.phase.readback);
      }
    }
  }

  /** With everything clean the tables attest the result. */
  lemma {:induction false} DecideKnows(s: Setup, q: Request, t: Tables, clean: bool, p: Phase)
    requires AllStored(s, q, t) && p == Decide(s, q.collected.value, clean)
    requires clean ==> CleanSoFar(s, q, t)
    requires clean && IsToken(q.collected.value) ==>
               Snapshot(s.digests.members, t.members, MembersDigest(s.digests, q.collected.value))
    ensures p == Raised || (p == Verifying && Attests(s, q, t))
  {
  }

  lemma {:induction false} CountKnows(s: Setup, r: Run, r': Run, journal: seq<Entry>, fault: Fault)
    requires r.phase.Counting? && Moves(s, r, r', journal, journal, fault) && Knows(s, r, journal)
    ensures Knows(s, r', journal)
  {
    var c := r.q.collected.value;
    if Acknowledged(fault) {
      var part :| Saw(part, r.tables.errors, r.phase.sure) &&
          AfterCount(s, c, |part|, r.phase.readback, r.phase.sure, r'.phase);
      var clean := |part| == 0 && AllTrue(c.batches) && AllTrue(c.checks) &&
          Some(r.phase.readback) == RowsDigest(s.digests, c);
      if !r'.phase.Counting? && !IsToken(c) {
        DecideKnows(s, r.q, r.tables, clean, r'.phase);
      }
    }
  }

  lemma {:induction false} MembersReadKnows(s: Setup, r: Run, r': Run, journal: seq<Entry>, fault: Fault)
    requires r.phase.ReadingMembers? && Moves(s, r, r', journal, journal, fault) && Knows(s, r, journal)
    ensures Knows(s, r', journal)
  {
    var c := r.q.collected.value;
    if Acknowledged(fault) {
      var part :| Saw(part, r.tables.members, r.phase.sure) &&
          AfterMembers(s, c, DigestMembers(s.digests, part), r.phase.clean, r.phase.sure, r'.phase);
      var read := DigestMembers(s.digests, part);
      if read.Some? && !r'.phase.ReadingMembers? {
        assert s.digests.members(part) == read;
        DecideKnows(s, r.q, r.tables, r.phase.clean && read == MembersDigest(s.digests, c), r'.phase);
      }
    }
  }

  // ---- what the journal gains ----------------------------------------------------------------------------

  lemma {:induction false} JournalKnows(s: Setup, r: Run, r': Run, journal: seq<Entry>, journal': seq<Entry>,
      fault: Fault)
    requires r.phase.Verifying? || r.phase.Publishing? || r.phase.Raised?
    requires Moves(s, r, r', journal, journal', fault) && Knows(s, r, journal)
    ensures Knows(s, r', journal')
  {
    Appended(journal, journal', Written(fault), Due(s, r).value, r.q.attempt);
  }

  lemma {:induction false} MoveKnows(s: Setup, r: Run, r': Run, journal: seq<Entry>, journal': seq<Entry>, fault: Fault)
    requires Moves(s, r, r', journal, journal', fault) && Knows(s, r, journal)
    ensures Knows(s, r', journal')
  {
    match r.phase
    case Waiting => BeginKnows(s, r, r', journal, journal', fault);
    case Inserting(_, _, _) => InsertKnows(s, r, r', journal, fault);
    case ReadingRows(_) => RowsReadKnows(s, r, r', journal, fault);
    case Counting(_, _) => CountKnows(s, r, r', journal, fault);
    case ReadingMembers(_, _) => MembersReadKnows(s, r, r', journal, fault);
    case Returned =>
    case Stopped =>
    case _ => JournalKnows(s, r, r', journal, journal', fault);
  }

  /** What an attempt knows survives an entry of another. */
  lemma {:induction false} OthersKnow(s: Setup, r: Run, journal: seq<Entry>, journal': seq<Entry>, written: bool,
      e: Entry)
    requires Knows(s, r, journal) && journal' == Put(journal, written, e) && e.attempt != r.q.attempt
    ensures Knows(s, r, journal')
  {
    Appended(journal, journal', written, e, r.q.attempt);
  }

  lemma {:induction false} NonePublished(journal: seq<Entry>, attempt: nat)
    requires Publications(journal, attempt) == 0
    ensures forall k :: 0 <= k < |journal| && journal[k].Published? ==> journal[k].attempt != attempt
  {
    if journal != [] {
      NonePublished(journal[..|journal| - 1], attempt);
    }
  }

  lemma {:induction false} CurrentWritten(journal: seq<Entry>, attempt: nat, status: Status)
    requires Current(journal, attempt) == Some(status)
    ensures exists j :: 0 <= j < |journal| && journal[j] == State(attempt, status)
  {
    var n := |journal| - 1;
    if !(journal[n].State? && journal[n].attempt == attempt) {
      CurrentWritten(journal[..n], attempt, status);
      var j :| 0 <= j < n && journal[..n][j] == State(attempt, status);
      assert journal[j] == State(attempt, status);
    } else {
      assert journal[n] == State(attempt, status);
    }
  }

  /** An entry that a phase has due keeps the gate: a publication is due only after the verified row. */
  lemma {:induction false} DueKeepsGated(s: Setup, r: Run, journal: seq<Entry>, journal': seq<Entry>, written: bool)
    requires Gated(journal) && Knows(s, r, journal) && Due(s, r).Some?
    requires journal' == Put(journal, written, Due(s, r).value)
    ensures Gated(journal')
  {
    if r.phase.Publishing? {
      NonePublished(journal, r.q.attempt);
      CurrentWritten(journal, r.q.attempt, Verified);
    }
    AppendKeepsGated(journal, journal', written, Due(s, r).value);
  }

  /** A store call of any attempt keeps the gate and what every attempt knows. */
  lemma {:induction false} StepKeeps(s: Setup, w: World, w': World)
    requires AllKnow(s, w) && Next(s, w, w')
    ensures AllKnow(s, w')
  {
    var i: nat, fault :| i < |w.runs| && NextAt(s, w, w', i, fault);
    var r := w.runs[i];
    if Due(s, r).Some? {
      DueKeepsGated(s, r, w.journal, w'.journal, Written(fault));
    }
    forall j | 0 <= j < |w'.runs| ensures Knows(s, w'.runs[j], w'.journal) {
      if j == i {
        MoveKnows(s, r, w'.runs[i], w.journal, w'.journal, fault);
      } else if Due(s, r).Some? {
        assert w.runs[j].q.attempt != r.q.attempt;
        OthersKnow(s, w.runs[j], w.journal, w'.journal, Written(fault), Due(s, r).value);
      }
    }
  }

  // ---- every interleaving --------------------------------------------------------------------------------

  /** A history: each world follows from the one before by one store call of one attempt. */
  ghost predicate History(s: Setup, worlds: seq<World>) {
    worlds != [] && forall k, l :: 0 <= k && l == k + 1 < |worlds| ==> Next(s, worlds[k], worlds[l])
  }

  /** Any different attempts of which the store knows nothing, after a journal that satisfies the gate. */
  ghost predicate Beginning(w: World) {
    && Gated(w.journal) && (forall i, j :: 0 <= i < j < |w.runs| ==> w.runs[i].q.attempt != w.runs[j].q.attempt)
    && forall i :: 0 <= i < |w.runs| ==>
         && w.runs[i].phase.Waiting? && w.runs[i].tables == Tables([], [], [])
         && Fresh(w.journal, w.runs[i].q.attempt)
  }

  lemma {:induction false} HistoryKnows(s: Setup, worlds: seq<World>, k: nat)
    requires History(s, worlds) && Beginning(worlds[0]) && k < |worlds|
    ensures AllKnow(s, worlds[k])
  {
    if k > 0 {
      HistoryKnows(s, worlds, k - 1);
      StepKeeps(s, worlds[k - 1], worlds[k]);
    }
  }

  /** At most one publication, resting on the attempt's tables; if it returned, one that readers see; and
      none that they see while it is still at work. */
  ghost predicate Accounted(s: Setup, r: Run, journal: seq<Entry>) {
    && Publications(journal, r.q.attempt) <= 1
    && (Publications(journal, r.q.attempt) == 1 ==> Attests(s, r.q, r.tables))
    && (r.phase.Returned? ==> forall joined :: Eligible(journal, r.q.attempt, joined) <==> joined)
    && (forall joined :: Eligible(journal, r.q.attempt, joined) ==>
          r.phase.Returned? || r.phase.Raised? || r.phase.Stopped?)
  }

  /** In every interleaving of the store calls of any number of attempts, under any faults, stale reads and
      lossy inserts: every publication follows its attempt's verified row and is its only one, it rests on
      tables that attest what was collected, and once an attempt has returned, readers see its publication
      for as long as the other joins of the view find it. */
  lemma {:induction false} EveryInterleaving(s: Setup, worlds: seq<World>, k: nat)
    requires History(s, worlds) && Beginning(worlds[0]) && k < |worlds|
    ensures Gated(worlds[k].journal)
    ensures forall i :: 0 <= i < |worlds[k].runs| ==> Accounted(s, worlds[k].runs[i], worlds[k].journal)
  {
    HistoryKnows(s, worlds, k);
    forall i | 0 <= i < |worlds[k].runs| ensures Accounted(s, worlds[k].runs[i], worlds[k].journal) {
      assert Knows(s, worlds[k].runs[i], worlds[k].journal);
      if worlds[k].runs[i].phase.Waiting? {
        FreshSeesNothing(worlds[k].journal, worlds[k].runs[i].q.attempt);
      }
    }
  }

  /** Hence, where the hash does not collide and inserts add no rows, the tables of every published attempt
      hold what was collected, at every moment of every interleaving. */
  lemma {:induction false} InterleavedPublicationMeans(s: Setup, worlds: seq<World>, k: nat, i: nat,
      hash: PublishedRows.Hash)
    requires History(s, worlds) && Beginning(worlds[0]) && k < |worlds| && i < |worlds[k].runs|
    requires PublishedRows.Injective(hash) && PublishedRows.DigestsWith(s.digests, hash) && s.lean
    requires Publications(worlds[k].journal, worlds[k].runs[i].q.attempt) > 0
    ensures var r := worlds[k].runs[i];
            && r.q.collected.Some? && CollectorVerified(r.q.collected.value)
            && var c := r.q.collected.value;
               && PublishedRows.HoldsCollected(r.tables.rows, AllRows(c), c.target)
               && (IsToken(c) ==> Digests.SameUniverse(r.tables.members, c.members))
  {
    EveryInterleaving(s, worlds, k);
    var r := worlds[k].runs[i];
    assert Accounted(s, r, worlds[k].journal);
    PublishedRows.BackedRowsHold(s.digests, r.tables, r.q, s.limit, hash);
  }
}
