/** The publication gate: an attempt's rows are stored, read back, digested and only then published. */
module Census {
  import opened Wrappers
  import opened Calls
  import Digests
  import D = Discovery

  type Row = Digests.Item
  type Member = Digests.MemberRow
  type Fault = D.Fault

  const INSERT_CHUNK_ROWS: nat := 200_000

  datatype Status = Started | Verified | Failed

  /** Attempt states and publications, in the order in which they are written. */
  datatype Entry = State(attempt: nat, status: Status) | Published(attempt: nat, digest: Option<nat>)

  datatype Target = TokenTarget | PoolTarget | ClTarget

  /** A collection result. The rows are inserted in three groups: `first` and `last` one insert per
      element, `bulk` in chunks. `scaled` says which balances a token's holder sum adds up. */
  datatype Collected = Collected(target: Target, scaled: bool, members: seq<Member>, first: seq<seq<Row>>,
      bulk: seq<Row>, last: seq<seq<Row>>, errors: seq<nat>, batches: seq<bool>, checks: seq<bool>)

  predicate IsToken(c: Collected) {
    c.target.TokenTarget?
  }

  function AllRows(c: Collected): seq<Row> {
    Flatten(c.first) + c.bulk + Flatten(c.last)
  }

  predicate AllTrue(bs: seq<bool>) {
    forall k :: 0 <= k < |bs| ==> bs[k]
  }

  /** The collector's own verdict. */
  predicate CollectorVerified(c: Collected) {
    c.errors == [] && AllTrue(c.batches) && AllTrue(c.checks)
  }

  /** The holder sum of a token, absent where a scaled balance is missing. */
  function HolderSum(rows: seq<Row>, scaled: bool): Option<int> {
    if rows == [] then Some(0) else
      var rest, row := HolderSum(rows[..|rows| - 1], scaled), rows[|rows| - 1];
      if !row.Balance? || rest.None? then rest
      else if !scaled then Some(rest.value + row.row.balance)
      else if row.row.scaled.None? then None else Some(rest.value + row.row.scaled.value)
  }

  /** The sum to be published exists and fits the column; pools publish none. */
  predicate SumFits(c: Collected, limit: nat) {
    IsToken(c) ==> var sum := HolderSum(AllRows(c), c.scaled); sum.Some? && sum.value < limit
  }

  function At<T>(table: map<nat, seq<T>>, attempt: nat): seq<T> {
    if attempt in table then table[attempt] else []
  }

  /** What was there, then `more`. The case of an empty table spares proofs the index arithmetic of an
      empty prefix. */
  function Onto<T(==)>(before: seq<T>, more: seq<T>): seq<T> {
    if before == [] then more else before + more
  }

  // ---- what a read sees --------------------------------------------------------------------------

  /** `part` is `rows` with some of them left out. */
  predicate Sub<T(==)>(part: seq<T>, rows: seq<T>) {
    if part == [] then true
    else if rows == [] then false
    else
      var n, m := |part| - 1, |rows| - 1;
      (part[n] == rows[m] && Sub(part[..n], rows[..m])) || Sub(part, rows[..m])
  }

  lemma {:induction false} SubLength<T>(part: seq<T>, rows: seq<T>)
    requires Sub(part, rows)
    ensures |part| <= |rows| && (|part| == |rows| ==> part == rows)
    ensures forall r :: r in part ==> r in rows
  {
    if part != [] {
      var n, m := |part| - 1, |rows| - 1;
      assert part == part[..n] + [part[n]] && rows == rows[..m] + [rows[m]];
      if part[n] == rows[m] && Sub(part[..n], rows[..m]) {
        SubLength(part[..n], rows[..m]);
      } else {
        SubLength(part, rows[..m]);
      }
    }
  }

  lemma {:induction false} SubAll<T>(rows: seq<T>)
    ensures Sub(rows, rows)
  {
    if rows != [] {
      SubAll(rows[..|rows| - 1]);
    }
  }

  /** The rows at the places that are not hidden, in order. */
  function View<T>(hidden: set<nat>, rows: seq<T>): seq<T> {
    if rows == [] then [] else
      var m := |rows| - 1;
      if m in hidden then View(hidden, rows[..m]) else View(hidden, rows[..m]) + [rows[m]]
  }

  lemma {:induction false} ViewSub<T>(hidden: set<nat>, rows: seq<T>)
    ensures Sub(View(hidden, rows), rows)
  {
    if rows != [] {
      var m := |rows| - 1;
      var part, rest := View(hidden, rows), View(hidden, rows[..m]);
      ViewSub(hidden, rows[..m]);
      assert if m in hidden then part == rest else part[..|part| - 1] == rest;
    }
  }

  lemma {:induction false} ViewAll<T>(rows: seq<T>)
    ensures View({}, rows) == rows
  {
    if rows != [] {
      ViewAll(rows[..|rows| - 1]);
    }
  }

  /** A digest of rows, or nothing where computing it raises. */
  type Digester<!T(!new)> = seq<T> -> Option<nat>

  /** The digests that the store computes of what it reads back. */
  datatype Digesters = Digesters(rows: Target -> Digester<Row>, members: Digester<Member>)

  function RowDigester(d: Digesters, target: Target): Digester<Row> {
    d.rows(target)
  }

  function DigestRows(d: Digesters, target: Target, rows: seq<Row>): Option<nat> {
    d.rows(target)(rows)
  }

  function DigestMembers(d: Digesters, members: seq<Member>): Option<nat> {
    d.members(members)
  }

  function RowsDigest(d: Digesters, c: Collected): Option<nat> {
    DigestRows(d, c.target, AllRows(c))
  }

  function MembersDigest(d: Digesters, c: Collected): Option<nat> {
    DigestMembers(d, c.members)
  }

  /** Some of these rows, read in order, have this digest. */
  ghost predicate Snapshot<T(!new)>(digest: Digester<T>, rows: seq<T>, expected: Option<nat>) {
    expected.Some? && exists part :: Sub(part, rows) && digest(part) == expected
  }

  /** Whatever a read sees of these rows can be digested. */
  ghost predicate Steady<T(!new)>(digest: Digester<T>, rows: seq<T>) {
    forall part :: Sub(part, rows) ==> digest(part).Some?
  }

  /** How many reads a read-back takes: a fast one and, where it yields something else than expected, a
      consistent one. */
  function Reads(fast: Option<nat>, expected: Option<nat>): nat {
    if fast.None? || fast == expected then 1 else 2
  }

  /** What it yields. A fast read that raises is not repeated. */
  function Settled(fast: Option<nat>, sure: Option<nat>, expected: Option<nat>): Option<nat> {
    if fast.None? || fast == expected then fast else sure
  }

  // ---- one attempt, as the faults it meets ---------------------------------------------------------

  /** What happened to the writes of a run: its started row, whether everything up to the verified row
      passed, the verified row, the publication, and the failed row if one was written. */
  datatype Life = Life(start: Fault, passes: bool, verified: Fault, published: Fault, failed: Fault)

  predicate Written(f: Fault) {
    !f.LostRequest?
  }

  predicate Acknowledged(f: Fault) {
    f.NoFault?
  }

  predicate Returns(l: Life) {
    Acknowledged(l.start) && l.passes && Acknowledged(l.verified) && Acknowledged(l.published)
  }

  predicate WroteVerified(l: Life) {
    Acknowledged(l.start) && l.passes && Written(l.verified)
  }

  predicate WrotePublication(l: Life) {
    Acknowledged(l.start) && l.passes && Acknowledged(l.verified) && Written(l.published)
  }

  predicate WroteFailed(l: Life) {
    Acknowledged(l.start) && !Returns(l) && Written(l.failed)
  }

  /** The journal with the entry, if it was written. */
  function Put(journal: seq<Entry>, written: bool, e: Entry): seq<Entry> {
    if written then journal + [e] else journal
  }

  /** The journal after a run. A run whose started row is not acknowledged stops there; later failures
      add the failed row. */
  function After(journal: seq<Entry>, l: Life, attempt: nat, digest: Option<nat>): seq<Entry> {
    Concluded(Put(journal, Written(l.start), State(attempt, Started)), l, attempt, digest)
  }

  /** What follows the started row. */
  function Concluded(journal: seq<Entry>, l: Life, attempt: nat, digest: Option<nat>): seq<Entry> {
    var verified := Put(journal, WroteVerified(l), State(attempt, Verified));
    var published := Put(verified, WrotePublication(l), Published(attempt, digest));
    Put(published, WroteFailed(l), State(attempt, Failed))
  }

  // ---- what readers see --------------------------------------------------------------------------

  /** The attempt's current status: that of its last row. */
  function Current(journal: seq<Entry>, attempt: nat): Option<Status> {
    if journal == [] then None
    else
      var e := journal[|journal| - 1];
      if e.State? && e.attempt == attempt then Some(e.status) else Current(journal[..|journal| - 1], attempt)
  }

  function Publications(journal: seq<Entry>, attempt: nat): nat {
    if journal == [] then 0
    else
      var e := journal[|journal| - 1];
      Publications(journal[..|journal| - 1], attempt) + if e.Published? && e.attempt == attempt then 1 else 0
  }

  /** The publication view shows a publication only while its attempt's current status is verified.
      `joined` says whether the other joins of the view find the attempt at that moment: its
      configuration is the registered one, its anchor is canonical, and it has no stored errors. */
  predicate Eligible(journal: seq<Entry>, attempt: nat, joined: bool) {
    joined && Publications(journal, attempt) > 0 && Current(journal, attempt) == Some(Verified)
  }

  predicate Fresh(journal: seq<Entry>, attempt: nat) {
    forall i :: 0 <= i < |journal| ==> journal[i].attempt != attempt
  }

  /** Readers know nothing of the attempt. */
  predicate Unseen(journal: seq<Entry>, attempt: nat) {
    Publications(journal, attempt) == 0 && Current(journal, attempt) == None
  }

  lemma {:induction false} FreshSeesNothing(journal: seq<Entry>, attempt: nat)
    requires Fresh(journal, attempt)
    ensures Unseen(journal, attempt)
  {
    if journal != [] {
      FreshSeesNothing(journal[..|journal| - 1], attempt);
    }
  }

  lemma {:induction false} Appended(journal: seq<Entry>, more: seq<Entry>, written: bool, e: Entry, attempt: nat)
    requires more == Put(journal, written, e)
    ensures Publications(more, attempt) == Publications(journal, attempt)
         + if written && e.Published? && e.attempt == attempt then 1 else 0
    ensures Current(more, attempt)
         == if written && e.State? && e.attempt == attempt then Some(e.status) else Current(journal, attempt)
  {
    assert written ==> more[..|more| - 1] == journal;
    assert !written ==> more == journal;
  }

  lemma {:induction false} FourAppended(j0: seq<Entry>, j1: seq<Entry>, j2: seq<Entry>, j3: seq<Entry>, j4: seq<Entry>,
                     b1: bool, b2: bool, b3: bool, b4: bool, attempt: nat, digest: Option<nat>)
    requires j1 == Put(j0, b1, State(attempt, Started)) && j2 == Put(j1, b2, State(attempt, Verified))
    requires j3 == Put(j2, b3, Published(attempt, digest)) && j4 == Put(j3, b4, State(attempt, Failed))
    ensures Publications(j4, attempt) == Publications(j0, attempt) + if b3 then 1 else 0
    ensures Current(j4, attempt)
         == if b4 then Some(Failed) else if b2 then Some(Verified)
            else if b1 then Some(Started) else Current(j0, attempt)
  {
    Appended(j0, j1, b1, State(attempt, Started), attempt);
    Appended(j1, j2, b2, State(attempt, Verified), attempt);
    Appended(j2, j3, b3, Published(attempt, digest), attempt);
    Appended(j3, j4, b4, State(attempt, Failed), attempt);
  }

  lemma {:induction false} AfterSeen(journal: seq<Entry>, l: Life, attempt: nat, digest: Option<nat>)
    requires Unseen(journal, attempt)
    ensures Publications(After(journal, l, attempt, digest), attempt) == if WrotePublication(l) then 1 else 0
    ensures Current(After(journal, l, attempt, digest), attempt) == Some(Verified) <==>
              WroteVerified(l) && !WroteFailed(l)
  {
    var j1 := Put(journal, Written(l.start), State(attempt, Started));
    var j2 := Put(j1, WroteVerified(l), State(attempt, Verified));
    var j3 := Put(j2, WrotePublication(l), Published(attempt, digest));
    FourAppended(journal, j1, j2, j3, After(journal, l, attempt, digest),
                 Written(l.start), WroteVerified(l), WrotePublication(l), WroteFailed(l), attempt, digest);
  }

  /** The life is the one that these faults give a run: that of its started row and, if it comes to that,
      those of its verified row and of the two calls that follow. */
  predicate Met(l: Life, start: Fault, first: Fault, second: Fault, third: Fault) {
    && l.start == start
    && (Acknowledged(start) && l.passes ==>
          && l.verified == first
          && (Acknowledged(first) ==> l.published == second && (!Acknowledged(second) ==> l.failed == third))
          && (!Acknowledged(first) ==> l.failed == second))
  }

  /** The replies to the started and the verified row arrived, that to the publication was lost, and so was
      the failed row. */
  predicate LostInSilence(start: Fault, first: Fault, second: Fault, third: Fault) {
    start.NoFault? && first.NoFault? && second.LostReply? && third.LostRequest?
  }

  /** For any faults: a run that returns leaves exactly one publication, and readers see it. Readers see
      a publication of a run that raised in one case only: the reply to the publication was lost and so
      was the failed row. */
  lemma {:induction false} VisibleIff(journal: seq<Entry>, l: Life, attempt: nat, digest: Option<nat>,
      start: Fault, first: Fault, second: Fault, third: Fault, joined: bool)
    requires Unseen(journal, attempt) && Met(l, start, first, second, third)
    ensures var after := After(journal, l, attempt, digest);
            && Publications(after, attempt) <= 1
            && (Returns(l) <==> l.passes && start.NoFault? && first.NoFault? && second.NoFault?)
            && (Returns(l) ==> Publications(after, attempt) == 1 && (Eligible(after, attempt, joined) <==> joined))
            && (Eligible(after, attempt, joined) && !Returns(l) <==>
                joined && l.passes && LostInSilence(start, first, second, third))
  {
    AfterSeen(journal, l, attempt, digest);
  }

  /** Every publication follows the verified row of its attempt and is that attempt's only one. */
  ghost predicate Gated(journal: seq<Entry>) {
    forall i :: 0 <= i < |journal| && journal[i].Published? ==>
      VerifiedBefore(journal, i) && forall k :: 0 <= k < |journal| && k != i && journal[k].Published? ==>
          journal[k].attempt != journal[i].attempt
  }

  ghost predicate VerifiedBefore(journal: seq<Entry>, i: nat)
    requires i < |journal|
  {
    exists j :: 0 <= j < i && journal[j] == State(journal[i].attempt, Verified)
  }

  /** Appending an entry of an attempt without publications keeps that, if a publication comes after
      the attempt's verified row. */
  lemma {:induction false} AppendKeepsGated(journal: seq<Entry>, more: seq<Entry>, written: bool, e: Entry)
    requires Gated(journal) && more == Put(journal, written, e)
    requires written && e.Published? ==>
               && (exists j :: 0 <= j < |journal| && journal[j] == State(e.attempt, Verified))
               && forall k :: 0 <= k < |journal| && journal[k].Published? ==> journal[k].attempt != e.attempt
    ensures Gated(more)
  {
    assert forall k :: 0 <= k < |journal| ==> more[k] == journal[k];
    forall i | 0 <= i < |more| && more[i].Published? ensures VerifiedBefore(more, i) {
      if i < |journal| {
        assert VerifiedBefore(journal, i);
        var j :| 0 <= j < i && journal[j] == State(journal[i].attempt, Verified);
        assert more[j] == journal[j];
      } else {
        var j :| 0 <= j < |journal| && journal[j] == State(e.attempt, Verified);
        assert more[j] == journal[j];
      }
    }
  }

  /** A run keeps that, whatever its faults. */
  lemma {:induction false} RunKeepsGated(journal: seq<Entry>, l: Life, attempt: nat, digest: Option<nat>)
    requires Gated(journal) && Fresh(journal, attempt)
    ensures Gated(After(journal, l, attempt, digest))
  {
    var s, v := State(attempt, Started), State(attempt, Verified);
    var j1 := Put(journal, Written(l.start), s);
    var j2 := Put(j1, WroteVerified(l), v);
    var j3 := Put(j2, WrotePublication(l), Published(attempt, digest));
    AppendKeepsGated(journal, j1, Written(l.start), s);
    AppendKeepsGated(j1, j2, WroteVerified(l), v);
    assert WrotePublication(l) ==> j2[|j1|] == v;
    assert forall k :: 0 <= k < |j2| && j2[k].Published? ==> k < |journal| && j2[k] == journal[k];
    AppendKeepsGated(j2, j3, WrotePublication(l), Published(attempt, digest));
    AppendKeepsGated(j3, After(journal, l, attempt, digest), WroteFailed(l), State(attempt, Failed));
  }

  // ---- the store ---------------------------------------------------------------------------------

  /** The attempt's rows only grew, and no other attempt's changed. */
  ghost predicate Grew<T(!new)>(before: map<nat, seq<T>>, after: map<nat, seq<T>>, attempt: nat) {
    At(before, attempt) <= At(after, attempt) && forall a :: a != attempt ==> At(after, a) == At(before, a)
  }

  class CensusStore {
    var journal: seq<Entry>
    var rows: map<nat, seq<Row>>
    var members: map<nat, seq<Member>>
    var errors: map<nat, seq<nat>>
    var calls: nat
    /** The faults that calls meet, by call number. */
    const faults: map<nat, Fault>
    /** What an insert really stores. */
    const kept: (nat, seq<Row>) -> seq<Row>
    const keptMembers: (nat, seq<Member>) -> seq<Member>
    /** The places that a fast read does not see, by call number. */
    const hidden: map<nat, set<nat>>
    const digests: Digesters

    constructor (faults: map<nat, Fault>, kept: (nat, seq<Row>) -> seq<Row>,
                 keptMembers: (nat, seq<Member>) -> seq<Member>, hidden: map<nat, set<nat>>, digests: Digesters)
      ensures journal == [] && rows == map[] && members == map[] && errors == map[] && calls == 0
      ensures this.faults == faults && this.kept == kept && this.keptMembers == keptMembers && this.hidden == hidden
      ensures this.digests == digests
    {
      this.faults, this.kept, this.keptMembers, this.hidden := faults, kept, keptMembers, hidden;
      this.digests := digests;
      journal, rows, members, errors, calls := [], map[], map[], map[], 0;
    }

    function FaultAt(k: nat): Fault {
      if k in faults then faults[k] else D.NoFault
    }

    /** What the fast read with call number `k` sees of these rows. */
    function Fast<T>(k: nat, all: seq<T>): seq<T> {
      View(HiddenAt(k), all)
    }

    function HiddenAt(k: nat): set<nat> {
      if k in hidden then hidden[k] else {}
    }

    lemma {:induction false} FastSub<T>(k: nat, all: seq<T>)
      ensures Sub(Fast(k, all), all)
    {
      ViewSub(HiddenAt(k), all);
    }

    /** Inserts may drop or alter rows but never store more than they were given. */
    ghost predicate Lean() {
      && (forall k: nat, chunk :: |kept(k, chunk)| <= |chunk|)
      && forall k: nat, more :: |keptMembers(k, more)| <= |more|
    }

    /** Inserts store what they are given. */
    ghost predicate Lossless() {
      (forall k: nat, chunk :: kept(k, chunk) == chunk) && forall k: nat, more :: keptMembers(k, more) == more
    }

    /** Inserts store what they are given, and none of these calls fails. */
    ghost predicate Quiet(from: nat, to: nat) {
      Lossless() && forall k: nat :: from <= k < to ==> FaultAt(k).NoFault?
    }

    method Append(e: Entry) returns (ok: bool, ghost fault: Fault)
      modifies `calls, `journal
      ensures calls == old(calls) + 1 && fault == FaultAt(old(calls)) && ok == Acknowledged(fault)
      ensures journal == Put(old(journal), Written(fault), e)
    {
      var f := FaultAt(calls);
      fault := f;
      calls := calls + 1;
      if !f.LostRequest? {
        journal := journal + [e];
      }
      ok := f.NoFault?;
    }

    method InsertRows(attempt: nat, chunk: seq<Row>) returns (ok: bool)
      modifies `calls, `rows
      ensures calls == old(calls) + 1 && ok == Acknowledged(FaultAt(old(calls))) && Grew(old(rows), rows, attempt)
      ensures Lean() ==> |At(rows, attempt)| <= |old(At(rows, attempt))| + |chunk|
      ensures Quiet(old(calls), calls) ==> ok && At(rows, attempt) == old(At(rows, attempt)) + chunk
    {
      var fault := FaultAt(calls);
      if !fault.LostRequest? {
        rows := rows[attempt := At(rows, attempt) + kept(calls, chunk)];
      }
      calls := calls + 1;
      ok := fault.NoFault?;
    }

    method InsertMembers(attempt: nat, more: seq<Member>) returns (ok: bool)
      modifies `calls, `members
      ensures calls == old(calls) + 1 && ok == Acknowledged(FaultAt(old(calls))) && Grew(old(members), members, attempt)
      ensures Lean() ==> |At(members, attempt)| <= |old(At(members, attempt))| + |more|
      ensures Quiet(old(calls), calls) ==> ok && At(members, attempt) == Onto(old(At(members, attempt)), more)
    {
      var fault := FaultAt(calls);
      if !fault.LostRequest? {
        members := members[attempt := At(members, attempt) + keptMembers(calls, more)];
      }
      calls := calls + 1;
      ok := fault.NoFault?;
    }

    method InsertErrors(attempt: nat, more: seq<nat>) returns (ok: bool)
      modifies `calls, `errors
      ensures calls == old(calls) + 1 && ok == Acknowledged(FaultAt(old(calls))) && Grew(old(errors), errors, attempt)
      ensures ok ==> At(errors, attempt) == old(At(errors, attempt)) + more
    {
      var fault := FaultAt(calls);
      calls := calls + 1;
      if !fault.LostRequest? {
        errors := errors[attempt := At(errors, attempt) + more];
      }
      ok := fault.NoFault?;
    }

    /** A read, which a fault may lose. */
    method Reply() returns (ok: bool)
      modifies `calls
      ensures calls == old(calls) + 1 && ok == Acknowledged(FaultAt(old(calls)))
    {
      ok := FaultAt(calls).NoFault?;
      calls := calls + 1;
    }

    method RowDigest(attempt: nat, target: Target, consistent: bool) returns (r: Option<nat>)
      modifies `calls
      ensures calls == old(calls) + 1
      ensures r.Some? ==> Snapshot(RowDigester(digests, target), At(rows, attempt), r)
      ensures Acknowledged(FaultAt(old(calls))) ==>
                var all := At(rows, attempt);
                r == DigestRows(digests, target, if consistent then all else Fast(old(calls), all))
    {
      var all := At(rows, attempt);
      var read := if consistent then all else Fast(calls, all);
      SubAll(all);
      FastSub(calls, all);
      var ok := Reply();
      return if ok then DigestRows(digests, target, read) else None;
    }

    method MemberDigest(attempt: nat, consistent: bool) returns (r: Option<nat>)
      modifies `calls
      ensures calls == old(calls) + 1
      ensures r.Some? ==> Snapshot(digests.members, At(members, attempt), r)
      ensures Acknowledged(FaultAt(old(calls))) ==>
                var all := At(members, attempt);
                r == DigestMembers(digests, if consistent then all else Fast(old(calls), all))
    {
      var all := At(members, attempt);
      var read := if consistent then all else Fast(calls, all);
      SubAll(all);
      FastSub(calls, all);
      var ok := Reply();
      return if ok then DigestMembers(digests, read) else None;
    }

    /** What the read of the error count yields from call number `k` on: the fast count if it is the
        expected one, else the consistent one. */
    function CountRead(k: nat, all: seq<nat>, expected: nat): nat {
      if |Fast(k, all)| == expected then expected else |all|
    }

    method ErrorCount(attempt: nat, consistent: bool) returns (r: Option<nat>)
      modifies `calls
      ensures calls == old(calls) + 1 && (r.Some? <==> Acknowledged(FaultAt(old(calls))))
      ensures r.Some? ==>
                var all := At(errors, attempt);
                r.value == if consistent then |all| else |Fast(old(calls), all)|
    {
      var all := At(errors, attempt);
      var read := if consistent then all else Fast(calls, all);
      var ok := Reply();
      return if ok then Some(|read|) else None;
    }
  }

  // ---- the service -------------------------------------------------------------------------------

  datatype Check = TerminalErrors | UnverifiedBatch | IntegrityFailed(index: nat) | RowsDiffer | UniverseDiffers

  /** The tables of one attempt. */
  datatype Tables = Tables(rows: seq<Row>, members: seq<Member>, errors: seq<nat>)

  ghost function TablesOf(store: CensusStore, attempt: nat): Tables
    reads store
  {
    Tables(At(store.rows, attempt), At(store.members, attempt), At(store.errors, attempt))
  }

  /** What must hold of a result and of the attempt's tables for it to be published. */
  ghost predicate Attested(d: Digesters, t: Tables, c: Collected, limit: nat) {
    && CollectorVerified(c) && SumFits(c, limit) && t.errors == []
    && Snapshot(RowDigester(d, c.target), t.rows, RowsDigest(d, c))
    && (IsToken(c) ==> Snapshot(d.members, t.members, MembersDigest(d, c)))
  }

  /** Where inserts never add rows, the attempt stored no more than was collected. */
  ghost predicate Bounded(lean: bool, t: Tables, c: Collected) {
    lean ==> |t.rows| <= |AllRows(c)| && |t.members| <= |c.members|
  }

  /** The number of chunks of `n` rows. */
  function Chunks(n: nat): nat {
    (n + INSERT_CHUNK_ROWS - 1) / INSERT_CHUNK_ROWS
  }

  function RowCalls(c: Collected): nat {
    |c.first| + Chunks(|c.bulk|) + |c.last|
  }

  /** How many inserts store a result, when none of them fails. */
  function InsertCalls(c: Collected): nat {
    (if IsToken(c) && c.members != [] then 1 else 0) + RowCalls(c) + if c.errors != [] then 1 else 0
  }

  /** What the fast read-back yields, when the inserts began with call number `from` and none failed. */
  function ReadBack(store: CensusStore, from: nat, c: Collected): Option<nat> {
    DigestRows(store.digests, c.target, store.Fast(from + InsertCalls(c), AllRows(c)))
  }

  /** The results that a store publishes in which nothing fails: verified, with a sum that fits, and whose
      rows can be digested, both all of them and those that the fast read-back sees. */
  ghost predicate Publishable(store: CensusStore, from: nat, c: Collected, limit: nat) {
    && CollectorVerified(c) && SumFits(c, limit)
    && RowsDigest(store.digests, c).Some? && ReadBack(store, from, c).Some?
  }

  /** How many reads settle a token's universe from call number `k` on. */
  function UniverseReads(store: CensusStore, k: nat, c: Collected): nat {
    if IsToken(c) then Reads(DigestMembers(store.digests, store.Fast(k, c.members)), MembersDigest(store.digests, c))
    else 0
  }

  /** The call number of the first read of the error count: after the inserts and the read-back of the rows. */
  function CountAt(store: CensusStore, from: nat, c: Collected): nat {
    from + InsertCalls(c) + Reads(ReadBack(store, from, c), RowsDigest(store.digests, c))
  }

  /** The call number of the verified row of such a result: after one read of the error count and the
      read-back of a token's universe. */
  function PublishAt(store: CensusStore, from: nat, c: Collected): nat {
    CountAt(store, from, c) + 1 + UniverseReads(store, CountAt(store, from, c) + 1, c)
  }

  /** Where the fast reads see everything, a pool takes two reads. */
  lemma {:induction false} UnhiddenPublishAt(store: CensusStore, from: nat, c: Collected)
    requires store.hidden == map[] && !IsToken(c)
    ensures PublishAt(store, from, c) == from + InsertCalls(c) + 2
  {
    ViewAll(AllRows(c));
  }

  /** Every snapshot of a token's universe can be digested. */
  ghost predicate SteadyUniverse(d: Digesters, c: Collected) {
    IsToken(c) ==> Steady(d.members, c.members)
  }

  class CensusService {
    const store: CensusStore
    /** The first value that does not fit the sum column: 2^256. */
    const limit: nat

    constructor (store: CensusStore, limit: nat)
      ensures this.store == store && this.limit == limit
    {
      this.store, this.limit := store, limit;
    }

    /** Inserts the rows in order, at most a chunk at a time. */
    method InsertChunked(attempt: nat, rows: seq<Row>) returns (ok: bool)
      modifies store`calls, store`rows
      ensures store.calls >= old(store.calls) && Grew(old(store.rows), store.rows, attempt)
      ensures store.Lean() ==> |At(store.rows, attempt)| <= |old(At(store.rows, attempt))| + |rows|
      ensures store.Quiet(old(store.calls), old(store.calls) + Chunks(|rows|)) ==>
                && ok && At(store.rows, attempt) == old(At(store.rows, attempt)) + rows
                && store.calls == old(store.calls) + Chunks(|rows|)
    {
      var start := 0;
      ghost var chunks := 0;
      while start < |rows|
        invariant 0 <= start <= |rows| && store.calls == old(store.calls) + chunks
        invariant start == if chunks * INSERT_CHUNK_ROWS < |rows| then chunks * INSERT_CHUNK_ROWS else |rows|
        invariant chunks > 0 ==> (chunks - 1) * INSERT_CHUNK_ROWS < |rows|
        invariant Grew(old(store.rows), store.rows, attempt)
        invariant store.Lean() ==> |At(store.rows, attempt)| <= |old(At(store.rows, attempt))| + start
        invariant store.Quiet(old(store.calls), old(store.calls) + Chunks(|rows|)) ==>
                    At(store.rows, attempt) == old(At(store.rows, attempt)) + rows[..start]
      {
        var end := if start + INSERT_CHUNK_ROWS < |rows| then start + INSERT_CHUNK_ROWS else |rows|;
        assert rows[..end] == rows[..start] + rows[start..end];
        assert chunks < Chunks(|rows|);
        ok := store.InsertRows(attempt, rows[start..end]);
        if !ok {
          return false;
        }
        start := end;
        chunks := chunks + 1;
      }
      assert rows[..start] == rows;
      return true;
    }

    method InsertGroups(attempt: nat, groups: seq<seq<Row>>) returns (ok: bool)
      modifies store`calls, store`rows
      ensures store.calls >= old(store.calls) && Grew(old(store.rows), store.rows, attempt)
      ensures store.Lean() ==> |At(store.rows, attempt)| <= |old(At(store.rows, attempt))| + |Flatten(groups)|
      ensures store.Quiet(old(store.calls), old(store.calls) + |groups|) ==>
                && ok && At(store.rows, attempt) == old(At(store.rows, attempt)) + Flatten(groups)
                && store.calls == old(store.calls) + |groups|
    {
      ghost var before := At(store.rows, attempt);
      for g := 0 to |groups|
        invariant store.calls == old(store.calls) + g && Grew(old(store.rows), store.rows, attempt)
        invariant store.Lean() ==> |At(store.rows, attempt)| <= |before| + |Flatten(groups[..g])|
        invariant store.Quiet(old(store.calls), old(store.calls) + |groups|) ==>
                    At(store.rows, attempt) == before + Flatten(groups[..g])
      {
        FlattenStep(groups, g);
        ghost var done, now := Flatten(groups[..g]), Flatten(groups[..g + 1]);
        assert now == done + groups[g] && |now| <= |Flatten(groups)|;
        ok := store.InsertRows(attempt, groups[g]);
        if !ok {
          return false;
        }
        assert before + now == before + done + groups[g];
      }
      assert groups[..|groups|] == groups;
      return true;
    }

    method PersistRows(attempt: nat, c: Collected) returns (ok: bool)
      modifies store`calls, store`rows
      ensures store.calls >= old(store.calls) && Grew(old(store.rows), store.rows, attempt)
      ensures store.Lean() ==> |At(store.rows, attempt)| <= |old(At(store.rows, attempt))| + |AllRows(c)|
      ensures store.Quiet(old(store.calls), old(store.calls) + RowCalls(c)) ==>
                && ok && At(store.rows, attempt) == Onto(old(At(store.rows, attempt)), AllRows(c))
                && store.calls == old(store.calls) + RowCalls(c)
    {
      ghost var before, first, last := At(store.rows, attempt), Flatten(c.first), Flatten(c.last);
      assert AllRows(c) == first + c.bulk + last;
      ok := InsertGroups(attempt, c.first);
      ghost var one := At(store.rows, attempt);
      if !ok {
        return;
      }
      ok := InsertChunked(attempt, c.bulk);
      ghost var two := At(store.rows, attempt);
      if !ok {
        return;
      }
      ok := InsertGroups(attempt, c.last);
      ghost var three := At(store.rows, attempt);
      Joined(before, one, two, three, first, c.bulk, last);
    }

    /** Stores the universe, the observations and the terminal errors of an attempt. */
    method Persist(attempt: nat, c: Collected) returns (ok: bool)
      modifies store`calls, store`rows, store`members, store`errors
      ensures store.calls >= old(store.calls) && Grew(old(store.rows), store.rows, attempt)
      ensures Grew(old(store.members), store.members, attempt) && Grew(old(store.errors), store.errors, attempt)
      ensures store.Lean() ==>
                && |At(store.rows, attempt)| <= |old(At(store.rows, attempt))| + |AllRows(c)|
                && |At(store.members, attempt)| <= |old(At(store.members, attempt))| + |c.members|
      ensures c.errors == [] ==> store.errors == old(store.errors)
      ensures store.Quiet(old(store.calls), old(store.calls) + InsertCalls(c)) ==>
                && ok && At(store.rows, attempt) == Onto(old(At(store.rows, attempt)), AllRows(c))
                && (IsToken(c) ==> At(store.members, attempt) == Onto(old(At(store.members, attempt)), c.members))
                && store.calls == old(store.calls) + InsertCalls(c)
    {
      if IsToken(c) && c.members != [] {
        ok := store.InsertMembers(attempt, c.members);
        if !ok {
          return;
        }
      }
      ok := PersistRows(attempt, c);
      if !ok {
        return;
      }
      if c.errors != [] {
        ok := store.InsertErrors(attempt, c.errors);
      }
    }

    /** A fast read; where it differs from what is expected, one consistent read decides. */
    method ReadRows(attempt: nat, target: Target, expected: Option<nat>) returns (r: Option<nat>)
      modifies store`calls
      ensures store.calls >= old(store.calls)
      ensures r.Some? ==> Snapshot(RowDigester(store.digests, target), At(store.rows, attempt), r)
      ensures var all, k := At(store.rows, attempt), old(store.calls);
              var fast := DigestRows(store.digests, target, store.Fast(k, all));
              store.Quiet(k, k + Reads(fast, expected)) ==>
                && r == Settled(fast, DigestRows(store.digests, target, all), expected)
                && store.calls == k + Reads(fast, expected)
    {
      r := store.RowDigest(attempt, target, false);
      if r.None? || r == expected {
        return;
      }
      r := store.RowDigest(attempt, target, true);
    }

    method ReadMembers(attempt: nat, expected: Option<nat>) returns (r: Option<nat>)
      modifies store`calls
      ensures store.calls >= old(store.calls)
      ensures r.Some? ==> Snapshot(store.digests.members, At(store.members, attempt), r)
      ensures var all, k := At(store.members, attempt), old(store.calls);
              var fast := DigestMembers(store.digests, store.Fast(k, all));
              store.Quiet(k, k + Reads(fast, expected)) ==>
                && r == Settled(fast, DigestMembers(store.digests, all), expected)
                && store.calls == k + Reads(fast, expected)
    {
      r := store.MemberDigest(attempt, false);
      if r.None? || r == expected {
        return;
      }
      r := store.MemberDigest(attempt, true);
    }

    method ReadErrors(attempt: nat, expected: nat) returns (r: Option<nat>)
      modifies store`calls
      ensures store.calls >= old(store.calls)
      ensures r.Some? ==> r.value == store.CountRead(old(store.calls), At(store.errors, attempt), expected)
      ensures (&& store.Quiet(old(store.calls), old(store.calls) + 1)
               && At(store.errors, attempt) == [] && expected == 0) ==>
                r == Some(0) && store.calls == old(store.calls) + 1
    {
      r := store.ErrorCount(attempt, false);
      if r.None? || r.value == expected {
        return;
      }
      r := store.ErrorCount(attempt, true);
    }

    /** The read-back of the rows, after inserts that began with call number `from`. */
    method ReadCollected(attempt: nat, c: Collected, ghost from: nat) returns (r: Option<nat>)
      requires store.Quiet(from, from + InsertCalls(c)) ==>
                 HoldsCollected(attempt, c) && store.calls == from + InsertCalls(c)
      modifies store`calls
      ensures store.calls >= old(store.calls)
      ensures r.Some? ==> Snapshot(RowDigester(store.digests, c.target), At(store.rows, attempt), r)
      ensures store.Quiet(from, CountAt(store, from, c)) ==>
                && store.calls == CountAt(store, from, c) && HoldsCollected(attempt, c)
                && r == if ReadBack(store, from, c).None? then None else RowsDigest(store.digests, c)
    {
      r := ReadRows(attempt, c.target, RowsDigest(store.digests, c));
    }

    /** Whether a token's universe reads back as resolved; pools have none to read. */
    method UniverseMatches(attempt: nat, c: Collected, ghost from: nat) returns (r: Option<bool>)
      requires c.errors == [] && store.Quiet(from, CountAt(store, from, c) + 1) ==>
                 HoldsCollected(attempt, c) && store.calls == CountAt(store, from, c) + 1
      modifies store`calls
      ensures store.calls >= old(store.calls)
      ensures r == Some(true) && IsToken(c) ==>
                Snapshot(store.digests.members, At(store.members, attempt), MembersDigest(store.digests, c))
      ensures c.errors == [] && store.Quiet(from, PublishAt(store, from, c)) && SteadyUniverse(store.digests, c) ==>
                r == Some(true) && store.calls == PublishAt(store, from, c)
    {
      if !IsToken(c) {
        return Some(true);
      }
      store.FastSub(CountAt(store, from, c) + 1, c.members);
      SubAll(c.members);
      var universe := ReadMembers(attempt, MembersDigest(store.digests, c));
      if universe.None? {
        return None;
      }
      return Some(universe == MembersDigest(store.digests, c));
    }

    /** The collector's own checks that failed. */
    method FailedChecks(checks: seq<bool>) returns (failed: seq<Check>)
      ensures failed == [] <==> AllTrue(checks)
      ensures forall f :: f in failed <==> f.IntegrityFailed? && f.index < |checks| && !checks[f.index]
    {
      failed := [];
      for k := 0 to |checks|
        invariant forall f :: f in failed <==> f.IntegrityFailed? && f.index < k && !checks[f.index]
      {
        if !checks[k] {
          failed := failed + [IntegrityFailed(k)];
        }
      }
      if failed != [] {
        assert failed[0] in failed;
      }
      assert forall k :: 0 <= k < |checks| && !checks[k] ==> IntegrityFailed(k) in failed;
    }

    /** The checks that failed, or nothing where the store raised, after inserts that began with call number
        `from`. */
    method PublicationChecks(attempt: nat, c: Collected, readback: Option<nat>, ghost from: nat)
        returns (r: Option<seq<Check>>)
      requires store.Quiet(from, CountAt(store, from, c)) ==>
                 HoldsCollected(attempt, c) && store.calls == CountAt(store, from, c)
      modifies store`calls
      ensures store.calls >= old(store.calls)
      ensures r == Some([]) ==> store.CountRead(old(store.calls), At(store.errors, attempt), |c.errors|) == 0
      ensures r == Some([]) ==> AllTrue(c.batches) && AllTrue(c.checks) && readback == RowsDigest(store.digests, c)
      ensures r == Some([]) && IsToken(c) ==>
                Snapshot(store.digests.members, At(store.members, attempt), MembersDigest(store.digests, c))
      ensures (store.Quiet(from, PublishAt(store, from, c)) && SteadyUniverse(store.digests, c)
               && CollectorVerified(c) && readback == RowsDigest(store.digests, c)) ==>
                r == Some([]) && store.calls == PublishAt(store, from, c)
    {
      var failed: seq<Check> := [];
      var count := ReadErrors(attempt, |c.errors|);
      if count.None? {
        return None;
      }
      if count.value != 0 {
        failed := failed + [TerminalErrors];
      }
      if !AllTrue(c.batches) {
        failed := failed + [UnverifiedBatch];
      }
      var integrity := FailedChecks(c.checks);
      failed := failed + integrity;
      assert failed == [] <==> count.value == 0 && AllTrue(c.batches) && AllTrue(c.checks);
      if readback != RowsDigest(store.digests, c) {
        failed := failed + [RowsDiffer];
      }
      var universe := UniverseMatches(attempt, c, from);
      if universe.None? {
        return None;
      }
      if !universe.value {
        failed := failed + [UniverseDiffers];
      }
      return Some(failed);
    }

    /** The tables hold exactly what was collected. */
    ghost predicate HoldsCollected(attempt: nat, c: Collected)
      reads store
    {
      && At(store.rows, attempt) == AllRows(c) && (c.errors == [] ==> At(store.errors, attempt) == [])
      && (IsToken(c) ==> At(store.members, attempt) == c.members)
    }

    /** The read-backs, the checks and, for a token, the sum, after inserts that began with call number
        `from`. */
    method Attest(attempt: nat, c: Collected, ghost from: nat) returns (passes: bool)
      requires c.errors == [] ==> At(store.errors, attempt) == []
      requires store.Quiet(from, from + InsertCalls(c)) ==>
                 HoldsCollected(attempt, c) && store.calls == from + InsertCalls(c)
      modifies store`calls
      ensures store.calls >= old(store.calls)
      ensures passes ==> Attested(store.digests, TablesOf(store, attempt), c, limit)
      ensures Undisturbed(store, from, c) ==>
                && (passes <==> Publishable(store, from, c, limit))
                && (passes ==> store.calls == PublishAt(store, from, c))
    {
      if RowsDigest(store.digests, c).None? {
        return false;
      }
      var readback := ReadCollected(attempt, c, from);
      if readback.None? {
        return false;
      }
      var failed := PublicationChecks(attempt, c, readback, from);
      if failed.None? || failed.value != [] || !CollectorVerified(c) {
        return false;
      }
      return SumFits(c, limit);
    }

    /** Everything between the collection and the verified row. */
    method Prepare(attempt: nat, c: Collected) returns (passes: bool)
      requires Empty(store, attempt)
      modifies store`calls, store`rows, store`members, store`errors
      ensures store.calls >= old(store.calls) && Grew(old(store.rows), store.rows, attempt)
      ensures Grew(old(store.members), store.members, attempt) && Grew(old(store.errors), store.errors, attempt)
      ensures Judged(store, limit, old(store.calls), Request(attempt, true, Some(c)), TablesOf(store, attempt), passes,
                     store.calls)
    {
      ghost var from := store.calls;
      var ok := Persist(attempt, c);
      if !ok {
        return false;
      }
      passes := Attest(attempt, c, from);
    }

    /** The verified row, then the publication. */
    method Publish(attempt: nat, digest: Option<nat>) returns (ok: bool, ghost verified: Fault, ghost published: Fault)
      modifies store`calls, store`journal
      ensures ok <==> Acknowledged(verified) && Acknowledged(published)
      ensures verified == store.FaultAt(old(store.calls))
      ensures Acknowledged(verified) ==> published == store.FaultAt(old(store.calls) + 1)
      ensures store.calls == old(store.calls) + if Acknowledged(verified) then 2 else 1
      ensures var before := Put(old(store.journal), Written(verified), State(attempt, Verified));
              store.journal == Put(before, Acknowledged(verified) && Written(published), Published(attempt, digest))
    {
      published := D.NoFault;
      ok, verified := store.Append(State(attempt, Verified));
      if ok {
        ok, published := store.Append(Published(attempt, digest));
      }
    }

    /** Everything after the started row that a failed row would answer for. */
    method TryPublish(attempt: nat, codeVerified: bool, collected: Option<Collected>)
        returns (ok: bool, ghost passes: bool, ghost verified: Fault, ghost published: Fault, ghost at: nat)
      requires Empty(store, attempt)
      modifies store
      ensures ok <==> passes && Acknowledged(verified) && Acknowledged(published)
      ensures at >= old(store.calls)
      ensures var before := Put(old(store.journal), passes && Written(verified), State(attempt, Verified));
              store.journal == Put(before, passes && Acknowledged(verified) && Written(published),
                                   Published(attempt, DigestOf(store.digests, collected)))
      ensures passes ==> verified == store.FaultAt(at) && store.calls == at + if Acknowledged(verified) then 2 else 1
      ensures passes && Acknowledged(verified) ==> published == store.FaultAt(at + 1)
      ensures Judged(store, limit, old(store.calls), Request(attempt, codeVerified, collected),
                     TablesOf(store, attempt), passes, at)
      ensures Grew(old(store.rows), store.rows, attempt) && Grew(old(store.members), store.members, attempt)
      ensures Grew(old(store.errors), store.errors, attempt)
    {
      ok, passes, verified, published, at := false, false, D.NoFault, D.NoFault, store.calls;
      if !codeVerified || collected.None? {
        return;
      }
      var good := Prepare(attempt, collected.value);
      passes, at := good, store.calls;
      if good {
        ok, verified, published := Publish(attempt, RowsDigest(store.digests, collected.value));
      }
    }

    /** The same with the failed row, if one is due. `life` is that of a run whose started row was acknowledged. */
    method Conclude(attempt: nat, codeVerified: bool, collected: Option<Collected>)
        returns (ok: bool, ghost life: Life, ghost at: nat)
      requires Empty(store, attempt)
      modifies store
      ensures Acknowledged(life.start) && (ok <==> Returns(life)) && at >= old(store.calls)
      ensures store.journal == Concluded(old(store.journal), life, attempt, DigestOf(store.digests, collected))
      ensures Met(life, D.NoFault, store.FaultAt(at), store.FaultAt(at + 1), store.FaultAt(at + 2))
      ensures Judged(store, limit, old(store.calls), Request(attempt, codeVerified, collected),
                     TablesOf(store, attempt), life.passes, at)
      ensures Grew(old(store.rows), store.rows, attempt) && Grew(old(store.members), store.members, attempt)
      ensures Grew(old(store.errors), store.errors, attempt)
    {
      ghost var passes, verified, published;
      ok, passes, verified, published, at := TryPublish(attempt, codeVerified, collected);
      life := Life(D.NoFault, passes, verified, published, store.FaultAt(store.calls));
      assert Met(life, D.NoFault, store.FaultAt(at), store.FaultAt(at + 1), store.FaultAt(at + 2));
      if !ok {
        ghost var failed;
        ok, failed := store.Append(State(attempt, Failed));
        ok := false;
      }
    }

    /** One attempt under any faults, any stale fast read and any lossy insert. What it leaves in the
        journal is exactly one of the lives described by `After`, the one that the store's faults give it,
        with the publication only where everything was attested. `at` is the call number of the verified
        row. Where inserts store what they are given and no call before it fails, `at` is known beforehand,
        and the run gets there exactly with the publishable results. */
    method Run(attempt: nat, codeVerified: bool, collected: Option<Collected>)
        returns (ok: bool, ghost life: Life, ghost at: nat)
      requires Empty(store, attempt)
      modifies store
      ensures ok <==> Returns(life)
      ensures store.journal == After(old(store.journal), life, attempt, DigestOf(store.digests, collected))
      ensures Met(life, store.FaultAt(old(store.calls)), store.FaultAt(at), store.FaultAt(at + 1),
                  store.FaultAt(at + 2))
      ensures Acknowledged(life.start) && life.passes ==> at > old(store.calls)
      ensures collected.Some? ==> Bounded(store.Lean(), TablesOf(store, attempt), collected.value)
      ensures Acknowledged(life.start) ==>
                Judged(store, limit, old(store.calls) + 1, Request(attempt, codeVerified, collected),
                       TablesOf(store, attempt), life.passes, at)
      ensures Grew(old(store.rows), store.rows, attempt) && Grew(old(store.members), store.members, attempt)
      ensures Grew(old(store.errors), store.errors, attempt)
    {
      at := 0;
      ghost var start;
      ok, start := store.Append(State(attempt, Started));
      life := Life(start, false, D.NoFault, D.NoFault, D.NoFault);
      if !ok {
        return;
      }
      ghost var journal := store.journal;
      ok, life, at := Conclude(attempt, codeVerified, collected);
      assert store.journal == Concluded(journal, life, attempt, DigestOf(store.digests, collected));
    }

    /** One attempt that nothing disturbs before its verified row: its outcome is foretold by the store's
        faults from there on. */
    method RunForetold(attempt: nat, codeVerified: bool, c: Collected) returns (ok: bool)
      requires Empty(store, attempt) && Unseen(store.journal, attempt)
      requires store.FaultAt(store.calls).NoFault? && Undisturbed(store, store.calls + 1, c)
      modifies store
      ensures Foretold(store, limit, old(store.calls), codeVerified, c, ok, Eligible(store.journal, attempt, true))
    {
      ghost var journal, from := store.journal, store.calls;
      ghost var life, at;
      ok, life, at := Run(attempt, codeVerified, Some(c));
      ghost var q := Request(attempt, codeVerified, Some(c));
      LifeForetold(store, limit, from, q, TablesOf(store, attempt), life, at, journal);
    }

    /** Any sequence of attempts, each with its own faults: every publication in the journal follows its
        attempt's verified row, is that attempt's only one, and rests on rows that are still attested. */
    method RunMany(requests: seq<Request>)
      requires forall i, j :: 0 <= i < j < |requests| ==> requests[i].attempt != requests[j].attempt
      requires forall i :: 0 <= i < |requests| ==> Untouched(store, requests[i].attempt)
      requires Gated(store.journal)
      modifies store
      ensures Gated(store.journal)
      ensures forall i :: 0 <= i < |requests| ==> PublishedOnlyAttested(store, requests[i], limit)
    {
      for k := 0 to |requests|
        invariant Gated(store.journal)
        invariant forall i :: k <= i < |requests| ==> Untouched(store, requests[i].attempt)
        invariant forall i :: 0 <= i < k ==> PublishedOnlyAttested(store, requests[i], limit)
      {
        ghost var before := store.journal;
        ghost var digest := DigestOf(store.digests, requests[k].collected);
        label start:
        var ok;
        ghost var life, at;
        ok, life, at := Run(requests[k].attempt, requests[k].codeVerified, requests[k].collected);
        RunKeepsGated(before, life, requests[k].attempt, digest);
        FreshSeesNothing(before, requests[k].attempt);
        AfterSeen(before, life, requests[k].attempt, digest);
        forall i | 0 <= i < |requests| && i != k
          ensures Publications(store.journal, requests[i].attempt) == Publications(before, requests[i].attempt)
          ensures Fresh(before, requests[i].attempt) ==> Fresh(store.journal, requests[i].attempt)
        {
          OtherAttempts(before, life, requests[k].attempt, digest, requests[i].attempt);
        }
        forall i | 0 <= i < k ensures PublishedOnlyAttested(store, requests[i], limit) {
          assert old@start(PublishedOnlyAttested(store, requests[i], limit));
        }
      }
    }
  }

  datatype Request = Request(attempt: nat, codeVerified: bool, collected: Option<Collected>)

  /** The store knows nothing of this attempt. */
  ghost predicate Untouched(store: CensusStore, attempt: nat)
    reads store
  {
    Fresh(store.journal, attempt) && Empty(store, attempt)
  }

  ghost predicate Empty(store: CensusStore, attempt: nat)
    reads store
  {
    At(store.rows, attempt) == [] && At(store.members, attempt) == [] && At(store.errors, attempt) == []
  }

  function DigestOf(d: Digesters, collected: Option<Collected>): Option<nat> {
    if collected.Some? then RowsDigest(d, collected.value) else None
  }

  /** Inserts store what they are given, no call from the first insert up to the verified row fails, and
      every snapshot of a token's universe can be digested. */
  ghost predicate Undisturbed(store: CensusStore, from: nat, c: Collected) {
    store.Quiet(from, PublishAt(store, from, c)) && SteadyUniverse(store.digests, c)
  }

  /** Whether an attempt gets to its verified row, and with which call number, after inserts that began with
      call number `from`: only with tables that attest what was collected. Where nothing disturbs it, exactly
      with the publishable results, and with a call number that is known beforehand. */
  ghost predicate Judged(store: CensusStore, limit: nat, from: nat, q: Request, t: Tables, passes: bool, at: nat) {
    && (passes ==> Backed(store.digests, store.Lean(), t, q, limit))
    && (q.collected.Some? ==> Bounded(store.Lean(), t, q.collected.value))
    && (q.collected.Some? && Undisturbed(store, from, q.collected.value) ==>
          && (passes <==> q.codeVerified && Publishable(store, from, q.collected.value, limit))
          && (passes ==> at == PublishAt(store, from, q.collected.value)))
  }

  /** The attempt returns exactly if a publishable result meets no fault on its last two calls. Readers see a
      publication of an attempt that raised exactly if the reply to the publication was lost and the failed
      row too. */
  ghost predicate Foretold(store: CensusStore, limit: nat, from: nat, codeVerified: bool, c: Collected, ok: bool,
      visible: bool)
  {
    var at, good := PublishAt(store, from + 1, c), codeVerified && Publishable(store, from + 1, c, limit);
    && (ok <==> good && store.FaultAt(at).NoFault? && store.FaultAt(at + 1).NoFault?)
    && (ok ==> visible)
    && (visible && !ok <==>
        good && LostInSilence(store.FaultAt(from), store.FaultAt(at), store.FaultAt(at + 1), store.FaultAt(at + 2)))
  }

  lemma {:induction false} LifeForetold(store: CensusStore, limit: nat, from: nat, q: Request, t: Tables, l: Life,
      at: nat, journal: seq<Entry>)
    requires q.collected.Some? && Undisturbed(store, from + 1, q.collected.value)
    requires store.FaultAt(from).NoFault? && Unseen(journal, q.attempt)
    requires Met(l, store.FaultAt(from), store.FaultAt(at), store.FaultAt(at + 1), store.FaultAt(at + 2))
    requires Judged(store, limit, from + 1, q, t, l.passes, at)
    ensures var c := q.collected.value;
            Foretold(store, limit, from, q.codeVerified, c, Returns(l),
                     Eligible(After(journal, l, q.attempt, RowsDigest(store.digests, c)), q.attempt, true))
  {
    var c := q.collected.value;
    VisibleIff(journal, l, q.attempt, RowsDigest(store.digests, c), store.FaultAt(from), store.FaultAt(at),
        store.FaultAt(at + 1), store.FaultAt(at + 2), true);
    assert l.passes ==> at == PublishAt(store, from + 1, c);
  }

  ghost predicate PublishedOnlyAttested(store: CensusStore, q: Request, limit: nat)
    reads store
  {
    Publications(store.journal, q.attempt) > 0 ==>
      Backed(store.digests, store.Lean(), TablesOf(store, q.attempt), q, limit)
  }

  /** The code was verified, and the tables attest what was collected. */
  ghost predicate Backed(d: Digesters, lean: bool, t: Tables, q: Request, limit: nat) {
    && q.codeVerified && q.collected.Some?
    && Attested(d, t, q.collected.value, limit) && Bounded(lean, t, q.collected.value)
  }

  lemma {:induction false} OtherAttempts(journal: seq<Entry>, l: Life, attempt: nat, digest: Option<nat>, other: nat)
    requires other != attempt
    ensures Publications(After(journal, l, attempt, digest), other) == Publications(journal, other)
    ensures Fresh(journal, other) ==> Fresh(After(journal, l, attempt, digest), other)
  {
    var j1 := Put(journal, Written(l.start), State(attempt, Started));
    var j2 := Put(j1, WroteVerified(l), State(attempt, Verified));
    var j3 := Put(j2, WrotePublication(l), Published(attempt, digest));
    Appended(journal, j1, Written(l.start), State(attempt, Started), other);
    Appended(j1, j2, WroteVerified(l), State(attempt, Verified), other);
    Appended(j2, j3, WrotePublication(l), Published(attempt, digest), other);
    Appended(j3, After(journal, l, attempt, digest), WroteFailed(l), State(attempt, Failed), other);
  }

  lemma {:induction false} Joined<T>(before: seq<T>, one: seq<T>, two: seq<T>, three: seq<T>, x: seq<T>, y: seq<T>,
      z: seq<T>)
    ensures one == before + x && two == one + y && three == two + z ==> three == Onto(before, x + y + z)
  {
  }

  lemma {:induction false} FlattenStep<T>(groups: seq<seq<T>>, g: nat)
    requires g < |groups|
    ensures Flatten(groups[..g + 1]) == Flatten(groups[..g]) + groups[g]
    ensures |Flatten(groups[..g + 1])| <= |Flatten(groups)|
  {
    assert groups[..g + 1][..g] == groups[..g];
    FlattenPrefix(groups, g + 1);
  }

  lemma {:induction false} FlattenPrefix<T>(groups: seq<seq<T>>, g: nat)
    requires g <= |groups|
    ensures |Flatten(groups[..g])| <= |Flatten(groups)|
  {
    assert groups == groups[..g] + groups[g..];
    FlattenConcat(groups[..g], groups[g..]);
  }
}
