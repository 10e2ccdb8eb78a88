/** What a publication says about the stored rows, through the digests it rests on. */
module PublishedRows {
  import opened Wrappers
  import opened Bytes
  import opened Digests
  import opened Sorting
  import Census
  import opened Calls
  import opened Discovery

  type Hash = seq<Byte> -> nat

  ghost predicate Injective(hash: Hash) {
    forall x, y :: hash(x) == hash(y) ==> x == y
  }

  // ---- the rows of each table ----------------------------------------------------------------------

  function BalancesIn(rows: seq<Item>): seq<BalanceRow> {
    if rows == [] then [] else
      BalancesIn(rows[..|rows| - 1]) + if rows[|rows| - 1].Balance? then [rows[|rows| - 1].row] else []
  }

  function ScalarsIn(rows: seq<Item>): seq<ScalarRow> {
    if rows == [] then [] else
      ScalarsIn(rows[..|rows| - 1]) + if rows[|rows| - 1].Scalar? then [rows[|rows| - 1].scalar] else []
  }

  function PoolsIn(rows: seq<Item>): seq<PoolRow> {
    if rows == [] then [] else
      PoolsIn(rows[..|rows| - 1]) + if rows[|rows| - 1].Pool? then [rows[|rows| - 1].poolRow] else []
  }

  function TicksIn(rows: seq<Item>): seq<ClTick> {
    if rows == [] then [] else
      TicksIn(rows[..|rows| - 1]) + if rows[|rows| - 1].Tick? then [rows[|rows| - 1].tick] else []
  }

  lemma {:induction false} BalanceCount(rows: seq<Item>, b: BalanceRow)
    ensures multiset(BalancesIn(rows))[b] == multiset(rows)[Balance(b)]
  {
    if rows != [] {
      BalanceCount(rows[..|rows| - 1], b);
      assert rows == rows[..|rows| - 1] + [rows[|rows| - 1]];
    }
  }

  lemma {:induction false} ScalarCount(rows: seq<Item>, s: ScalarRow)
    ensures multiset(ScalarsIn(rows))[s] == multiset(rows)[Scalar(s)]
  {
    if rows != [] {
      ScalarCount(rows[..|rows| - 1], s);
      assert rows == rows[..|rows| - 1] + [rows[|rows| - 1]];
    }
  }

  lemma {:induction false} TickCount(rows: seq<Item>, t: ClTick)
    ensures multiset(TicksIn(rows))[t] == multiset(rows)[Tick(t)]
  {
    if rows != [] {
      TickCount(rows[..|rows| - 1], t);
      assert rows == rows[..|rows| - 1] + [rows[|rows| - 1]];
    }
  }

  // ---- tokens --------------------------------------------------------------------------------------

  predicate TokenKinds(rows: seq<Item>) {
    forall k :: 0 <= k < |rows| ==> rows[k].Balance? || rows[k].Scalar?
  }

  predicate InRange(rows: seq<Item>) {
    forall k :: 0 <= k < |rows| ==> Encodable(rows[k])
  }

  predicate TokenRows(rows: seq<Item>) {
    TokenKinds(rows) && InRange(rows)
  }

  lemma {:induction false} TokenPartsEncodable(rows: seq<Item>)
    requires TokenRows(rows)
    ensures TokenEncodable(BalancesIn(rows), ScalarsIn(rows))
  {
    if rows != [] {
      TokenPartsEncodable(rows[..|rows| - 1]);
      assert Encodable(rows[|rows| - 1]);
    }
  }

  /** The digest of a token's rows; it raises on a row out of range. */
  function TokenRowsDigest(hash: Hash, rows: seq<Item>): Option<nat> {
    if !TokenRows(rows) then None else
      TokenPartsEncodable(rows);
      TokenItemsEncodable(BalancesIn(rows), ScalarsIn(rows));
      Some(hash(Domain(TokenDigest) + Stream(TokenItems(BalancesIn(rows), ScalarsIn(rows)))))
  }

  lemma {:induction false} SameTokenRows(rows: seq<Item>, others: seq<Item>)
    requires TokenKinds(rows) && TokenKinds(others)
    requires multiset(BalancesIn(rows)) == multiset(BalancesIn(others))
    requires multiset(ScalarsIn(rows)) == multiset(ScalarsIn(others))
    ensures multiset(rows) == multiset(others)
  {
    forall i: Item ensures multiset(rows)[i] == multiset(others)[i] {
      SameTokenCount(rows, others, i);
    }
  }

  lemma {:induction false} SameTokenCount(rows: seq<Item>, others: seq<Item>, i: Item)
    requires TokenKinds(rows) && TokenKinds(others)
    requires multiset(BalancesIn(rows)) == multiset(BalancesIn(others))
    requires multiset(ScalarsIn(rows)) == multiset(ScalarsIn(others))
    ensures multiset(rows)[i] == multiset(others)[i]
  {
    if i.Balance? {
      BalanceCount(rows, i.row);
      BalanceCount(others, i.row);
    } else if i.Scalar? {
      ScalarCount(rows, i.scalar);
      ScalarCount(others, i.scalar);
    } else {
      assert i !in rows && i !in others;
    }
  }

  /** Balances and scalars that hash alike agree. */
  lemma {:induction false} TokenHashDetermines(hash: Hash, b: seq<BalanceRow>, s: seq<ScalarRow>, b': seq<BalanceRow>,
      s': seq<ScalarRow>)
    requires Injective(hash) && TokenEncodable(b, s) && TokenEncodable(b', s')
    requires InRange(TokenItems(b, s)) && InRange(TokenItems(b', s'))
    requires hash(Domain(TokenDigest) + Stream(TokenItems(b, s))) ==
             hash(Domain(TokenDigest) + Stream(TokenItems(b', s')))
    ensures multiset(b) == multiset(b') && multiset(s) == multiset(s')
  {
    TokenStreamCanonical(b, s, b', s');
    Peel(Domain(TokenDigest), Stream(TokenItems(b, s)), Domain(TokenDigest), Stream(TokenItems(b', s')));
  }

  lemma {:induction false} TokenDigestDetermines(hash: Hash, rows: seq<Item>, others: seq<Item>)
    requires Injective(hash) && TokenRowsDigest(hash, rows).Some?
    requires TokenRowsDigest(hash, rows) == TokenRowsDigest(hash, others)
    ensures multiset(rows) == multiset(others)
  {
    TokenPartsEncodable(rows);
    TokenPartsEncodable(others);
    TokenItemsEncodable(BalancesIn(rows), ScalarsIn(rows));
    TokenItemsEncodable(BalancesIn(others), ScalarsIn(others));
    TokenHashDetermines(hash, BalancesIn(rows), ScalarsIn(rows), BalancesIn(others), ScalarsIn(others));
    SameTokenRows(rows, others);
  }

  /** A snapshot that is a permutation of at least as many rows is all of them. */
  lemma {:induction false} WholeSnapshot<T>(stored: seq<T>, part: seq<T>, collected: seq<T>)
    requires Census.Sub(part, stored) && |stored| <= |collected| && multiset(part) == multiset(collected)
    ensures part == stored
  {
    assert |multiset(part)| == |part| && |multiset(collected)| == |collected|;
    Census.SubLength(part, stored);
  }

  /** A published token: whatever snapshot the read-back saw, and even if inserts dropped or altered
      rows, the stored rows are a permutation of the collected ones. */
  lemma {:induction false} PublishedTokenRows(hash: Hash, stored: seq<Item>, collected: seq<Item>)
    requires Injective(hash) && |stored| <= |collected|
    requires Census.Snapshot((rows: seq<Item>) => TokenRowsDigest(hash, rows), stored, TokenRowsDigest(hash, collected))
    ensures multiset(stored) == multiset(collected)
  {
    var part :| Census.Sub(part, stored) && TokenRowsDigest(hash, part) == TokenRowsDigest(hash, collected);
    TokenDigestDetermines(hash, part, collected);
    WholeSnapshot(stored, part, collected);
  }

  lemma {:induction false} TokenPart(part: seq<Item>, rows: seq<Item>)
    requires Census.Sub(part, rows) && TokenRows(rows)
    ensures TokenRows(part)
  {
    Census.SubLength(part, rows);
    forall k | 0 <= k < |part| ensures (part[k].Balance? || part[k].Scalar?) && Encodable(part[k]) {
      assert part[k] in rows;
    }
  }

  /** Every snapshot of a token's rows can be digested, so a stale fast read never blocks. */
  lemma {:induction false} TokenSteady(hash: Hash, rows: seq<Item>)
    requires TokenRowsDigest(hash, rows).Some?
    ensures Census.Steady((rs: seq<Item>) => TokenRowsDigest(hash, rs), rows)
  {
    forall part | Census.Sub(part, rows) ensures TokenRows(part) {
      TokenPart(part, rows);
    }
  }

  // ---- concentrated-liquidity pools ----------------------------------------------------------------

  /** A state row first, then ticks of its pool: what a CL attempt stores. */
  predicate ClRows(rows: seq<Item>) {
    && rows != [] && rows[0].State? && InRange(rows)
    && forall k :: 1 <= k < |rows| ==> rows[k].Tick? && rows[k].tick.pool == rows[0].state.pool
  }

  lemma {:induction false} ClPartsEncodable(rows: seq<Item>)
    requires ClRows(rows)
    ensures ClEncodable(rows[0].state, TicksIn(rows))
  {
    assert Encodable(rows[0]);
    if |rows| > 1 {
      assert Encodable(rows[|rows| - 1]);
      ClPartsEncodable(rows[..|rows| - 1]);
    } else {
      assert rows[..0] == [] && TicksIn(rows) == [];
    }
  }

  /** The digest of a CL pool's rows; it raises where the state row is missing, a tick names another
      pool, or a value is out of range. */
  function ClRowsDigest(hash: Hash, rows: seq<Item>): Option<nat> {
    if !ClRows(rows) then None else
      ClPartsEncodable(rows);
      ClItemsEncodable(rows[0].state, TicksIn(rows));
      Some(hash(Domain(ClDigest) + Stream(ClItems(rows[0].state, TicksIn(rows)))))
  }

  lemma {:induction false} ClLength(rows: seq<Item>)
    requires rows != [] && rows[0].State? && forall k :: 1 <= k < |rows| ==> rows[k].Tick?
    ensures |rows| == 1 + |TicksIn(rows)|
  {
    if |rows| > 1 {
      ClLength(rows[..|rows| - 1]);
    } else {
      assert rows[..0] == [] && TicksIn(rows) == [];
    }
  }

  lemma {:induction false} ClDigestDetermines(hash: Hash, rows: seq<Item>, others: seq<Item>)
    requires Injective(hash) && ClRowsDigest(hash, rows).Some? && ClRowsDigest(hash, rows) == ClRowsDigest(hash, others)
    ensures rows[0].state == others[0].state && multiset(TicksIn(rows)) == multiset(TicksIn(others))
  {
    var s, t, s', t' := rows[0].state, TicksIn(rows), others[0].state, TicksIn(others);
    ClPartsEncodable(rows);
    ClPartsEncodable(others);
    ClStreamDetermines(s, t, s', t');
    Peel(Domain(ClDigest), Stream(ClItems(s, t)), Domain(ClDigest), Stream(ClItems(s', t')));
    SortedTicks(t, t');
  }

  lemma {:induction false} SortedTicks(t: seq<ClTick>, t': seq<ClTick>)
    requires Sort(t, TickLe) == Sort(t', TickLe)
    ensures multiset(t) == multiset(t')
  {
    TickOrder();
    SortCorrect(t, TickLe);
    SortCorrect(t', TickLe);
  }

  /** A published CL pool: the stored state is the collected one, and the stored ticks are a permutation
      of the collected ticks. */
  lemma {:induction false} PublishedClRows(hash: Hash, stored: seq<Item>, collected: seq<Item>)
    requires Injective(hash) && |stored| <= |collected|
    requires Census.Snapshot((rows: seq<Item>) => ClRowsDigest(hash, rows), stored, ClRowsDigest(hash, collected))
    ensures ClRows(stored) && ClRows(collected)
    ensures stored[0].state == collected[0].state && multiset(TicksIn(stored)) == multiset(TicksIn(collected))
  {
    var part :| Census.Sub(part, stored) && ClRowsDigest(hash, part) == ClRowsDigest(hash, collected);
    ClDigestDetermines(hash, part, collected);
    SameLength(TicksIn(part), TicksIn(collected));
    ClLength(part);
    ClLength(collected);
    Census.SubLength(part, stored);
  }

  lemma {:induction false} SameLength(t: seq<ClTick>, t': seq<ClTick>)
    requires multiset(t) == multiset(t')
    ensures |t| == |t'|
  {
    assert |multiset(t)| == |t| && |multiset(t')| == |t'|;
  }

  /** In a snapshot of a CL attempt's rows only the state row can come first without being a tick. */
  lemma {:induction false} ClPart(part: seq<Item>, rows: seq<Item>)
    requires Census.Sub(part, rows) && ClRows(rows)
    ensures forall k :: 0 <= k < |part| ==> Encodable(part[k])
    ensures forall k :: 1 <= k < |part| ==> part[k].Tick? && part[k].tick.pool == rows[0].state.pool
    ensures part != [] ==> part[0] == rows[0] || part[0].Tick?
  {
    if part != [] {
      var n, m := |part| - 1, |rows| - 1;
      assert Encodable(rows[m]);
      if m == 0 {
        Census.SubLength(part, rows);
      } else if part[n] == rows[m] && Census.Sub(part[..n], rows[..m]) {
        ClPart(part[..n], rows[..m]);
        assert part == part[..n] + [rows[m]];
      } else {
        ClPart(part, rows[..m]);
      }
    }
  }

  /** A snapshot of a CL attempt's rows can be digested exactly when it includes the state row: a fast
      read that misses it raises, and the attempt fails although its rows are good. */
  lemma {:induction false} ClSnapshotIff(hash: Hash, rows: seq<Item>, part: seq<Item>)
    requires ClRowsDigest(hash, rows).Some? && Census.Sub(part, rows)
    ensures ClRowsDigest(hash, part).Some? <==> rows[0] in part
  {
    ClPart(part, rows);
    if rows[0] in part {
      var k :| 0 <= k < |part| && part[k] == rows[0];
    }
  }

  lemma {:induction false} StateSeen(hidden: set<nat>, rows: seq<Item>)
    requires ClRows(rows)
    ensures rows[0] in Census.View(hidden, rows) <==> 0 !in hidden
  {
    var m := |rows| - 1;
    if m == 0 {
      assert rows[..0] == [];
    } else {
      StateSeen(hidden, rows[..m]);
      assert rows[..m][0] == rows[0] && rows[m] != rows[0];
    }
  }

  // ---- reserve pools -------------------------------------------------------------------------------

  predicate PoolRows(rows: seq<Item>) {
    InRange(rows) && forall k :: 0 <= k < |rows| ==> rows[k].Pool?
  }

  lemma {:induction false} PoolParts(rows: seq<Item>)
    requires PoolRows(rows)
    ensures forall r :: r in PoolsIn(rows) ==> Encodable(Pool(r))
  {
    if rows != [] {
      PoolParts(rows[..|rows| - 1]);
      assert Encodable(rows[|rows| - 1]);
    }
  }

  /** The digest of a reserve pool's rows. */
  function PoolRowsDigest(hash: Hash, rows: seq<Item>): Option<nat> {
    if !PoolRows(rows) then None else
      PoolParts(rows);
      PoolItemsEncodable(PoolsIn(rows));
      Some(hash(Domain(PoolDigest) + Stream(Pools(Sort(PoolsIn(rows), PoolLe)))))
  }

  lemma {:induction false} PoolCount(rows: seq<Item>, p: PoolRow)
    ensures multiset(PoolsIn(rows))[p] == multiset(rows)[Pool(p)]
  {
    if rows != [] {
      PoolCount(rows[..|rows| - 1], p);
      assert rows == rows[..|rows| - 1] + [rows[|rows| - 1]];
    }
  }

  lemma {:induction false} PoolHashDetermines(hash: Hash, p: seq<PoolRow>, p': seq<PoolRow>)
    requires Injective(hash)
    requires (forall r :: r in p ==> Encodable(Pool(r))) && forall r :: r in p' ==> Encodable(Pool(r))
    requires InRange(Pools(Sort(p, PoolLe))) && InRange(Pools(Sort(p', PoolLe)))
    requires hash(Domain(PoolDigest) + Stream(Pools(Sort(p, PoolLe)))) ==
             hash(Domain(PoolDigest) + Stream(Pools(Sort(p', PoolLe))))
    ensures multiset(p) == multiset(p')
  {
    PoolStreamCanonical(p, p');
    Peel(Domain(PoolDigest), Stream(Pools(Sort(p, PoolLe))), Domain(PoolDigest), Stream(Pools(Sort(p', PoolLe))));
  }

  lemma {:induction false} PoolDigestDetermines(hash: Hash, rows: seq<Item>, others: seq<Item>)
    requires Injective(hash) && PoolRowsDigest(hash, rows).Some?
    requires PoolRowsDigest(hash, rows) == PoolRowsDigest(hash, others)
    ensures multiset(rows) == multiset(others)
  {
    PoolParts(rows);
    PoolParts(others);
    PoolItemsEncodable(PoolsIn(rows));
    PoolItemsEncodable(PoolsIn(others));
    PoolHashDetermines(hash, PoolsIn(rows), PoolsIn(others));
    forall i: Item ensures multiset(rows)[i] == multiset(others)[i] {
      SamePoolCount(rows, others, i);
    }
  }

  lemma {:induction false} SamePoolCount(rows: seq<Item>, others: seq<Item>, i: Item)
    requires forall k :: 0 <= k < |rows| ==> rows[k].Pool?
    requires forall k :: 0 <= k < |others| ==> others[k].Pool?
    requires multiset(PoolsIn(rows)) == multiset(PoolsIn(others))
    ensures multiset(rows)[i] == multiset(others)[i]
  {
    if i.Pool? {
      PoolCount(rows, i.poolRow);
      PoolCount(others, i.poolRow);
    } else {
      assert i !in rows && i !in others;
    }
  }

  /** A published reserve pool: the stored rows are a permutation of the collected ones. */
  lemma {:induction false} PublishedPoolRows(hash: Hash, stored: seq<Item>, collected: seq<Item>)
    requires Injective(hash) && |stored| <= |collected|
    requires Census.Snapshot((rows: seq<Item>) => PoolRowsDigest(hash, rows), stored, PoolRowsDigest(hash, collected))
    ensures multiset(stored) == multiset(collected)
  {
    var part :| Census.Sub(part, stored) && PoolRowsDigest(hash, part) == PoolRowsDigest(hash, collected);
    PoolDigestDetermines(hash, part, collected);
    WholeSnapshot(stored, part, collected);
  }

  // ---- universes -----------------------------------------------------------------------------------

  /** The digest of a universe's rows; it raises on a repeated address or a value out of range. */
  function UniverseRowsDigest(hash: Hash, members: seq<MemberRow>): Option<nat> {
    if !DistinctAddresses(members) then None
    else if exists k :: 0 <= k < |UniverseItems(members)| && !Encodable(UniverseItems(members)[k]) then None
    else Some(hash(Domain(UniverseDigest) + Stream(UniverseItems(members))))
  }

  function AddressSet(m: seq<MemberRow>): set<nat> {
    set k | 0 <= k < |m| :: m[k].address
  }

  lemma {:induction false} AddressCount(m: seq<MemberRow>)
    requires DistinctAddresses(m)
    ensures |AddressSet(m)| == |m|
  {
    if m != [] {
      var front, last := m[..|m| - 1], m[|m| - 1];
      AddressCount(front);
      assert forall k :: 0 <= k < |front| ==> front[k] == m[k];
      assert AddressSet(m) == AddressSet(front) + {last.address};
      assert last.address !in AddressSet(front);
    }
  }

  lemma {:induction false} SameUniverseSize(m: seq<MemberRow>, m': seq<MemberRow>)
    requires DistinctAddresses(m) && DistinctAddresses(m') && SameUniverse(m, m')
    ensures |m| == |m'|
  {
    AddressCount(m);
    AddressCount(m');
    forall a: nat ensures a in AddressSet(m) <==> a in AddressSet(m') {
      assert HasMember(m, a) <==> HasMember(m', a);
      if k :| 0 <= k < |m| && m[k].address == a {
        assert m[k] in m;
      }
      if k :| 0 <= k < |m'| && m'[k].address == a {
        assert m'[k] in m';
      }
    }
    assert AddressSet(m) == AddressSet(m');
  }

  /** A published token: the stored universe is the resolved one. */
  lemma {:induction false} PublishedUniverse(hash: Hash, stored: seq<MemberRow>, resolved: seq<MemberRow>)
    requires Injective(hash) && |stored| <= |resolved|
    requires Census.Snapshot((m: seq<MemberRow>) => UniverseRowsDigest(hash, m), stored,
               UniverseRowsDigest(hash, resolved))
    ensures SameUniverse(stored, resolved)
  {
    var seen :| Census.Sub(seen, stored) && UniverseRowsDigest(hash, seen) == UniverseRowsDigest(hash, resolved);
    Peel(Domain(UniverseDigest), Stream(UniverseItems(seen)), Domain(UniverseDigest), Stream(UniverseItems(resolved)));
    UniverseStreamCanonical(seen, resolved);
    SameUniverseSize(seen, resolved);
    Census.SubLength(seen, stored);
  }

  /** Every snapshot of a universe's rows can be digested. */
  lemma {:induction false} UniverseSteady(hash: Hash, members: seq<MemberRow>)
    requires UniverseRowsDigest(hash, members).Some?
    ensures Census.Steady((m: seq<MemberRow>) => UniverseRowsDigest(hash, m), members)
  {
    forall part | Census.Sub(part, members) ensures UniverseRowsDigest(hash, part).Some? {
      UniversePart(hash, members, part);
    }
  }

  lemma {:induction false} DistinctPart(part: seq<MemberRow>, members: seq<MemberRow>)
    requires Census.Sub(part, members) && DistinctAddresses(members)
    ensures DistinctAddresses(part)
  {
    if part != [] {
      var n, m := |part| - 1, |members| - 1;
      assert DistinctAddresses(members[..m]);
      if part[n] == members[m] && Census.Sub(part[..n], members[..m]) {
        DistinctPart(part[..n], members[..m]);
        Census.SubLength(part[..n], members[..m]);
        forall i | 0 <= i < n ensures part[i].address != part[n].address {
          assert part[..n][i] in members[..m];
          var k :| 0 <= k < m && members[k] == part[i];
        }
      } else {
        DistinctPart(part, members[..m]);
      }
    }
  }

  lemma {:induction false} UniversePart(hash: Hash, members: seq<MemberRow>, part: seq<MemberRow>)
    requires UniverseRowsDigest(hash, members).Some? && Census.Sub(part, members)
    ensures UniverseRowsDigest(hash, part).Some?
  {
    DistinctPart(part, members);
    Census.SubLength(part, members);
    var seen, all := UniverseItems(part), UniverseItems(members);
    UniverseItemsAre(part);
    UniverseItemsAre(members);
    forall k | 0 <= k < |seen| ensures Encodable(seen[k]) {
      assert seen[k] in seen;
      var r :| r in part && MemberItem(r) == seen[k];
      assert r in members && seen[k] in all;
      var j :| 0 <= j < |all| && all[j] == seen[k];
    }
  }

  // ---- from a publication to the rows --------------------------------------------------------------

  /** What the tables of a published attempt hold, by kind of target. */
  ghost predicate HoldsCollected(stored: seq<Item>, collected: seq<Item>, target: Census.Target) {
    match target
    case ClTarget =>
      && ClRows(stored) && ClRows(collected) && stored[0].state == collected[0].state
      && multiset(TicksIn(stored)) == multiset(TicksIn(collected))
    case _ => multiset(stored) == multiset(collected)
  }

  function RowsDigest(hash: Hash, target: Census.Target, rows: seq<Item>): Option<nat> {
    match target
    case TokenTarget => TokenRowsDigest(hash, rows)
    case PoolTarget => PoolRowsDigest(hash, rows)
    case ClTarget => ClRowsDigest(hash, rows)
  }

  lemma {:induction false} PublishedRowsHold(hash: Hash, target: Census.Target, stored: seq<Item>, collected: seq<Item>)
    requires Injective(hash) && |stored| <= |collected|
    requires Census.Snapshot((rows: seq<Item>) => RowsDigest(hash, target, rows), stored,
               RowsDigest(hash, target, collected))
    ensures HoldsCollected(stored, collected, target)
  {
    var part :| Census.Sub(part, stored) && RowsDigest(hash, target, part) == RowsDigest(hash, target, collected);
    match target {
      case TokenTarget => PublishedTokenRows(hash, stored, collected);
      case PoolTarget => PublishedPoolRows(hash, stored, collected);
      case ClTarget => PublishedClRows(hash, stored, collected);
    }
  }

  /** The store reads back with the program's own digests. */
  ghost predicate DigestsWith(d: Census.Digesters, hash: Hash) {
    && (forall target, rows {:trigger RowsDigest(hash, target, rows)} ::
          Census.DigestRows(d, target, rows) == RowsDigest(hash, target, rows))
    && forall m {:trigger UniverseRowsDigest(hash, m)} :: Census.DigestMembers(d, m) == UniverseRowsDigest(hash, m)
  }

  lemma {:induction false} SnapshotOfRows(d: Census.Digesters, hash: Hash, target: Census.Target, stored: seq<Item>,
      collected: seq<Item>)
    requires DigestsWith(d, hash)
    requires Census.Snapshot(Census.RowDigester(d, target), stored, Census.DigestRows(d, target, collected))
    ensures Census.Snapshot((rows: seq<Item>) => RowsDigest(hash, target, rows), stored,
              RowsDigest(hash, target, collected))
  {
    var part :| Census.Sub(part, stored) &&
        Census.RowDigester(d, target)(part) == Census.DigestRows(d, target, collected);
    assert Census.DigestRows(d, target, part) == RowsDigest(hash, target, part);
  }

  lemma {:induction false} SnapshotOfMembers(d: Census.Digesters, hash: Hash, stored: seq<MemberRow>,
      m: seq<MemberRow>)
    requires DigestsWith(d, hash) && Census.Snapshot(d.members, stored, Census.DigestMembers(d, m))
    ensures Census.Snapshot((x: seq<MemberRow>) => UniverseRowsDigest(hash, x), stored, UniverseRowsDigest(hash, m))
  {
    var part :| Census.Sub(part, stored) && d.members(part) == Census.DigestMembers(d, m);
    assert Census.DigestMembers(d, part) == UniverseRowsDigest(hash, part);
  }

  /** Tables that attest what was collected hold it: the rows and, for a token, the universe. */
  lemma {:induction false} BackedRowsHold(d: Census.Digesters, t: Census.Tables, q: Census.Request, limit: nat,
      hash: Hash)
    requires Injective(hash) && DigestsWith(d, hash) && Census.Backed(d, true, t, q, limit)
    ensures var c := q.collected.value;
            && HoldsCollected(t.rows, Census.AllRows(c), c.target)
            && (Census.IsToken(c) ==> SameUniverse(t.members, c.members))
  {
    var c := q.collected.value;
    SnapshotOfRows(d, hash, c.target, t.rows, Census.AllRows(c));
    PublishedRowsHold(hash, c.target, t.rows, Census.AllRows(c));
    if Census.IsToken(c) {
      SnapshotOfMembers(d, hash, t.members, c.members);
      PublishedUniverse(hash, t.members, c.members);
    }
  }

  /** From the journal to the tables: whatever faults, stale reads and lossy inserts the runs met, if a
      publication of the attempt is in the journal then its stored rows and universe are the collected
      ones. Attempts of all kinds of target share the store. */
  lemma {:induction false} PublicationMeans(store: Census.CensusStore, q: Census.Request, limit: nat, hash: Hash)
    requires Injective(hash) && DigestsWith(store.digests, hash) && store.Lean()
    requires Census.PublishedOnlyAttested(store, q, limit) && Census.Publications(store.journal, q.attempt) > 0
    ensures q.codeVerified && q.collected.Some? && Census.CollectorVerified(q.collected.value)
    ensures var c := q.collected.value;
            && HoldsCollected(Census.At(store.rows, q.attempt), Census.AllRows(c), c.target)
            && (Census.IsToken(c) ==> SameUniverse(Census.At(store.members, q.attempt), c.members))
  {
    BackedRowsHold(store.digests, Census.TablesOf(store, q.attempt), q, limit, hash);
  }

  // ---- which good results a healthy store publishes --------------------------------------------------

  lemma {:induction false} DigestIs(d: Census.Digesters, hash: Hash, target: Census.Target, rows: seq<Item>)
    requires DigestsWith(d, hash)
    ensures Census.DigestRows(d, target, rows) == RowsDigest(hash, target, rows)
  {
  }

  /** What can be digested of a token's rows, all of them and those that are not hidden. */
  lemma {:induction false} TokenDigestible(d: Census.Digesters, hash: Hash, rows: seq<Item>, hidden: set<nat>)
    requires DigestsWith(d, hash)
    ensures (&& Census.DigestRows(d, Census.TokenTarget, rows).Some?
             && Census.DigestRows(d, Census.TokenTarget, Census.View(hidden, rows)).Some?) <==> TokenRows(rows)
  {
    DigestIs(d, hash, Census.TokenTarget, rows);
    DigestIs(d, hash, Census.TokenTarget, Census.View(hidden, rows));
    if TokenRows(rows) {
      Census.ViewSub(hidden, rows);
      TokenPart(Census.View(hidden, rows), rows);
    }
  }

  lemma {:induction false} ClDigestible(d: Census.Digesters, hash: Hash, rows: seq<Item>, hidden: set<nat>)
    requires DigestsWith(d, hash)
    ensures (&& Census.DigestRows(d, Census.ClTarget, rows).Some?
             && Census.DigestRows(d, Census.ClTarget, Census.View(hidden, rows)).Some?) <==>
            ClRows(rows) && 0 !in hidden
  {
    DigestIs(d, hash, Census.ClTarget, rows);
    DigestIs(d, hash, Census.ClTarget, Census.View(hidden, rows));
    if ClRows(rows) {
      Census.ViewSub(hidden, rows);
      ClSnapshotIff(hash, rows, Census.View(hidden, rows));
      StateSeen(hidden, rows);
    }
  }

  /** A verified token whose rows are in range is published whatever the fast read-back sees. */
  lemma {:induction false} TokenPublishable(store: Census.CensusStore, hash: Hash, from: nat, c: Census.Collected,
      limit: nat)
    requires DigestsWith(store.digests, hash) && c.target.TokenTarget?
    ensures Census.Publishable(store, from, c, limit) <==>
            Census.CollectorVerified(c) && Census.SumFits(c, limit) && TokenRows(Census.AllRows(c))
  {
    TokenDigestible(store.digests, hash, Census.AllRows(c), store.HiddenAt(from + Census.InsertCalls(c)));
  }

  /** A verified CL pool whose rows are in order is published exactly when the fast read-back sees the
      state row. */
  lemma {:induction false} ClPublishable(store: Census.CensusStore, hash: Hash, from: nat, c: Census.Collected,
      limit: nat)
    requires DigestsWith(store.digests, hash) && c.target.ClTarget?
    ensures Census.Publishable(store, from, c, limit) <==>
            && Census.CollectorVerified(c) && ClRows(Census.AllRows(c))
            && 0 !in store.HiddenAt(from + Census.InsertCalls(c))
  {
    ClDigestible(store.digests, hash, Census.AllRows(c), store.HiddenAt(from + Census.InsertCalls(c)));
  }

  // ---- runs that end badly -----------------------------------------------------------------------------

  /** A verified CL result: the state row in an insert of its own, then the ticks. */
  function ClResult(rows: seq<Item>): (c: Census.Collected)
    requires ClRows(rows)
    ensures Census.AllRows(c) == rows
  {
    assert [[rows[0]]][..0] == [] && Flatten([[rows[0]]]) == [rows[0]];
    Census.Collected(Census.ClTarget, false, [], [[rows[0]]], rows[1..], [], [], [true], [true])
  }

  method ProgramDigests(hash: Hash) returns (d: Census.Digesters)
    ensures DigestsWith(d, hash)
  {
    d := Census.Digesters(target => rows => RowsDigest(hash, target, rows), m => UniverseRowsDigest(hash, m));
  }

  /** A verified CL attempt against a store in which nothing fails and the fast read-back misses the rows at
      some places: it is published if and only if the state row is not among them. */
  method RunClAttempt(hash: Hash, rows: seq<Item>, hidden: set<nat>) returns (ok: bool)
    requires ClRows(rows)
    ensures ok <==> 0 !in hidden
  {
    var c := ClResult(rows);
    var digests := ProgramDigests(hash);
    var store := new Census.CensusStore(map[], (k, chunk) => chunk, (k, more) => more,
                                        map[1 + Census.InsertCalls(c) := hidden], digests);
    var service := new Census.CensusService(store, 0);
    ClPublishable(store, hash, 1, c, 0);
    ok := service.RunForetold(0, true, c);
  }

  /** A store that keeps everything and whose only faults are those of call `at` and the next two. */
  method LosingStore(d: Census.Digesters, at: nat, first: Fault, second: Fault, third: Fault)
      returns (store: Census.CensusStore)
    ensures fresh(store) && Census.Empty(store, 0) && store.journal == [] && store.calls == 0
    ensures store.hidden == map[] && store.digests == d
    ensures store.Quiet(0, at)
    ensures store.FaultAt(at) == first && store.FaultAt(at + 1) == second && store.FaultAt(at + 2) == third
  {
    store := new Census.CensusStore(map[at := first, at + 1 := second, at + 2 := third],
                                    (k, chunk) => chunk, (k, more) => more, map[], d);
  }

  /** A verified CL attempt that reaches its verified row, with any faults from there on. It returns if and
      only if the verified row and the publication are acknowledged. Readers see its publication although
      it raised if and only if the reply to the publication is lost and the failed row is lost. */
  method RunLosingMessages(hash: Hash, rows: seq<Item>, verified: Fault, published: Fault, failed: Fault)
      returns (ok: bool, visible: bool)
    requires ClRows(rows)
    ensures ok <==> verified.NoFault? && published.NoFault?
    ensures visible && !ok <==> verified.NoFault? && published.LostReply? && failed.LostRequest?
    ensures ok ==> visible
  {
    var c := ClResult(rows);
    var digests := ProgramDigests(hash);
    var at := Census.InsertCalls(c) + 3;
    var store := LosingStore(digests, at, verified, published, failed);
    var service := new Census.CensusService(store, 0);
    Census.UnhiddenPublishAt(store, 1, c);
    ClPublishable(store, hash, 1, c, 0);
    ok := service.RunForetold(0, true, c);
    visible := Census.Eligible(store.journal, 0, true);
  }
}
