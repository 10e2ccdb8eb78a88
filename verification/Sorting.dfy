/** Python's `sorted`: a stable sort by a total preorder, and what it determines. */
module Sorting {

  ghost predicate TotalPreorder<T(!new)>(le: (T, T) -> bool) {
    && (forall x, y :: le(x, y) || le(y, x))
    && (forall x, y, z :: le(x, y) && le(y, z) ==> le(x, z))
  }

  ghost predicate SortedBy<T>(s: seq<T>, le: (T, T) -> bool) {
    forall i, j :: 0 <= i < j < |s| ==> le(s[i], s[j])
  }

  ghost predicate Distinct<T>(s: seq<T>) {
    forall i, j :: 0 <= i < j < |s| ==> s[i] != s[j]
  }

  /** Places `x` before the first element it does not exceed, so that ties keep `x` first. */
  function Insert<T>(x: T, s: seq<T>, le: (T, T) -> bool): seq<T> {
    if s == [] || le(x, s[0]) then [x] + s else [s[0]] + Insert(x, s[1..], le)
  }

  function Sort<T>(s: seq<T>, le: (T, T) -> bool): seq<T> {
    if s == [] then [] else Insert(s[0], Sort(s[1..], le), le)
  }

  lemma {:induction false} InsertMultiset<T>(x: T, s: seq<T>, le: (T, T) -> bool)
    ensures multiset(Insert(x, s, le)) == multiset{x} + multiset(s)
  {
    if s == [] || le(x, s[0]) {
    } else {
      InsertMultiset(x, s[1..], le);
      assert s == [s[0]] + s[1..];
    }
  }

  lemma {:induction false} InsertSorted<T(!new)>(x: T, s: seq<T>, le: (T, T) -> bool)
    requires TotalPreorder(le) && SortedBy(s, le)
    ensures SortedBy(Insert(x, s, le), le)
  {
    if s == [] {
    } else if le(x, s[0]) {
    } else {
      var t := Insert(x, s[1..], le);
      InsertSorted(x, s[1..], le);
      InsertMultiset(x, s[1..], le);
      forall j | 0 <= j < |t| ensures le(s[0], t[j]) {
        assert t[j] in multiset(t);
      }
    }
  }

  /** Sorting permutes its input into order. */
  lemma {:induction false} SortCorrect<T(!new)>(s: seq<T>, le: (T, T) -> bool)
    requires TotalPreorder(le)
    ensures SortedBy(Sort(s, le), le)
    ensures multiset(Sort(s, le)) == multiset(s)
    ensures |Sort(s, le)| == |s|
    ensures forall x :: x in Sort(s, le) <==> x in s
  {
    if s != [] {
      SortCorrect(s[1..], le);
      InsertSorted(s[0], Sort(s[1..], le), le);
      InsertMultiset(s[0], Sort(s[1..], le), le);
      assert s == [s[0]] + s[1..];
    }
    SameMultiset(Sort(s, le), s);
  }

  lemma {:induction false} SameMultiset<T>(s: seq<T>, t: seq<T>)
    requires multiset(s) == multiset(t)
    ensures |s| == |t| && forall x :: x in s <==> x in t
  {
    assert |multiset(s)| == |s| && |multiset(t)| == |t|;
    forall x ensures x in s <==> x in t {
      assert x in s <==> x in multiset(s);
      assert x in t <==> x in multiset(t);
    }
  }

  /** A sorted sequence is a fixed point of sorting. */
  lemma {:induction false} SortOfSorted<T>(s: seq<T>, le: (T, T) -> bool)
    requires SortedBy(s, le)
    ensures Sort(s, le) == s
  {
    if s != [] {
      SortOfSorted(s[1..], le);
    }
  }

  /** The order of the input is irrelevant wherever ties are identical elements. */
  lemma {:induction false} SortedUnique<T(!new)>(s: seq<T>, t: seq<T>, le: (T, T) -> bool)
    requires SortedBy(s, le) && SortedBy(t, le) && multiset(s) == multiset(t)
    requires forall x, y :: x in s && y in s && le(x, y) && le(y, x) ==> x == y
    ensures s == t
  {
    SameMultiset(s, t);
    if s != [] {
      SameHead(s, t, le);
      TailMultiset(s);
      TailMultiset(t);
      SortedUnique(s[1..], t[1..], le);
    }
  }

  lemma {:induction false} SameHead<T(!new)>(s: seq<T>, t: seq<T>, le: (T, T) -> bool)
    requires SortedBy(s, le) && SortedBy(t, le) && s != [] && t != [] && s[0] in t && t[0] in s
    requires forall x, y :: x in s && y in s && le(x, y) && le(y, x) ==> x == y
    ensures s[0] == t[0]
  {
  }

  lemma {:induction false} TailMultiset<T>(s: seq<T>)
    requires s != []
    ensures multiset(s[1..]) == multiset(s) - multiset{s[0]}
  {
    assert s == [s[0]] + s[1..];
  }

  lemma {:induction false} SortPermutation<T(!new)>(s: seq<T>, t: seq<T>, le: (T, T) -> bool)
    requires TotalPreorder(le) && multiset(s) == multiset(t)
    requires forall x, y :: x in s && y in s && le(x, y) && le(y, x) ==> x == y
    ensures Sort(s, le) == Sort(t, le)
  {
    SortCorrect(s, le);
    SortCorrect(t, le);
    SortedUnique(Sort(s, le), Sort(t, le), le);
  }

  lemma {:induction false} DistinctMultiset<T>(s: seq<T>, t: seq<T>)
    requires multiset(s) == multiset(t) && Distinct(s)
    ensures Distinct(t)
  {
    SameMultiset(s, t);
    forall i, j | 0 <= i < j < |t| ensures t[i] != t[j] {
      if t[i] == t[j] {
        assert t == t[..i] + [t[i]] + t[i + 1..j] + [t[j]] + t[j + 1..];
        assert multiset(t)[t[i]] >= 2;
        DistinctCount(s, t[i]);
      }
    }
  }

  lemma {:induction false} DistinctCount<T>(s: seq<T>, x: T)
    requires Distinct(s)
    ensures multiset(s)[x] <= 1
  {
    if s != [] {
      assert s == [s[0]] + s[1..];
      DistinctCount(s[1..], x);
      if s[0] == x {
        assert x !in s[1..];
      }
    }
  }

  lemma {:induction false} DistinctSameElements<T(!new)>(s: seq<T>, t: seq<T>)
    requires Distinct(s) && Distinct(t) && forall x :: x in s <==> x in t
    ensures multiset(s) == multiset(t)
  {
    forall x ensures multiset(s)[x] == multiset(t)[x] {
      DistinctCount(s, x);
      DistinctCount(t, x);
      assert x in s <==> x in multiset(s);
      assert x in t <==> x in multiset(t);
    }
  }
}
