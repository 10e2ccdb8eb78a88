/** `sorted` of a set of integers. */
module SortedSets {
  ghost predicate IsLeast(x: int, s: set<int>) {
    x in s && forall y :: y in s ==> x <= y
  }

  lemma {:induction false} Inhabited(s: set<int>)
    ensures s == {} || exists x :: x in s
  {
    if forall x :: x !in s {
      assert s == {};
    }
  }

  /** Every nonempty finite set of integers has a least element. */
  lemma {:induction false} LeastExists(s: set<int>)
    requires s != {}
    ensures exists x :: IsLeast(x, s)
  {
    Inhabited(s);
    var x :| x in s;
    if s == {x} {
      assert IsLeast(x, s);
    } else {
      var rest := s - {x};
      assert s == rest + {x} && rest != {};
      LeastExists(rest);
      var z :| IsLeast(z, rest);
      assert IsLeast(if x <= z then x else z, s);
    }
  }

  function Least(s: set<int>): (x: int)
    requires s != {}
    ensures x in s && forall y :: y in s ==> x <= y
  {
    assert exists x :: x in s && forall y :: y in s ==> x <= y by {
      LeastExists(s);
      var z :| IsLeast(z, s);
    }
    var x :| x in s && forall y :: y in s ==> x <= y;
    x
  }

  /** `sorted` of a set: its elements in ascending order, once each. */
  function SortedSet(s: set<int>): (r: seq<int>)
    ensures |r| == |s|
    ensures forall x :: x in r <==> x in s
    ensures forall i, j :: 0 <= i < j < |r| ==> r[i] < r[j]
  {
    if s == {} then [] else
      var x := Least(s);
      var rest := SortedSet(s - {x});
      LeastFirst(s, x, rest);
      [x] + rest
  }

  lemma {:induction false} LeastFirst(s: set<int>, x: int, rest: seq<int>)
    requires x in s && forall y :: y in s ==> x <= y
    requires |rest| == |s - {x}| && forall y :: y in rest <==> y in s - {x}
    requires forall i, j :: 0 <= i < j < |rest| ==> rest[i] < rest[j]
    ensures |[x] + rest| == |s| && forall y :: y in [x] + rest <==> y in s
    ensures forall i, j :: 0 <= i < j < |[x] + rest| ==> ([x] + rest)[i] < ([x] + rest)[j]
  {
    var all := [x] + rest;
    forall i, j | 0 <= i < j < |all| ensures all[i] < all[j] {
      var y := rest[j - 1];
      assert y in rest && y in s - {x};
      assert i > 0 ==> all[i] == rest[i - 1];
    }
    assert s == (s - {x}) + {x};
  }
}
