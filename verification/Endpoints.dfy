/** Health-aware endpoint selection and distinct-provider quorum selection. */
module Endpoints {
  import opened Wrappers

  datatype Endpoint = Endpoint(name: string, group: string, supportsEip1898: bool)

  predicate Eligible(e: Endpoint, serves: Endpoint -> bool, requireEip1898: bool, exclude: set<string>) {
    e.name !in exclude && (requireEip1898 ==> e.supportsEip1898) && serves(e)
  }

  /** The provider groups that can serve right now. */
  function ServingGroups(endpoints: seq<Endpoint>, serves: Endpoint -> bool): set<string> {
    set e | e in endpoints && serves(e) :: e.group
  }

  /** The endpoint reached after skipping `offset` from `start`, cyclically. */
  function Turn(endpoints: seq<Endpoint>, start: nat, offset: nat): Endpoint
    requires endpoints != []
  {
    endpoints[(start + offset) % |endpoints|]
  }

  ghost predicate NoneBefore(endpoints: seq<Endpoint>, start: nat, offset: nat, serves: Endpoint -> bool,
                             requireEip1898: bool, exclude: set<string>)
    requires endpoints != []
  {
    forall o: nat :: o < offset ==> !Eligible(Turn(endpoints, start, o), serves, requireEip1898, exclude)
  }

  class EndpointPool {
    const endpoints: seq<Endpoint>
    var cursor: nat

    ghost predicate Valid()
      reads this
    {
      cursor < |endpoints|
    }

    constructor (endpoints: seq<Endpoint>)
      requires endpoints != []
      ensures Valid() && this.endpoints == endpoints
    {
      this.endpoints, cursor := endpoints, 0;
    }

    /** Round robin: the first eligible endpoint from the cursor on, or none if there is none at all. */
    method Select(serves: Endpoint -> bool, requireEip1898: bool, exclude: set<string>)
      returns (r: Option<Endpoint>, ghost skipped: nat)
      requires Valid()
      modifies this
      ensures Valid()
      ensures r.None? <==> forall e :: e in endpoints ==> !Eligible(e, serves, requireEip1898, exclude)
      ensures r.None? ==> cursor == old(cursor)
      ensures r.Some? ==> r.value in endpoints && Eligible(r.value, serves, requireEip1898, exclude)
      ensures r.Some? ==>
                r.value == Turn(endpoints, old(cursor), skipped) &&
                cursor == ((old(cursor) + skipped) % |endpoints| + 1) % |endpoints|
      ensures r.Some? ==> NoneBefore(endpoints, old(cursor), skipped, serves, requireEip1898, exclude)
    {
      skipped := 0;
      for offset := 0 to |endpoints|
        invariant cursor == old(cursor)
        invariant NoneBefore(endpoints, cursor, offset, serves, requireEip1898, exclude)
      {
        var endpoint := Turn(endpoints, cursor, offset);
        if Eligible(endpoint, serves, requireEip1898, exclude) {
          cursor := ((cursor + offset) % |endpoints| + 1) % |endpoints|;
          return Some(endpoint), offset;
        }
      }
      forall e | e in endpoints ensures !Eligible(e, serves, requireEip1898, exclude) {
        var k :| 0 <= k < |endpoints| && endpoints[k] == e;
        var offset := if k >= cursor then k - cursor else k + |endpoints| - cursor;
        Wraps(cursor, offset, k, |endpoints|);
        assert e == Turn(endpoints, cursor, offset);
      }
      return None, 0;
    }

    /** Succeeds exactly when enough different groups can serve, and then returns one endpoint of each
        of the required number of pairwise different groups. */
    method SelectDistinctGroups(count: nat, serves: Endpoint -> bool) returns (r: Option<seq<Endpoint>>)
      requires count >= 1
      ensures r.Some? <==> |ServingGroups(endpoints, serves)| >= count
      ensures r.Some? ==> |r.value| == count && DistinctGroups(r.value)
      ensures r.Some? ==> forall e :: e in r.value ==> e in endpoints && serves(e)
    {
      var selected: seq<Endpoint> := [];
      var groups: set<string> := {};
      for k := 0 to |endpoints|
        invariant |selected| < count
        invariant Picked(endpoints, k, serves, selected, groups)
      {
        var endpoint := endpoints[k];
        if endpoint.group in groups {
          SkipOne(endpoints, k, serves, selected, groups);
          continue;
        }
        if !serves(endpoint) {
          SkipOne(endpoints, k, serves, selected, groups);
          continue;
        }
        PickOne(endpoints, k, serves, selected, groups);
        selected := selected + [endpoint];
        groups := groups + {endpoint.group};
        if |selected| == count {
          GroupsPrefix(endpoints, k + 1, serves);
          return Some(selected);
        }
      }
      assert endpoints[..|endpoints|] == endpoints;
      return None;
    }
  }

  /** One serving endpoint for each group that serves among the first `k`. */
  ghost predicate Picked(endpoints: seq<Endpoint>, k: nat, serves: Endpoint -> bool, selected: seq<Endpoint>,
      groups: set<string>)
    requires k <= |endpoints|
  {
    && groups == ServingGroups(endpoints[..k], serves) && |selected| == |groups| && DistinctGroups(selected)
    && forall e :: e in selected ==> e in endpoints && serves(e) && e.group in groups
  }

  lemma {:induction false} PickOne(endpoints: seq<Endpoint>, k: nat, serves: Endpoint -> bool, selected: seq<Endpoint>,
      groups: set<string>)
    requires k < |endpoints| && Picked(endpoints, k, serves, selected, groups)
    requires endpoints[k].group !in groups && serves(endpoints[k])
    ensures Picked(endpoints, k + 1, serves, selected + [endpoints[k]], groups + {endpoints[k].group})
  {
    GroupsSnoc(endpoints, k, serves);
  }

  lemma {:induction false} SkipOne(endpoints: seq<Endpoint>, k: nat, serves: Endpoint -> bool, selected: seq<Endpoint>,
      groups: set<string>)
    requires k < |endpoints| && Picked(endpoints, k, serves, selected, groups)
    requires endpoints[k].group in groups || !serves(endpoints[k])
    ensures Picked(endpoints, k + 1, serves, selected, groups)
  {
    GroupsSnoc(endpoints, k, serves);
  }

  ghost predicate DistinctGroups(es: seq<Endpoint>) {
    forall i, j :: 0 <= i < j < |es| ==> es[i].group != es[j].group
  }

  lemma {:induction false} Wraps(cursor: nat, offset: nat, k: nat, count: nat)
    requires cursor < count && k < count && offset == if k >= cursor then k - cursor else k + count - cursor
    ensures (cursor + offset) % count == k && offset < count
  {
    if k < cursor {
      assert (k + count) % count == k;
    }
  }

  lemma {:induction false} GroupsSnoc(endpoints: seq<Endpoint>, k: nat, serves: Endpoint -> bool)
    requires k < |endpoints|
    ensures ServingGroups(endpoints[..k + 1], serves) ==
            ServingGroups(endpoints[..k], serves) + if serves(endpoints[k]) then {endpoints[k].group} else {}
  {
    assert endpoints[..k + 1] == endpoints[..k] + [endpoints[k]];
  }

  lemma {:induction false} GroupsPrefix(endpoints: seq<Endpoint>, k: nat, serves: Endpoint -> bool)
    requires k <= |endpoints|
    ensures |ServingGroups(endpoints[..k], serves)| <= |ServingGroups(endpoints, serves)|
  {
    var some, all := ServingGroups(endpoints[..k], serves), ServingGroups(endpoints, serves);
    assert some <= all;
    assert all == some + (all - some);
  }
}
