/** Named universe selectors, resolved recursively into a map from address to provenance labels. */
module Universes {
  import opened Wrappers
  import opened Bytes

  type Name = Text
  type Members = map<int, set<Text>>

  /** A leaf is a holder query or an explicit list: what it yields, or nothing where reading it fails. */
  datatype Selector = Leaf(members: Option<Members>) | Union(of: seq<Name>) | Intersect(of: seq<Name>)

  datatype ResolveError = Cycle | UnknownSelector | LeafFailed | NoChildren

  type Catalog = map<Name, Selector>

  function OnStack(stack: seq<Name>): set<Name> {
    set k | 0 <= k < |stack| :: stack[k]
  }

  function Addresses(children: seq<Members>): set<int> {
    if children == [] then {} else Addresses(children[1..]) + children[0].Keys
  }

  /** All the labels the children give an address. */
  function LabelsOf(children: seq<Members>, a: int): set<Text> {
    if children == [] then {} else LabelsOf(children[1..], a) + if a in children[0] then children[0][a] else {}
  }

  function Shared(children: seq<Members>): set<int>
    requires children != []
  {
    if |children| == 1 then children[0].Keys else children[0].Keys * Shared(children[1..])
  }

  function UnionOf(children: seq<Members>): Members {
    map a | a in Addresses(children) :: LabelsOf(children, a)
  }

  function IntersectOf(children: seq<Members>): Members
    requires children != []
  {
    map a | a in Shared(children) :: LabelsOf(children, a)
  }

  lemma {:induction false} StackGrows(catalog: Catalog, name: Name, stack: seq<Name>)
    requires name in catalog && name !in stack
    ensures |catalog.Keys - OnStack(stack + [name])| < |catalog.Keys - OnStack(stack)|
  {
    assert name !in OnStack(stack);
    assert (stack + [name])[|stack|] == name;
    assert OnStack(stack + [name]) == OnStack(stack) + {name} by {
      assert forall k :: 0 <= k < |stack| ==> (stack + [name])[k] == stack[k];
    }
    assert catalog.Keys - OnStack(stack) == catalog.Keys - OnStack(stack + [name]) + {name};
  }

  /** A selector under the selectors being resolved; it stops at a cycle, an unknown name, a leaf that
      fails, or a composite without children. */
  function Resolve(catalog: Catalog, name: Name, stack: seq<Name>): Result<Members, ResolveError>
    decreases |catalog.Keys - OnStack(stack)|, 0
  {
    if name in stack then Err(Cycle)
    else if name !in catalog then Err(UnknownSelector)
    else
      match catalog[name]
      case Leaf(members) => if members.None? then Err(LeafFailed) else Ok(members.value)
      case Union(of) =>
        StackGrows(catalog, name, stack);
        var children := ResolveAll(catalog, of, stack + [name]);
        if children.Err? then Err(children.error)
        else if of == [] then Err(NoChildren)
        else Ok(UnionOf(children.value))
      case Intersect(of) =>
        StackGrows(catalog, name, stack);
        var children := ResolveAll(catalog, of, stack + [name]);
        if children.Err? then Err(children.error)
        else if of == [] then Err(NoChildren)
        else Ok(IntersectOf(children.value))
  }

  /** The children in order; the first failure wins. */
  function ResolveAll(catalog: Catalog, names: seq<Name>, stack: seq<Name>): (r: Result<seq<Members>, ResolveError>)
    ensures r.Ok? ==> |r.value| == |names|
    decreases |catalog.Keys - OnStack(stack)|, 1 + |names|
  {
    if names == [] then Ok([]) else
      var front := ResolveAll(catalog, names[..|names| - 1], stack);
      if front.Err? then front else
        var last := Resolve(catalog, names[|names| - 1], stack);
        if last.Err? then Err(last.error) else Ok(front.value + [last.value])
  }

  lemma {:induction false} ResolveAllIff(catalog: Catalog, names: seq<Name>, stack: seq<Name>)
    ensures ResolveAll(catalog, names, stack).Ok? <==>
              forall k :: 0 <= k < |names| ==> Resolve(catalog, names[k], stack).Ok?
    ensures ResolveAll(catalog, names, stack).Ok? ==>
              forall k :: 0 <= k < |names| ==>
                  ResolveAll(catalog, names, stack).value[k] == Resolve(catalog, names[k], stack).value
  {
    if names != [] {
      var front := names[..|names| - 1];
      ResolveAllIff(catalog, front, stack);
      assert forall k :: 0 <= k < |front| ==> front[k] == names[k];
    }
  }

  // ---- paths through the selectors -------------------------------------------------------------------

  function Children(catalog: Catalog, name: Name): seq<Name> {
    if name !in catalog || catalog[name].Leaf? then [] else catalog[name].of
  }

  /** A nonempty walk that starts at `name` and goes from selector to child. */
  ghost predicate Path(catalog: Catalog, name: Name, p: seq<Name>) {
    && p != [] && p[0] == name
    && forall i, j :: 0 <= i && j == i + 1 < |p| ==> p[j] in Children(catalog, p[i])
  }

  /** The selector exists, a leaf can be read, and a composite has children. */
  predicate Good(catalog: Catalog, name: Name) {
    && name in catalog
    && match catalog[name]
       case Leaf(members) => members.Some?
       case Union(of) => of != []
       case Intersect(of) => of != []
  }

  /** The walk repeats nothing and avoids the stack. */
  ghost predicate Simple(p: seq<Name>, stack: seq<Name>) {
    && (forall i, j :: 0 <= i < j < |p| ==> p[i] != p[j])
    && forall i :: 0 <= i < |p| ==> p[i] !in stack
  }

  ghost predicate SoundPath(catalog: Catalog, p: seq<Name>, stack: seq<Name>)
    requires p != []
  {
    Simple(p, stack) && Good(catalog, p[|p| - 1])
  }

  /** Resolution succeeds only if every walk from the name is simple and ends at a good selector. */
  lemma {:induction false} ResolvedPaths(catalog: Catalog, name: Name, stack: seq<Name>, p: seq<Name>)
    requires Resolve(catalog, name, stack).Ok? && Path(catalog, name, p)
    ensures SoundPath(catalog, p, stack)
    decreases |p|
  {
    if |p| > 1 {
      var rest, of := p[1..], Children(catalog, name);
      assert p[1] in of;
      var k :| 0 <= k < |of| && of[k] == p[1];
      ResolveAllIff(catalog, of, stack + [name]);
      assert Resolve(catalog, of[k], stack + [name]).Ok?;
      forall i, j | 0 <= i && j == i + 1 < |rest| ensures rest[j] in Children(catalog, rest[i]) {
        assert rest[i] == p[i + 1] && rest[j] == p[j + 1];
      }
      ResolvedPaths(catalog, p[1], stack + [name], rest);
      PrependSimple(name, rest, stack);
      assert [name] + rest == p;
    }
  }

  lemma {:induction false} PrependSimple(name: Name, rest: seq<Name>, stack: seq<Name>)
    requires name !in stack
    ensures Simple([name] + rest, stack) <==> Simple(rest, stack + [name])
  {
    var p := [name] + rest;
    assert forall i :: 0 <= i < |rest| ==> p[i + 1] == rest[i];
    if Simple(p, stack) {
      forall i | 0 <= i < |rest| ensures rest[i] !in stack + [name] {
        assert p[0] != p[i + 1] && p[i + 1] !in stack;
      }
      forall i, j | 0 <= i < j < |rest| ensures rest[i] != rest[j] {
        assert p[i + 1] != p[j + 1];
      }
    }
    if Simple(rest, stack + [name]) {
      forall i, j | 0 <= i < j < |p| ensures p[i] != p[j] {
        assert p[j] == rest[j - 1] && rest[j - 1] !in stack + [name];
        assert i > 0 ==> p[i] == rest[i - 1];
        assert name in stack + [name];
      }
      forall i | 0 <= i < |p| ensures p[i] !in stack {
        assert i > 0 ==> p[i] == rest[i - 1] && rest[i - 1] !in stack + [name];
      }
    }
  }

  /** A failed resolution has a walk to blame. */
  lemma {:induction false} FailedPath(catalog: Catalog, name: Name, stack: seq<Name>) returns (p: seq<Name>)
    requires Resolve(catalog, name, stack).Err?
    ensures Path(catalog, name, p) && !SoundPath(catalog, p, stack)
    decreases |catalog.Keys - OnStack(stack)|
  {
    p := [name];
    if name !in stack && Good(catalog, name) {
      var of := Children(catalog, name);
      StackGrows(catalog, name, stack);
      ResolveAllIff(catalog, of, stack + [name]);
      var k :| 0 <= k < |of| && Resolve(catalog, of[k], stack + [name]).Err?;
      var rest := FailedPath(catalog, of[k], stack + [name]);
      PrependSimple(name, rest, stack);
      p := [name] + rest;
      assert p[|p| - 1] == rest[|rest| - 1];
      forall i, j | 0 <= i && j == i + 1 < |p| ensures p[j] in Children(catalog, p[i]) {
        assert p[j] == rest[i];
        assert i > 0 ==> p[i] == rest[i - 1];
      }
    }
  }

  /** A name resolves exactly when no walk from it repeats a selector and every walk ends at a selector
      that exists, can be read, and has children. */
  lemma {:induction false} ResolvesIff(catalog: Catalog, name: Name)
    ensures Resolve(catalog, name, []).Ok? <==> forall p :: Path(catalog, name, p) ==> SoundPath(catalog, p, [])
  {
    if Resolve(catalog, name, []).Ok? {
      forall p | Path(catalog, name, p) ensures SoundPath(catalog, p, []) {
        ResolvedPaths(catalog, name, [], p);
      }
    } else {
      var p := FailedPath(catalog, name, []);
    }
  }

  // ---- what a resolved name denotes --------------------------------------------------------------------

  /** The stack only ever stops resolution: on success it has no influence on the members. */
  lemma {:induction false} StackIrrelevant(catalog: Catalog, name: Name, stack: seq<Name>, smaller: seq<Name>)
    requires Resolve(catalog, name, stack).Ok? && forall n :: n in smaller ==> n in stack
    ensures Resolve(catalog, name, smaller) == Resolve(catalog, name, stack)
    decreases |catalog.Keys - OnStack(stack)|
  {
    if !catalog[name].Leaf? {
      var of := catalog[name].of;
      StackGrows(catalog, name, stack);
      ResolveAllIff(catalog, of, stack + [name]);
      ResolveAllIff(catalog, of, smaller + [name]);
      forall k | 0 <= k < |of|
        ensures Resolve(catalog, of[k], smaller + [name]) == Resolve(catalog, of[k], stack + [name])
      {
        StackIrrelevant(catalog, of[k], stack + [name], smaller + [name]);
      }
      assert ResolveAll(catalog, of, smaller + [name]).value == ResolveAll(catalog, of, stack + [name]).value;
    }
  }

  lemma {:induction false} InUnion(children: seq<Members>, a: int)
    ensures a in Addresses(children) <==> exists k :: 0 <= k < |children| && a in children[k]
  {
    if children != [] {
      InUnion(children[1..], a);
      if k :| 0 <= k < |children| && a in children[k] {
        assert k > 0 ==> a in children[1..][k - 1];
      }
      if a in Addresses(children[1..]) {
        var k :| 0 <= k < |children[1..]| && a in children[1..][k];
        assert a in children[k + 1];
      }
    }
  }

  lemma {:induction false} InIntersection(children: seq<Members>, a: int)
    requires children != []
    ensures a in Shared(children) <==> forall k :: 0 <= k < |children| ==> a in children[k]
  {
    if |children| > 1 {
      InIntersection(children[1..], a);
      assert forall k :: 0 <= k < |children[1..]| ==> children[1..][k] == children[k + 1];
      if forall k :: 0 <= k < |children[1..]| ==> a in children[1..][k] {
        forall k | 1 <= k < |children| ensures a in children[k] {
          assert children[1..][k - 1] == children[k];
        }
      }
    }
  }

  lemma {:induction false} InLabels(children: seq<Members>, a: int, t: Text)
    ensures t in LabelsOf(children, a) <==> exists k :: 0 <= k < |children| && a in children[k] && t in children[k][a]
  {
    if children != [] {
      InLabels(children[1..], a, t);
      if k :| 0 <= k < |children| && a in children[k] && t in children[k][a] {
        assert k > 0 ==> children[1..][k - 1] == children[k];
      }
      if k :| 0 <= k < |children[1..]| && a in children[1..][k] && t in children[1..][k][a] {
        assert children[k + 1] == children[1..][k];
      }
    }
  }

  /** The members of a name on its own. */
  ghost predicate Contains(catalog: Catalog, name: Name, a: int) {
    Resolve(catalog, name, []).Ok? && a in Resolve(catalog, name, []).value
  }

  lemma {:induction false} ChildrenResolve(catalog: Catalog, name: Name) returns (children: seq<Members>)
    requires Resolve(catalog, name, []).Ok? && !catalog[name].Leaf?
    ensures ResolveAll(catalog, catalog[name].of, [name]) == Ok(children) && |children| == |catalog[name].of| > 0
    ensures forall k :: 0 <= k < |children| ==> Resolve(catalog, catalog[name].of[k], []) == Ok(children[k])
  {
    var of := catalog[name].of;
    assert [] + [name] == [name];
    children := ResolveAll(catalog, of, [name]).value;
    ResolveAllIff(catalog, of, [name]);
    forall k | 0 <= k < |children| ensures Resolve(catalog, of[k], []) == Ok(children[k]) {
      StackIrrelevant(catalog, of[k], [name], []);
    }
  }

  /** A resolved union contains what some child contains, an intersection what every child contains. */
  lemma {:induction false} SetAlgebra(catalog: Catalog, name: Name, a: int)
    requires Resolve(catalog, name, []).Ok? && !catalog[name].Leaf?
    ensures var of := catalog[name].of;
            Contains(catalog, name, a) <==>
              if catalog[name].Union? then exists k :: 0 <= k < |of| && Contains(catalog, of[k], a)
              else forall k :: 0 <= k < |of| ==> Contains(catalog, of[k], a)
  {
    var children := ChildrenResolve(catalog, name);
    var of := catalog[name].of;
    assert [] + [name] == [name];
    assert forall k :: 0 <= k < |of| ==> (Contains(catalog, of[k], a) <==> a in children[k]);
    if catalog[name].Union? {
      InUnion(children, a);
      if k :| 0 <= k < |children| && a in children[k] {
        assert Contains(catalog, of[k], a);
      }
    } else {
      InIntersection(children, a);
      if forall k :: 0 <= k < |of| ==> Contains(catalog, of[k], a) {
        forall k | 0 <= k < |children| ensures a in children[k] {
          assert Contains(catalog, of[k], a);
        }
      }
    }
  }

  /** Every member keeps the labels that each child gives it, and gets no other. */
  lemma {:induction false} Provenance(catalog: Catalog, name: Name, a: int, t: Text)
    requires Contains(catalog, name, a) && !catalog[name].Leaf?
    ensures t in Resolve(catalog, name, []).value[a] <==>
            exists k :: 0 <= k < |catalog[name].of| && Contains(catalog, catalog[name].of[k], a)
                        && t in Resolve(catalog, catalog[name].of[k], []).value[a]
  {
    var children := ChildrenResolve(catalog, name);
    var of := catalog[name].of;
    assert [] + [name] == [name];
    InLabels(children, a, t);
    if k :| 0 <= k < |children| && a in children[k] && t in children[k][a] {
      assert Contains(catalog, of[k], a);
    }
    if k :| 0 <= k < |of| && Contains(catalog, of[k], a) && t in Resolve(catalog, of[k], []).value[a] {
      assert a in children[k] && t in children[k][a];
    }
  }
}
