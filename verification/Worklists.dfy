/** Stack-based searches. */
module Worklists {
  import opened Wrappers
  import opened Graphs
  import Sets

  // The library closures of scripts/prune_engine.py and the touching-solid groups of interference.py. Where the
  // source turns a set into a stack, any order is allowed.

  // ---------------------------------------------------------------- library closure

  /** The direct dependencies as links. */
  ghost function Dependencies(deps: map<string, set<string>>): set<(string, string)> {
    set a, b | a in deps && b in deps[a] :: (a, b)
  }

  ghost predicate ReachedFrom(edges: set<(string, string)>, seeds: set<string>, x: string) {
    exists a :: a in seeds && Reaches(edges, a, x)
  }

  /** The set holds exactly what the seeds reach. */
  ghost predicate IsClosure(all: set<string>, seeds: set<string>, edges: set<(string, string)>) {
    forall x :: x in all <==> ReachedFrom(edges, seeds, x)
  }

  ghost predicate Sound(edges: set<(string, string)>, seeds: set<string>, seen: set<string>, stack: seq<string>) {
    && (forall x :: x in seen ==> ReachedFrom(edges, seeds, x))
    && (forall x :: x in stack ==> ReachedFrom(edges, seeds, x))
    && (forall x :: x in seeds ==> x in seen || x in stack)
  }

  /** Every link out of what was seen leads to something seen or waiting. */
  ghost predicate Frontier(edges: set<(string, string)>, seen: set<string>, stack: seq<string>) {
    forall e :: e in edges && e.0 in seen ==> e.1 in seen || e.1 in stack
  }

  lemma ReachedNext(edges: set<(string, string)>, seeds: set<string>, x: string, y: string)
    requires ReachedFrom(edges, seeds, x) && (x, y) in edges
    ensures ReachedFrom(edges, seeds, y)
  {
    var a :| a in seeds && Reaches(edges, a, x);
    ReachesNext(edges, a, x, y);
  }

  lemma ReachedSeeds(edges: set<(string, string)>, seeds: set<string>)
    ensures forall x :: x in seeds ==> ReachedFrom(edges, seeds, x)
  {
    forall x | x in seeds
      ensures ReachedFrom(edges, seeds, x)
    {
      ReachesItself(edges, x);
    }
  }

  /** An exhausted search has found the closure. */
  lemma Exhausted(edges: set<(string, string)>, seeds: set<string>, seen: set<string>)
    requires Sound(edges, seeds, seen, []) && Frontier(edges, seen, [])
    ensures IsClosure(seen, seeds, edges)
  {
    forall x | ReachedFrom(edges, seeds, x)
      ensures x in seen
    {
      var a :| a in seeds && Reaches(edges, a, x);
      ReachesInside(edges, seen, a, x);
    }
  }

  /** The closure is the least set that holds the seeds and is closed under the links. */
  lemma ClosureIsLeast(all: set<string>, seeds: set<string>, edges: set<(string, string)>)
    requires IsClosure(all, seeds, edges)
    ensures seeds <= all && Closed(edges, all)
    ensures forall s: set<string> :: seeds <= s && Closed(edges, s) ==> all <= s
  {
    assert forall x :: x in all <==> ReachedFrom(edges, seeds, x);
    ReachableIsLeast(edges, seeds, all);
  }

  /** One turn of the loop: pop `current`, and on first sight push its dependencies. */
  lemma Visit(deps: map<string, set<string>>, seeds: set<string>, seen: set<string>, rest: seq<string>,
              current: string, next: seq<string>)
    requires Sound(Dependencies(deps), seeds, seen, rest + [current])
    requires Frontier(Dependencies(deps), seen, rest + [current])
    requires forall x :: x in next <==> current in deps && x in deps[current]
    ensures current in seen ==> Sound(Dependencies(deps), seeds, seen, rest) && Frontier(Dependencies(deps), seen, rest)
    ensures Sound(Dependencies(deps), seeds, seen + {current}, rest + next)
    ensures Frontier(Dependencies(deps), seen + {current}, rest + next)
  {
    var edges := Dependencies(deps);
    assert current in rest + [current];
    forall x | x in next
      ensures ReachedFrom(edges, seeds, x)
    {
      ReachedNext(edges, seeds, current, x);
    }
    assert forall x :: x in rest ==> x in rest + [current];
    assert forall x :: x in rest + [current] ==> x in rest || x == current;
  }

  ghost function Universe(seeds: set<string>, deps: map<string, set<string>>): set<string> {
    seeds + set a, b | a in deps && b in deps[a] :: b
  }

  lemma InUniverse(seeds: set<string>, deps: map<string, set<string>>, x: string)
    requires ReachedFrom(Dependencies(deps), seeds, x)
    ensures x in Universe(seeds, deps)
  {
    var a :| a in seeds && Reaches(Dependencies(deps), a, x);
    ReachesInside(Dependencies(deps), Universe(seeds, deps), a, x);
  }

  /** `native_closure`. */
  method NativeClosure(seeds: set<string>, deps: map<string, set<string>>) returns (seen: set<string>)
    ensures IsClosure(seen, seeds, Dependencies(deps))
  {
    hide Dependencies, Frontier, Universe, ReachedFrom, IsClosure;
    ghost var edges := Dependencies(deps);
    ReachedSeeds(edges, seeds);
    seen := {};
    var stack := Sets.Listed(seeds);
    NothingSeen(edges, stack);
    while stack != []
      invariant Sound(edges, seeds, seen, stack) && Frontier(edges, seen, stack)
      decreases Universe(seeds, deps) - seen, |stack|
    {
      var current := stack[|stack| - 1];
      var rest := stack[..|stack| - 1];
      assert stack == rest + [current];
      InUniverse(seeds, deps, current);
      hide Sound;
      var next := Sets.Listed(if current in deps then deps[current] else {});
      Visit(deps, seeds, seen, rest, current, next);
      if current in seen {
        stack := rest;
      } else {
        seen := seen + {current};
        stack := rest + next;
      }
    }
    Exhausted(edges, seeds, seen);
  }

  lemma NothingSeen(edges: set<(string, string)>, stack: seq<string>)
    ensures Frontier(edges, {}, stack)
  {
  }

  // ---------------------------------------------------------------- link targets

  /** `present` gives for each library the base name its symlink points to, or None for a plain file. */
  ghost function LinkTargets(present: map<string, Option<string>>): set<(string, string)> {
    set a | a in present && present[a].Some? && present[a].value in present :: (a, present[a].value)
  }

  ghost predicate Expanding(edges: set<(string, string)>, kept: set<string>, result: set<string>, stack: seq<string>) {
    && kept <= result && (forall x :: x in stack ==> x in result)
    && (forall x :: x in result ==> ReachedFrom(edges, kept, x))
    && (forall e :: e in edges && e.0 in result && e.0 !in stack ==> e.1 in result)
  }

  /** One turn of the loop: pop `name`, and follow it when it is a link to something present and new. */
  lemma Follow(present: map<string, Option<string>>, kept: set<string>, result: set<string>, rest: seq<string>, name: string)
    requires Expanding(LinkTargets(present), kept, result, rest + [name])
    ensures var follows := name in present && present[name].Some? && present[name].value in present && present[name].value !in result;
            if follows then Expanding(LinkTargets(present), kept, result + {present[name].value}, rest + [present[name].value])
            else Expanding(LinkTargets(present), kept, result, rest)
  {
    var edges := LinkTargets(present);
    assert name in rest + [name];
    assert forall x :: x in rest + [name] <==> x in rest || x == name;
    if name in present && present[name].Some? && present[name].value in present {
      var target := present[name].value;
      assert (name, target) in edges;
      ReachedNext(edges, kept, name, target);
      assert forall x :: x in rest + [target] <==> x in rest || x == target;
    }
  }

  /** `_expand_link_targets`. */
  method ExpandLinkTargets(kept: set<string>, present: map<string, Option<string>>) returns (result: set<string>)
    ensures IsClosure(result, kept, LinkTargets(present))
  {
    ghost var edges := LinkTargets(present);
    ReachedSeeds(edges, kept);
    result := kept;
    var stack := Sets.Listed(set name | name in kept && name in present);
    assert Expanding(edges, kept, result, stack);
    hide *;
    while stack != []
      invariant Expanding(edges, kept, result, stack)
      decreases present.Keys - result, |stack|
    {
      var name := stack[|stack| - 1];
      var rest := stack[..|stack| - 1];
      assert stack == rest + [name];
      Follow(present, kept, result, rest, name);
      stack := rest;
      if name in present && present[name].Some? {
        var target := present[name].value;
        if target in present && target !in result {
          result := result + {target};
          stack := stack + [target];
        }
      }
    }
    Expanded(edges, kept, result);
  }

  lemma Expanded(edges: set<(string, string)>, kept: set<string>, result: set<string>)
    requires Expanding(edges, kept, result, [])
    ensures IsClosure(result, kept, edges)
  {
    Exhausted(edges, kept, result);
  }

  /** Expanding once is enough: the result has no kept link whose target is present but missing. */
  lemma ExpansionKeepsTargets(kept: set<string>, present: map<string, Option<string>>, result: set<string>)
    requires IsClosure(result, kept, LinkTargets(present))
    ensures kept <= result
    ensures forall a :: a in result && a in present && present[a].Some? && present[a].value in present ==>
              present[a].value in result
    ensures forall x :: x in result && x !in kept ==> x in present
  {
    var edges := LinkTargets(present);
    ClosureIsLeast(result, kept, edges);
    forall a | a in result && a in present && present[a].Some? && present[a].value in present
      ensures present[a].value in result
    {
      assert (a, present[a].value) in edges;
    }
    var allowed := kept + present.Keys;
    assert Closed(edges, allowed);
    assert result <= allowed;
  }

  // ---------------------------------------------------------------- touching solids

  datatype Box = Box(lo: seq<real>, hi: seq<real>)

  predicate ThreeD(b: Box) { |b.lo| == 3 && |b.hi| == 3 }

  type Box3 = b: Box | ThreeD(b) witness Box([0.0, 0.0, 0.0], [0.0, 0.0, 0.0])

  /** `bboxes_overlap`. */
  predicate Overlap(a: Box3, b: Box3, eps: real) {
    forall i :: 0 <= i < 3 ==> a.lo[i] <= b.hi[i] + eps && b.lo[i] <= a.hi[i] + eps
  }

  function Max(a: real, b: real): real { if a < b then b else a }

  function AxisGap(a: Box3, b: Box3, i: nat): real
    requires i < 3
  {
    Max(0.0, Max(b.lo[i] - a.hi[i], a.lo[i] - b.hi[i]))
  }

  /** `_bbox_gap`: the largest of the three separations. */
  function Gap(a: Box3, b: Box3): real { Max(AxisGap(a, b, 0), Max(AxisGap(a, b, 1), AxisGap(a, b, 2))) }

  /** The overlap test and the reported clearance agree: boxes touch exactly when their gap is within eps. */
  lemma OverlapIsGap(a: Box3, b: Box3, eps: real)
    requires eps >= 0.0
    ensures Overlap(a, b, eps) <==> Gap(a, b) <= eps
    ensures Overlap(a, b, eps) == Overlap(b, a, eps) && Gap(a, b) == Gap(b, a)
  {
  }

  predicate Proper(b: Box3) { b.lo[0] <= b.hi[0] && b.lo[1] <= b.hi[1] && b.lo[2] <= b.hi[2] }

  predicate Inside(x: real, y: real, z: real, b: Box3) {
    b.lo[0] <= x <= b.hi[0] && b.lo[1] <= y <= b.hi[1] && b.lo[2] <= z <= b.hi[2]
  }

  predicate Close(x: real, y: real, eps: real) { -eps <= x - y <= eps }

  /** The points of one box and of the other that lie within eps of each other on every axis. */
  ghost predicate Meet(a: Box3, b: Box3, eps: real) {
    exists x, y, z, u, v, w :: Inside(x, y, z, a) && Inside(u, v, w, b) && Close(x, u, eps) && Close(y, v, eps) && Close(z, w, eps)
  }

  /** Boxes overlap within eps exactly when they have such points. */
  lemma OverlapMeaning(a: Box3, b: Box3, eps: real)
    requires eps >= 0.0 && Proper(a) && Proper(b)
    ensures Overlap(a, b, eps) <==> Meet(a, b, eps)
  {
    if Overlap(a, b, eps) {
      var (x, u) := Nearest(a.lo[0], a.hi[0], b.lo[0], b.hi[0], eps);
      var (y, v) := Nearest(a.lo[1], a.hi[1], b.lo[1], b.hi[1], eps);
      var (z, w) := Nearest(a.lo[2], a.hi[2], b.lo[2], b.hi[2], eps);
      assert Inside(x, y, z, a) && Inside(u, v, w, b);
    }
  }

  /** Nearest points of two intervals whose gap is at most eps. */
  function Nearest(lo: real, hi: real, from: real, to: real, eps: real): (p: (real, real))
    requires lo <= hi && from <= to && lo <= to + eps && from <= hi + eps && eps >= 0.0
    ensures lo <= p.0 <= hi && from <= p.1 <= to && Close(p.0, p.1, eps)
  {
    if hi < from then (hi, from) else if to < lo then (lo, to) else (Max(lo, from), Max(lo, from))
  }

  predicate Touching(boxes: seq<Box3>, eps: real, i: nat, j: nat) {
    i < |boxes| && j < |boxes| && i != j && Overlap(boxes[i], boxes[j], eps)
  }

  ghost function Touches(boxes: seq<Box3>, eps: real): set<(nat, nat)> {
    set i: nat, j: nat | i < |boxes| && j < |boxes| && Touching(boxes, eps, i, j) :: (i, j)
  }

  lemma TouchesSymmetric(boxes: seq<Box3>, eps: real)
    ensures Symmetric(Touches(boxes, eps))
  {
  }

  /** The neighbour sets built by the double loop over pairs. */
  method Adjacency(boxes: seq<Box3>, eps: real) returns (adjacent: seq<set<nat>>)
    ensures |adjacent| == |boxes|
    ensures forall i: nat, j: nat :: i < |boxes| ==> (j in adjacent[i] <==> (i, j) in Touches(boxes, eps))
  {
    var n := |boxes|;
    adjacent := seq(n, _ => {});
    for i := 0 to n
      invariant |adjacent| == n
      invariant forall a: nat, b: nat :: a < n ==>
                  (b in adjacent[a] <==> Touching(boxes, eps, a, b) && (a < i || b < i))
    {
      for j := i + 1 to n
        invariant |adjacent| == n
        invariant forall a: nat, b: nat :: a < n ==>
                    (b in adjacent[a] <==> Touching(boxes, eps, a, b) && (a < i || b < i || (a == i && b < j) || (b == i && a < j)))
      {
        if Overlap(boxes[i], boxes[j], eps) {
          adjacent := adjacent[i := adjacent[i] + {j}];
          adjacent := adjacent[j := adjacent[j] + {i}];
        }
      }
    }
  }

  ghost predicate Neighbours(adjacent: seq<set<nat>>, edges: set<(nat, nat)>) {
    && Symmetric(edges) && (forall e :: e in edges ==> e.0 < |adjacent| && e.1 < |adjacent|)
    && forall i: nat, j: nat :: i < |adjacent| ==> (j in adjacent[i] <==> (i, j) in edges)
  }

  ghost function Below(n: nat): (s: set<nat>)
    ensures forall k: nat :: k in s <==> k < n
  {
    if n == 0 then {} else Below(n - 1) + {n - 1}
  }

  /** The stack loop from solid i: everything newly found is reached from i, and nothing reached is left out. */
  method Explore(adjacent: seq<set<nat>>, i: nat, before: set<nat>, ghost edges: set<(nat, nat)>)
    returns (seen: set<nat>, comp: set<nat>)
    requires Neighbours(adjacent, edges) && Closed(edges, before) && i < |adjacent| && i !in before
    ensures seen == before + comp && Closed(edges, seen)
    ensures forall y: nat :: y in comp <==> Reaches(edges, i, y)
  {
    hide Reaches;
    ReachesItself(edges, i);
    seen, comp := before, {};
    var stack := [i];
    while stack != []
      invariant Searching(edges, i, before, seen, comp, stack, |adjacent|)
      decreases Below(|adjacent|) - seen, |stack|
    {
      var k := stack[|stack| - 1];
      var rest := stack[..|stack| - 1];
      assert k in stack && stack == rest + [k];
      var next := Sets.Listed(adjacent[k] - seen);
      Searched(adjacent, edges, i, before, seen, comp, rest, k, next);
      if k in seen {
        stack := rest;
      } else {
        seen := seen + {k};
        comp := comp + {k};
        stack := rest + next;
      }
    }
    ComponentFound(edges, i, before, seen, comp, |adjacent|);
  }

  ghost predicate Searching(edges: set<(nat, nat)>, i: nat, before: set<nat>, seen: set<nat>, comp: set<nat>, stack: seq<nat>, n: nat) {
    && seen == before + comp && (i in seen || i in stack)
    && (forall y: nat :: y in comp ==> Reaches(edges, i, y))
    && (forall y: nat :: y in stack ==> y < n && Reaches(edges, i, y))
    && (forall e :: e in edges && e.0 in comp ==> e.1 in seen || e.1 in stack)
  }

  lemma Searched(adjacent: seq<set<nat>>, edges: set<(nat, nat)>, i: nat, before: set<nat>, seen: set<nat>, comp: set<nat>,
                 rest: seq<nat>, k: nat, next: seq<nat>)
    requires Neighbours(adjacent, edges) && k < |adjacent|
    requires Searching(edges, i, before, seen, comp, rest + [k], |adjacent|)
    requires forall y: nat :: y in next <==> y in adjacent[k] && y !in seen
    ensures k in seen ==> Searching(edges, i, before, seen, comp, rest, |adjacent|)
    ensures Searching(edges, i, before, seen + {k}, comp + {k}, rest + next, |adjacent|)
  {
    assert k in rest + [k];
    forall y: nat | y in next
      ensures y < |adjacent| && Reaches(edges, i, y)
    {
      assert (k, y) in edges;
      ReachesNext(edges, i, k, y);
    }
    assert forall y: nat :: y in rest ==> y in rest + [k];
    assert forall y: nat :: y in rest + [k] ==> y in rest || y == k;
    hide Reaches;
    forall e | e in edges && e.0 in comp + {k}
      ensures e.1 in seen + {k} || e.1 in rest + next
    {
    }
  }

  lemma ComponentFound(edges: set<(nat, nat)>, i: nat, before: set<nat>, seen: set<nat>, comp: set<nat>, n: nat)
    requires Symmetric(edges) && Closed(edges, before) && i !in before && Searching(edges, i, before, seen, comp, [], n)
    ensures Closed(edges, seen) && forall y: nat :: y in comp <==> Reaches(edges, i, y)
  {
    forall y: nat | Reaches(edges, i, y)
      ensures y in comp
    {
      ReachesInside(edges, seen, i, y);
      if y in before {
        ReachesBack(edges, i, y);
        ReachesInside(edges, before, y, i);
      }
    }
  }

  /** `sorted`. */
  method Sorted(s: set<nat>, n: nat) returns (list: seq<nat>)
    requires forall x: nat :: x in s ==> x < n
    ensures Ascending(list) && forall x: nat :: x in list <==> x in s
  {
    list := [];
    for k := 0 to n
      invariant Ascending(list) && forall x: nat :: x in list <==> x in s && x < k
    {
      if k in s {
        assert forall j :: 0 <= j < |list| ==> list[j] in list;
        list := list + [k];
      }
    }
  }

  /** The components found from the solids below i. */
  ghost predicate Found(comps: seq<seq<nat>>, edges: set<(nat, nat)>, i: nat) {
    && (forall g :: 0 <= g < |comps| ==> IsComponent(comps[g], edges) && comps[g][0] < i)
    && (forall g, h :: 0 <= g < h < |comps| ==> comps[g][0] < comps[h][0])
    && (forall x: nat :: x < i ==> Placed(comps, x))
  }

  ghost predicate IsComponent(comp: seq<nat>, edges: set<(nat, nat)>) {
    comp != [] && Ascending(comp) && forall y: nat :: y in comp <==> Reaches(edges, comp[0], y)
  }

  lemma PlacedThrough(comps: seq<seq<nat>>, edges: set<(nat, nat)>, i: nat, x: nat)
    requires Found(comps, edges, i) && Symmetric(edges) && x < i && Reaches(edges, i, x)
    ensures Placed(comps, i)
  {
    assert Placed(comps, x);
    var g :| 0 <= g < |comps| && x in comps[g];
    assert IsComponent(comps[g], edges);
    ReachesBack(edges, i, x);
    ReachesThrough(edges, comps[g][0], x, i);
    assert i in comps[g];
  }

  lemma FoundNext(comps: seq<seq<nat>>, edges: set<(nat, nat)>, i: nat, comp: seq<nat>)
    requires Found(comps, edges, i) && !Placed(comps, i)
    requires Ascending(comp) && (forall y: nat :: y in comp <==> Reaches(edges, i, y)) && Symmetric(edges)
    ensures Found(comps + [comp], edges, i + 1)
  {
    var more := comps + [comp];
    ReachesItself(edges, i);
    assert comp[0] in comp;
    if comp[0] < i { PlacedThrough(comps, edges, i, comp[0]); }
    assert comp[0] == i;
    assert more[|comps|] == comp;
    forall x: nat | x < i + 1
      ensures Placed(more, x)
    {
      if x < i { PlacedMore(comps, comp, x); }
    }
    forall g | 0 <= g < |more|
      ensures IsComponent(more[g], edges) && more[g][0] < i + 1
    {
      if g < |comps| { assert IsComponent(comps[g], edges); }
    }
  }

  lemma PlacedMore(comps: seq<seq<nat>>, comp: seq<nat>, x: nat)
    ensures Placed(comps + [comp], x) <==> Placed(comps, x) || x in comp
  {
    var more := comps + [comp];
    assert more[|comps|] == comp;
    if Placed(comps, x) {
      var g :| 0 <= g < |comps| && x in comps[g];
      assert x in more[g];
    }
  }

  lemma FoundAll(comps: seq<seq<nat>>, edges: set<(nat, nat)>, n: nat)
    requires Found(comps, edges, n) && Symmetric(edges) && forall e :: e in edges ==> e.0 < n && e.1 < n
    ensures Components(comps, n, edges)
  {
    var all := Below(n);
    forall g, x: nat | 0 <= g < |comps| && x in comps[g]
      ensures x < n
    {
      ReachesInside(edges, all, comps[g][0], x);
    }
    forall g, h, x: nat, y: nat | 0 <= g < |comps| && 0 <= h < |comps| && x in comps[g] && y in comps[h]
      ensures g == h <==> Reaches(edges, x, y)
    {
      SameComponent(comps, edges, n, g, h, x, y);
    }
    forall g, h, x: nat | 0 <= g < |comps| && 0 <= h < |comps| && x in comps[g] && x in comps[h]
      ensures g == h
    {
      ReachesItself(edges, x);
    }
    assert forall g :: 0 <= g < |comps| ==> IsComponent(comps[g], edges);
    forall g, i | 0 <= g < |comps| && 0 <= i < |comps[g]|
      ensures comps[g][i] < n
    {
      assert comps[g][i] in comps[g];
    }
  }

  lemma LeastFirst(comp: seq<nat>, edges: set<(nat, nat)>, y: nat)
    requires IsComponent(comp, edges) && Reaches(edges, comp[0], y)
    ensures comp[0] <= y
  {
  }

  lemma SameComponent(comps: seq<seq<nat>>, edges: set<(nat, nat)>, n: nat, g: nat, h: nat, x: nat, y: nat)
    requires Found(comps, edges, n) && Symmetric(edges)
    requires g < |comps| && h < |comps| && x in comps[g] && y in comps[h]
    ensures g == h <==> Reaches(edges, x, y)
  {
    var a, b := comps[g][0], comps[h][0];
    assert IsComponent(comps[g], edges) && IsComponent(comps[h], edges);
    ReachesBack(edges, a, x);
    ReachesBack(edges, b, y);
    if g == h {
      ReachesThrough(edges, x, a, y);
    } else if Reaches(edges, x, y) {
      ReachesThrough(edges, a, x, y);
      ReachesThrough(edges, a, y, b);
      ReachesBack(edges, a, b);
      LeastFirst(comps[g], edges, b);
      LeastFirst(comps[h], edges, a);
    }
  }

  /** `_connected_components`. */
  method ConnectedComponents(boxes: seq<Box3>, eps: real) returns (comps: seq<seq<nat>>)
    ensures Components(comps, |boxes|, Touches(boxes, eps))
  {
    var n := |boxes|;
    var adjacent := Adjacency(boxes, eps);
    ghost var edges := Touches(boxes, eps);
    TouchesSymmetric(boxes, eps);
    assert forall e :: e in edges ==> e.0 < n && e.1 < n;
    hide Touches, Reaches, Found, Components;
    assert Neighbours(adjacent, edges);
    var seen: set<nat> := {};
    comps := [];
    NothingFound(edges);
    for i := 0 to n
      invariant Found(comps, edges, i)
      invariant Closed(edges, seen) && forall x: nat :: x in seen <==> Placed(comps, x)
    {
      if i in seen {
        FoundSame(comps, edges, i);
      } else {
        ghost var was := seen;
        var comp: set<nat>;
        seen, comp := Explore(adjacent, i, seen, edges);
        ReachedBelow(edges, n, i);
        var list := Sorted(comp, n);
        FoundNext(comps, edges, i, list);
        forall x: nat
          ensures x in seen <==> Placed(comps + [list], x)
        {
          PlacedMore(comps, list, x);
        }
        comps := comps + [list];
      }
    }
    FoundAll(comps, edges, n);
  }

  lemma NothingFound(edges: set<(nat, nat)>)
    ensures Found([], edges, 0)
  {
  }

  lemma FoundSame(comps: seq<seq<nat>>, edges: set<(nat, nat)>, i: nat)
    requires Found(comps, edges, i) && Placed(comps, i)
    ensures Found(comps, edges, i + 1)
  {
  }

  lemma ReachedBelow(edges: set<(nat, nat)>, n: nat, i: nat)
    requires i < n && forall e :: e in edges ==> e.0 < n && e.1 < n
    ensures forall y: nat :: Reaches(edges, i, y) ==> y < n
  {
    var all := Below(n);
    forall y: nat | Reaches(edges, i, y)
      ensures y < n
    {
      ReachesInside(edges, all, i, y);
    }
  }
}
