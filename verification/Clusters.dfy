/** Thin-wall clustering (dfm.py). */
module Clusters {
  import opened Graphs

  // Union-find with path halving and no ranks. Lengths, areas and facet radii are exact reals.

  datatype Point = Point(x: real, y: real, z: real)

  /** One ray sample: wall thickness, place, facet area and the radius of a disc of that area. */
  datatype Sample = Sample(t: real, point: Point, area: real, radius: real, faceType: string, curved: bool)

  function Dist2(p: Point, q: Point): real {
    (p.x - q.x) * (p.x - q.x) + (p.y - q.y) * (p.y - q.y) + (p.z - q.z) * (p.z - q.z)
  }

  /** The distance is within the slack plus both radii, compared by squares. */
  predicate Near(a: Sample, b: Sample, slack: real) {
    var reach := slack + a.radius + b.radius;
    reach >= 0.0 && Dist2(a.point, b.point) <= reach * reach
  }

  /** The comparison by squares is the one by distance. */
  lemma NearIsDistance(a: Sample, b: Sample, slack: real, d: real)
    requires var (p, q) := (a.point, b.point);
             d >= 0.0 && d * d == (p.x - q.x) * (p.x - q.x) + (p.y - q.y) * (p.y - q.y) + (p.z - q.z) * (p.z - q.z)
    ensures Near(a, b, slack) <==> d <= slack + a.radius + b.radius
  {
    var reach := slack + a.radius + b.radius;
    if reach >= 0.0 {
      SquaresOrdered(d, reach);
    }
  }

  lemma SquaresOrdered(a: real, b: real)
    requires a >= 0.0 && b >= 0.0
    ensures a * a <= b * b <==> a <= b
  {
    if a < b { SquareLess(a, b); } else if b < a { SquareLess(b, a); }
  }

  lemma SquareLess(a: real, b: real)
    requires 0.0 <= a < b
    ensures a * a < b * b
  {
    Positive(b - a, b + a);
    assert (b - a) * (b + a) == b * b - a * a;
  }

  lemma Positive(a: real, b: real)
    requires a > 0.0 && b > 0.0
    ensures a * b > 0.0
  {
  }

  predicate Linked(samples: seq<Sample>, slack: real, a: nat, b: nat) {
    a < |samples| && b < |samples| && a != b && Near(samples[a], samples[b], slack)
  }

  ghost function Links(samples: seq<Sample>, slack: real): set<(nat, nat)> {
    set a: nat, b: nat | a < |samples| && b < |samples| && Linked(samples, slack, a, b) :: (a, b)
  }

  // ---------------------------------------------------------------- the forest

  /** `parent` is a forest in which `root` names each tree and `rank` grows towards the roots. */
  ghost predicate Forest(parent: seq<nat>, root: seq<nat>, rank: seq<nat>) {
    && |parent| == |root| == |rank|
    && (forall x: nat :: x < |parent| ==> Node(parent, root, rank, x))
  }

  ghost predicate Node(parent: seq<nat>, root: seq<nat>, rank: seq<nat>, x: nat)
    requires |parent| == |root| == |rank| && x < |parent|
  {
    && parent[x] < |parent| && root[x] < |parent|
    && root[parent[x]] == root[x] && root[root[x]] == root[x]
    && (parent[x] == x <==> root[x] == x)
    && (parent[x] != x ==> rank[x] < rank[parent[x]])
    && rank[x] <= rank[root[x]]
  }

  /** `find`: walk to the root, halving the path on the way. */
  method Find(parent: array<nat>, start: nat, ghost root: seq<nat>, ghost rank: seq<nat>) returns (i: nat)
    requires Forest(parent[..], root, rank) && start < parent.Length
    modifies parent
    ensures Forest(parent[..], root, rank) && i == root[start]
  {
    i := start;
    assert Node(parent[..], root, rank, i);
    while parent[i] != i
      invariant i < parent.Length && root[i] == root[start]
      invariant Forest(parent[..], root, rank)
      decreases rank[root[start]] as int - rank[i] as int
    {
      ghost var was := parent[..];
      assert Node(was, root, rank, i) && Node(was, root, rank, parent[i]) && Node(was, root, rank, parent[parent[i]]);
      Halved(was, root, rank, i);
      parent[i] := parent[parent[i]];
      assert parent[..] == was[i := was[was[i]]];
      i := parent[i];
      assert Node(parent[..], root, rank, i);
    }
    assert Node(parent[..], root, rank, i);
  }

  lemma Halved(parent: seq<nat>, root: seq<nat>, rank: seq<nat>, i: nat)
    requires Forest(parent, root, rank) && i < |parent| && parent[i] != i
    ensures parent[i] < |parent| && Forest(parent[i := parent[parent[i]]], root, rank)
  {
    assert Node(parent, root, rank, i) && Node(parent, root, rank, parent[i]);
    var halved := parent[i := parent[parent[i]]];
    forall x: nat | x < |parent|
      ensures Node(halved, root, rank, x)
    {
      assert Node(parent, root, rank, x) && Node(parent, root, rank, parent[parent[i]]);
    }
  }

  /** The tree of `from` renamed to `to`. */
  ghost function Renamed(root: seq<nat>, from: nat, to: nat): seq<nat> {
    seq(|root|, x requires 0 <= x < |root| => if root[x] == from then to else root[x])
  }

  /** The tree of `to` lifted above `from`. */
  ghost function Lifted(root: seq<nat>, rank: seq<nat>, from: nat, to: nat): seq<nat>
    requires |root| == |rank| && from < |rank|
  {
    seq(|root|, x requires 0 <= x < |root| => if root[x] == to then rank[x] + rank[from] + 1 else rank[x])
  }

  lemma Grafted(parent: seq<nat>, root: seq<nat>, rank: seq<nat>, from: nat, to: nat)
    requires Forest(parent, root, rank) && from < |parent| && to < |parent| && from != to
    requires root[from] == from && root[to] == to
    ensures Forest(parent[from := to], Renamed(root, from, to), Lifted(root, rank, from, to))
  {
    var parent', root', rank' := parent[from := to], Renamed(root, from, to), Lifted(root, rank, from, to);
    forall x: nat | x < |parent|
      ensures Node(parent', root', rank', x)
    {
      assert Node(parent, root, rank, x) && Node(parent, root, rank, from) && Node(parent, root, rank, to);
    }
  }

  /** Two indices are in one tree exactly when the links seen so far connect them. */
  ghost predicate Exact(root: seq<nat>, edges: set<(nat, nat)>) {
    && Symmetric(edges) && (forall e :: e in edges ==> e.0 < |root| && e.1 < |root|)
    && (forall a: nat, b: nat :: a < |root| && b < |root| ==> SameTree(root, edges, a, b))
  }

  ghost predicate SameTree(root: seq<nat>, edges: set<(nat, nat)>, a: nat, b: nat)
    requires a < |root| && b < |root|
  {
    root[a] == root[b] <==> Reaches(edges, a, b)
  }

  /** Joining the trees of i and j is what one more link does. */
  lemma OneMoreLink(root: seq<nat>, edges: set<(nat, nat)>, i: nat, j: nat)
    requires Exact(root, edges) && i < |root| && j < |root|
    ensures Exact(Renamed(root, root[i], root[j]), edges + {(i, j), (j, i)})
  {
    var root', more := Renamed(root, root[i], root[j]), edges + {(i, j), (j, i)};
    forall e | e in edges
      ensures root[e.0] == root[e.1]
    {
      ReachesItself(edges, e.0);
      ReachesNext(edges, e.0, e.0, e.1);
      assert SameTree(root, edges, e.0, e.1);
    }
    forall a: nat, b: nat | a < |root| && b < |root|
      ensures SameTree(root', more, a, b)
    {
      if root'[a] == root'[b] {
        Joined(root, edges, i, j, a, b);
      } else if Reaches(more, a, b) {
        var tree := set x: nat | x < |root| && root'[x] == root'[a];
        ReachesInside(more, tree, a, b);
      }
    }
  }

  lemma Joined(root: seq<nat>, edges: set<(nat, nat)>, i: nat, j: nat, a: nat, b: nat)
    requires Exact(root, edges) && i < |root| && j < |root| && a < |root| && b < |root|
    requires Renamed(root, root[i], root[j])[a] == Renamed(root, root[i], root[j])[b]
    ensures Reaches(edges + {(i, j), (j, i)}, a, b)
  {
    var more := edges + {(i, j), (j, i)};
    ReachesItself(more, i);
    ReachesItself(more, j);
    ReachesNext(more, i, i, j);
    ReachesNext(more, j, j, i);
    assert forall x: nat, y: nat :: x < |root| && y < |root| && root[x] == root[y] ==> SameTree(root, edges, x, y);
    if root[a] == root[b] {
      ReachesMore(edges, more, a, b);
    } else if root[a] == root[i] {
      ReachesMore(edges, more, a, i);
      ReachesMore(edges, more, j, b);
      ReachesThrough(more, a, i, j);
      ReachesThrough(more, a, j, b);
    } else {
      ReachesMore(edges, more, a, j);
      ReachesMore(edges, more, i, b);
      ReachesThrough(more, a, j, i);
      ReachesThrough(more, a, i, b);
    }
  }

  /** `parent[find(i)] = find(j)`: the right-hand side is evaluated first. */
  method Union(parent: array<nat>, i: nat, j: nat, ghost root: seq<nat>, ghost rank: seq<nat>)
    returns (ghost root': seq<nat>, ghost rank': seq<nat>)
    requires Forest(parent[..], root, rank) && i < parent.Length && j < parent.Length
    modifies parent
    ensures Forest(parent[..], root', rank') && root' == Renamed(root, root[i], root[j])
  {
    var to := Find(parent, j, root, rank);
    var from := Find(parent, i, root, rank);
    assert Node(parent[..], root, rank, i) && Node(parent[..], root, rank, j) && Node(parent[..], root, rank, from);
    root' := Renamed(root, from, to);
    ghost var was := parent[..];
    parent[from] := to;
    assert parent[..] == was[from := to];
    if from == to {
      assert was[from := to] == was && root' == root;
      rank' := rank;
    } else {
      Grafted(was, root, rank, from, to);
      rank' := Lifted(root, rank, from, to);
    }
  }

  // ---------------------------------------------------------------- clustering

  /** The pair (a, b) comes before (i, j) in the double loop. */
  predicate Visited(a: nat, b: nat, i: nat, j: nat) {
    var lo, hi := if a < b then a else b, if a < b then b else a;
    lo < i || (lo == i && hi < j)
  }

  ghost function Seen(samples: seq<Sample>, slack: real, i: nat, j: nat): set<(nat, nat)> {
    set e | e in Links(samples, slack) && Visited(e.0, e.1, i, j)
  }

  lemma SeenStep(samples: seq<Sample>, slack: real, i: nat, j: nat)
    requires i < j < |samples|
    ensures Seen(samples, slack, i, j + 1) ==
            if Linked(samples, slack, i, j) then Seen(samples, slack, i, j) + {(i, j), (j, i)} else Seen(samples, slack, i, j)
  {
  }

  lemma SeenRow(samples: seq<Sample>, slack: real, i: nat)
    requires i < |samples|
    ensures Seen(samples, slack, i, |samples|) == Seen(samples, slack, i + 1, i + 2)
    ensures Seen(samples, slack, |samples|, |samples| + 1) == Links(samples, slack)
  {
  }

  lemma Apart(root: seq<nat>, rank: seq<nat>, n: nat)
    requires |root| == |rank| == n && forall x: nat :: x < n ==> root[x] == x && rank[x] == 0
    ensures Forest(root, root, rank) && Exact(root, {})
  {
    forall a: nat, b: nat | a < n && b < n
      ensures SameTree(root, {}, a, b)
    {
      if a == b { ReachesItself({}, a); }
      else if Reaches({}, a, b) { ReachesInside({}, {a}, a, b); }
    }
  }

  /** The double loop over pairs. */
  method LinkAll(parent: array<nat>, samples: seq<Sample>, slack: real) returns (ghost root: seq<nat>, ghost rank: seq<nat>)
    requires parent.Length == |samples| && forall i :: 0 <= i < parent.Length ==> parent[i] == i
    modifies parent
    ensures Forest(parent[..], root, rank) && Exact(root, Links(samples, slack))
  {
    var n := |samples|;
    root, rank := parent[..], seq(n, _ => 0);
    Apart(root, rank, n);
    assert Seen(samples, slack, 0, 1) == {};
    for i := 0 to n
      invariant Forest(parent[..], root, rank) && |root| == n
      invariant Exact(root, Seen(samples, slack, i, i + 1))
    {
      for j := i + 1 to n
        invariant Forest(parent[..], root, rank) && |root| == n
        invariant Exact(root, Seen(samples, slack, i, j))
      {
        SeenStep(samples, slack, i, j);
        if Near(samples[i], samples[j], slack) {
          OneMoreLink(root, Seen(samples, slack, i, j), i, j);
          root, rank := Union(parent, i, j, root, rank);
        }
      }
      SeenRow(samples, slack, i);
    }
    assert Seen(samples, slack, n, n + 1) == Links(samples, slack);
  }

  /** A group of the first `i` samples under root r. */
  ghost predicate Family(group: seq<nat>, root: seq<nat>, i: nat, r: nat)
    requires i <= |root|
  {
    group != [] && Ascending(group) && forall k :: 0 <= k < |group| ==> group[k] < i && root[group[k]] == r
  }

  ghost predicate Filed(groups: map<nat, seq<nat>>, root: seq<nat>, x: nat)
    requires x < |root|
  {
    root[x] in groups && x in groups[root[x]]
  }

  /** The groups gathered from the first `i` samples, under their roots in order of appearance. */
  ghost predicate Gathered(order: seq<nat>, groups: map<nat, seq<nat>>, root: seq<nat>, i: nat)
    requires i <= |root|
  {
    && (forall k :: 0 <= k < |order| ==> order[k] in groups && Family(groups[order[k]], root, i, order[k]))
    && (forall r: nat :: r in groups ==> r in order)
    && (forall j, k :: 0 <= j < k < |order| ==> groups[order[j]][0] < groups[order[k]][0])
    && (forall x: nat :: x < i ==> Filed(groups, root, x))
  }

  lemma GatheredNext(order: seq<nat>, groups: map<nat, seq<nat>>, root: seq<nat>, i: nat)
    requires i < |root| && Gathered(order, groups, root, i)
    ensures var r := root[i];
            if r in groups then Gathered(order, groups[r := groups[r] + [i]], root, i + 1)
            else Gathered(order + [r], groups[r := [i]], root, i + 1)
  {
    var r := root[i];
    if r in groups {
      var k :| 0 <= k < |order| && order[k] == r;
      assert Family(groups[order[k]], root, i, r);
      LongerFamily(groups[r], root, i, r);
      FiledNext(groups, groups[r := groups[r] + [i]], root, i);
    } else {
      var order', groups' := order + [r], groups[r := [i]];
      assert Family([i], root, i + 1, r);
      assert order'[|order|] == r;
      FiledNext(groups, groups', root, i);
      forall k | 0 <= k < |order'|
        ensures order'[k] in groups' && Family(groups'[order'[k]], root, i + 1, order'[k])
      {
        if k < |order| { assert Family(groups[order[k]], root, i, order[k]); }
      }
    }
  }

  lemma LongerFamily(group: seq<nat>, root: seq<nat>, i: nat, r: nat)
    requires i < |root| && root[i] == r && Family(group, root, i, r)
    ensures Family(group + [i], root, i + 1, r) && (group + [i])[0] == group[0]
  {
  }

  lemma FiledNext(groups: map<nat, seq<nat>>, more: map<nat, seq<nat>>, root: seq<nat>, i: nat)
    requires i < |root| && (forall x: nat :: x < i ==> Filed(groups, root, x))
    requires root[i] in more && i in more[root[i]]
    requires forall r: nat :: r in groups ==> r in more && forall x: nat :: x in groups[r] ==> x in more[r]
    ensures forall x: nat :: x <= i ==> Filed(more, root, x)
  {
    forall x: nat | x <= i
      ensures Filed(more, root, x)
    {
      if x < i { assert Filed(groups, root, x); }
    }
  }

  lemma GatheredAll(order: seq<nat>, groups: map<nat, seq<nat>>, root: seq<nat>, edges: set<(nat, nat)>, result: seq<seq<nat>>)
    requires Gathered(order, groups, root, |root|) && Exact(root, edges)
    requires |result| == |order| && forall k :: 0 <= k < |order| ==> order[k] in groups && result[k] == groups[order[k]]
    ensures Components(result, |root|, edges)
  {
    var n := |root|;
    forall g, x: nat | 0 <= g < |result| && x in result[g]
      ensures x < n && root[x] == order[g]
    {
      assert Family(groups[order[g]], root, n, order[g]);
    }
    assert forall g, h :: 0 <= g < h < |result| ==> order[g] != order[h];
    forall g, h, x: nat, y: nat | 0 <= g < |result| && 0 <= h < |result| && x in result[g] && y in result[h]
      ensures g == h <==> Reaches(edges, x, y)
    {
      assert SameTree(root, edges, x, y);
    }
    forall x: nat | x < n
      ensures Placed(result, x)
    {
      assert Filed(groups, root, x);
      var k :| 0 <= k < |order| && order[k] == root[x];
      assert x in result[k];
    }
  }

  /** `_cluster_thin_samples`: the indices of the samples, group by group. */
  method ClusterThinSamples(samples: seq<Sample>, slack: real) returns (result: seq<seq<nat>>)
    ensures Components(result, |samples|, Links(samples, slack))
  {
    var n := |samples|;
    var parent := new nat[n](i => i);
    ghost var root, rank := LinkAll(parent, samples, slack);
    var order: seq<nat>, groups: map<nat, seq<nat>> := [], map[];
    for i := 0 to n
      invariant Forest(parent[..], root, rank)
      invariant Gathered(order, groups, root, i)
    {
      var r := Find(parent, i, root, rank);
      GatheredNext(order, groups, root, i);
      hide Gathered;
      ghost var was := groups;
      if r !in groups {
        order := order + [r];
        groups := groups[r := []];
      }
      groups := groups[r := groups[r] + [i]];
      if r in was {
        assert groups == was[r := was[r] + [i]];
      } else {
        assert [] + [i] == [i];
        assert groups == was[r := [i]];
      }
    }
    result := seq(|order|, k requires 0 <= k < |order| && order[k] in groups => groups[order[k]]);
    GatheredAll(order, groups, root, Links(samples, slack), result);
  }
}
