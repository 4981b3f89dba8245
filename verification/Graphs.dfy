/** Chains of links, and what it means to split 0..n into the groups that chains connect. */
module Graphs {

  ghost predicate Walk<T>(edges: set<(T, T)>, path: seq<T>) {
    forall k :: 0 <= k < |path| - 1 ==> (path[k], path[k + 1]) in edges
  }

  ghost predicate WalkFrom<T>(edges: set<(T, T)>, path: seq<T>, a: T, b: T) {
    path != [] && path[0] == a && path[|path| - 1] == b && Walk(edges, path)
  }

  /** A chain of links leads from a to b; the empty chain leads from a to a. */
  ghost predicate Reaches<T(!new)>(edges: set<(T, T)>, a: T, b: T) {
    exists path :: WalkFrom(edges, path, a, b)
  }

  ghost predicate Symmetric<T>(edges: set<(T, T)>) { forall e :: e in edges ==> (e.1, e.0) in edges }

  ghost predicate Closed<T>(edges: set<(T, T)>, s: set<T>) { forall e :: e in edges && e.0 in s ==> e.1 in s }

  lemma ReachesItself<T(!new)>(edges: set<(T, T)>, a: T)
    ensures Reaches(edges, a, a)
  {
    assert WalkFrom(edges, [a], a, a);
  }

  lemma ReachesNext<T(!new)>(edges: set<(T, T)>, a: T, b: T, c: T)
    requires Reaches(edges, a, b) && (b, c) in edges
    ensures Reaches(edges, a, c)
  {
    var path :| WalkFrom(edges, path, a, b);
    assert WalkFrom(edges, path + [c], a, c);
  }

  lemma ReachesThrough<T(!new)>(edges: set<(T, T)>, a: T, b: T, c: T)
    requires Reaches(edges, a, b) && Reaches(edges, b, c)
    ensures Reaches(edges, a, c)
  {
    var p :| WalkFrom(edges, p, a, b);
    var q :| WalkFrom(edges, q, b, c);
    assert WalkFrom(edges, p + q[1..], a, c);
  }

  lemma ReachesBack<T(!new)>(edges: set<(T, T)>, a: T, b: T)
    requires Symmetric(edges) && Reaches(edges, a, b)
    ensures Reaches(edges, b, a)
  {
    var p :| WalkFrom(edges, p, a, b);
    var q := seq(|p|, k requires 0 <= k < |p| => p[|p| - 1 - k]);
    forall k | 0 <= k < |q| - 1
      ensures (q[k], q[k + 1]) in edges
    {
      assert (p[|p| - 2 - k], p[|p| - 2 - k + 1]) in edges;
    }
    assert WalkFrom(edges, q, b, a);
  }

  lemma ReachesMore<T(!new)>(edges: set<(T, T)>, more: set<(T, T)>, a: T, b: T)
    requires Reaches(edges, a, b) && edges <= more
    ensures Reaches(more, a, b)
  {
    var p :| WalkFrom(edges, p, a, b);
    assert WalkFrom(more, p, a, b);
  }

  lemma ReachesInside<T(!new)>(edges: set<(T, T)>, s: set<T>, a: T, b: T)
    requires Closed(edges, s) && a in s && Reaches(edges, a, b)
    ensures b in s
  {
    var p :| WalkFrom(edges, p, a, b);
    WalkInside(edges, s, p);
  }

  lemma {:induction false} WalkInside<T(!new)>(edges: set<(T, T)>, s: set<T>, path: seq<T>)
    requires Closed(edges, s) && path != [] && path[0] in s && Walk(edges, path)
    ensures path[|path| - 1] in s
  {
    if |path| > 1 {
      assert (path[0], path[1]) in edges;
      WalkInside(edges, s, path[1..]);
    }
  }

  /** What can be reached from `from` is the least set that holds `from` and is closed under the links. */
  lemma ReachableIsLeast<T(!new)>(edges: set<(T, T)>, from: set<T>, all: set<T>)
    requires forall x :: x in all <==> exists a :: a in from && Reaches(edges, a, x)
    ensures from <= all && Closed(edges, all)
    ensures forall s: set<T> :: from <= s && Closed(edges, s) ==> all <= s
  {
    forall a | a in from
      ensures a in all
    {
      ReachesItself(edges, a);
    }
    forall e | e in edges && e.0 in all
      ensures e.1 in all
    {
      var a :| a in from && Reaches(edges, a, e.0);
      ReachesNext(edges, a, e.0, e.1);
    }
    forall s: set<T>, x | from <= s && Closed(edges, s) && x in all
      ensures x in s
    {
      var a :| a in from && Reaches(edges, a, x);
      ReachesInside(edges, s, a, x);
    }
  }

  // ---------------------------------------------------------------- groups

  /** A list of groups in which every index below n stands exactly once, ascending within its group. */
  ghost predicate Partition(groups: seq<seq<nat>>, n: nat) {
    && (forall g, i :: 0 <= g < |groups| && 0 <= i < |groups[g]| ==> groups[g][i] < n)
    && (forall g, i, j :: 0 <= g < |groups| && 0 <= i < j < |groups[g]| ==> groups[g][i] < groups[g][j])
    && (forall g, h, x: nat :: 0 <= g < |groups| && 0 <= h < |groups| && x in groups[g] && x in groups[h] ==> g == h)
    && (forall x: nat :: x < n ==> Placed(groups, x))
  }

  ghost predicate Placed(groups: seq<seq<nat>>, x: nat) { exists g :: 0 <= g < |groups| && x in groups[g] }

  ghost predicate Ordered(groups: seq<seq<nat>>) {
    && (forall g :: 0 <= g < |groups| ==> groups[g] != [])
    && (forall g, h :: 0 <= g < h < |groups| ==> groups[g][0] < groups[h][0])
  }

  /** The partition of 0..n into the groups that chains of links connect, by least member. */
  ghost predicate Components(groups: seq<seq<nat>>, n: nat, edges: set<(nat, nat)>) {
    && Partition(groups, n) && Ordered(groups)
    && (forall g, h, x: nat, y: nat :: 0 <= g < |groups| && 0 <= h < |groups| && x in groups[g] && y in groups[h] ==>
          (g == h <==> Reaches(edges, x, y)))
  }

  /** There is only one such list. */
  lemma ComponentsUnique(p: seq<seq<nat>>, q: seq<seq<nat>>, n: nat, edges: set<(nat, nat)>)
    requires Components(p, n, edges) && Components(q, n, edges)
    ensures p == q
  {
    hide Components;
    ComponentsPrefix(p, q, n, edges, |p|);
    ComponentsPrefix(q, p, n, edges, |q|);
  }

  lemma {:induction false} ComponentsPrefix(p: seq<seq<nat>>, q: seq<seq<nat>>, n: nat, edges: set<(nat, nat)>, k: nat)
    requires Components(p, n, edges) && Components(q, n, edges) && k <= |p|
    ensures k <= |q| && p[..k] == q[..k]
  {
    assert Ordered(p) && Ordered(q);
    hide Components;
    if k > 0 {
      ComponentsPrefix(p, q, n, edges, k - 1);
      var i := k - 1;
      assert forall g :: 0 <= g < i ==> p[g] == p[..i][g] == q[g];
      var h := Counterpart(p, i, q, n, edges);
      assert h >= i;
      if h > i { var g := Counterpart(q, i, p, n, edges); }
      assert h == i;
      assert p[..k] == p[..i] + [p[i]];
      assert q[..k] == q[..i] + [q[i]];
    }
  }

  lemma Counterpart(p: seq<seq<nat>>, g: nat, q: seq<seq<nat>>, n: nat, edges: set<(nat, nat)>) returns (h: nat)
    requires Components(p, n, edges) && Components(q, n, edges) && g < |p|
    ensures h < |q| && p[g] == q[h]
  {
    var x := p[g][0];
    assert x in p[g] && x < n;
    assert Placed(q, x);
    h :| h < |q| && x in q[h];
    SameGroup(p, g, q, h, n, edges, x);
  }

  /** Groups of two such lists that share a member are equal. */
  lemma SameGroup(p: seq<seq<nat>>, g: nat, q: seq<seq<nat>>, h: nat, n: nat, edges: set<(nat, nat)>, x: nat)
    requires Components(p, n, edges) && Components(q, n, edges) && g < |p| && h < |q| && x in p[g] && x in q[h]
    ensures p[g] == q[h]
  {
    SubGroup(p, g, q, h, n, edges, x);
    SubGroup(q, h, p, g, n, edges, x);
    SameElements(p[g], q[h]);
  }

  lemma SubGroup(p: seq<seq<nat>>, g: nat, q: seq<seq<nat>>, h: nat, n: nat, edges: set<(nat, nat)>, x: nat)
    requires Components(p, n, edges) && Components(q, n, edges) && g < |p| && h < |q| && x in p[g] && x in q[h]
    ensures forall y: nat :: y in p[g] ==> y in q[h]
  {
    forall y: nat | y in p[g]
      ensures y in q[h]
    {
      assert Reaches(edges, x, y);
      assert Placed(q, y);
    }
  }

  ghost predicate Ascending(s: seq<nat>) { forall i, j :: 0 <= i < j < |s| ==> s[i] < s[j] }

  lemma {:induction false} SameElements(s: seq<nat>, t: seq<nat>)
    requires Ascending(s) && Ascending(t) && (forall x: nat :: x in s <==> x in t)
    ensures s == t
  {
    assert s != [] ==> s[0] in t;
    assert t != [] ==> t[0] in s;
    if s != [] {
      assert s[0] == t[0];
      forall x: nat
        ensures x in s[1..] <==> x in t[1..]
      {
        assert x in s[1..] <==> x in s && x != s[0];
        assert x in t[1..] <==> x in t && x != t[0];
      }
      SameElements(s[1..], t[1..]);
    }
  }

  // ---------------------------------------------------------------- sums over groups

  function Sum(w: seq<real>, group: seq<nat>): real {
    if group == [] then 0.0
    else Sum(w, group[..|group| - 1]) + (if group[|group| - 1] < |w| then w[group[|group| - 1]] else 0.0)
  }

  function SumGroups(w: seq<real>, groups: seq<seq<nat>>): real {
    if groups == [] then 0.0 else SumGroups(w, groups[..|groups| - 1]) + Sum(w, groups[|groups| - 1])
  }

  function SumFirst(w: seq<real>, n: nat): real
    requires n <= |w|
  {
    if n == 0 then 0.0 else SumFirst(w, n - 1) + w[n - 1]
  }

  /** Any partition conserves the total weight. */
  lemma {:induction false} PartitionConserves(w: seq<real>, groups: seq<seq<nat>>, n: nat)
    requires Partition(groups, n) && n <= |w|
    ensures SumGroups(w, groups) == SumFirst(w, n)
    decreases n
  {
    if n == 0 {
      MembersBelow(groups, n);
      AllEmpty(w, groups);
    } else {
      var g := LastGroup(groups, n);
      var group := groups[g][..|groups[g]| - 1];
      WithoutLast(groups, g, n);
      hide Partition;
      PartitionConserves(w, groups[g := group], n - 1);
      SumReplaced(w, groups, g, group);
      hide SumGroups;
      assert Sum(w, groups[g]) == Sum(w, group) + w[n - 1];
    }
  }

  lemma MembersBelow(groups: seq<seq<nat>>, n: nat)
    requires Partition(groups, n)
    ensures forall g :: 0 <= g < |groups| && groups[g] != [] ==> 0 < n
  {
    forall g | 0 <= g < |groups| && groups[g] != []
      ensures 0 < n
    {
      assert groups[g][0] < n;
    }
  }

  lemma LastGroup(groups: seq<seq<nat>>, n: nat) returns (g: nat)
    requires n > 0 && Partition(groups, n)
    ensures g < |groups| && groups[g] != [] && groups[g][|groups[g]| - 1] == n - 1
  {
    assert Placed(groups, n - 1);
    g :| g < |groups| && n - 1 in groups[g];
    var i :| 0 <= i < |groups[g]| && groups[g][i] == n - 1;
  }

  lemma {:induction false} AllEmpty(w: seq<real>, groups: seq<seq<nat>>)
    requires forall g :: 0 <= g < |groups| ==> groups[g] == []
    ensures SumGroups(w, groups) == 0.0
  {
    if groups != [] { AllEmpty(w, groups[..|groups| - 1]); }
  }

  lemma {:induction false} SumReplaced(w: seq<real>, groups: seq<seq<nat>>, g: nat, group: seq<nat>)
    requires g < |groups|
    ensures SumGroups(w, groups[g := group]) == SumGroups(w, groups) - Sum(w, groups[g]) + Sum(w, group)
  {
    var m := |groups| - 1;
    var changed := groups[g := group];
    if g == m {
      assert changed[..m] == groups[..m];
    } else {
      assert changed[..m] == groups[..m][g := group];
      SumReplaced(w, groups[..m], g, group);
    }
  }

  lemma WithoutLast(groups: seq<seq<nat>>, g: nat, n: nat)
    requires n > 0 && Partition(groups, n) && g < |groups| && groups[g] != [] && groups[g][|groups[g]| - 1] == n - 1
    ensures Partition(groups[g := groups[g][..|groups[g]| - 1]], n - 1)
  {
    var last := |groups[g]| - 1;
    var rest := groups[g := groups[g][..last]];
    forall h, i | 0 <= h < |rest| && 0 <= i < |rest[h]|
      ensures rest[h][i] < n - 1
    {
      assert groups[h][i] in groups[h];
      if h == g { assert groups[g][i] < groups[g][last]; }
    }
    forall x: nat | x < n - 1
      ensures Placed(rest, x)
    {
      assert Placed(groups, x);
      var h :| 0 <= h < |groups| && x in groups[h];
      var i :| 0 <= i < |groups[h]| && groups[h][i] == x;
      assert rest[h][i] == x;
    }
    assert forall h, x: nat :: 0 <= h < |rest| && x in rest[h] ==> x in groups[h];
  }
}
