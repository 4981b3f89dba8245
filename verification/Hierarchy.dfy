/** The part hierarchy check of build_brief.py. */
module Hierarchy {
  import opened Graphs
  import Sets

  // A depth-first search that keeps the parts on the current path in `visiting` and the finished ones in `visited`.

  type Children = map<string, seq<string>>

  /** Every child is a part. */
  predicate WellFormed(children: Children) {
    forall p :: p in children ==> forall i :: 0 <= i < |children[p]| ==> children[p][i] in children
  }

  ghost function Edges(children: Children): set<(string, string)> {
    set p, c | p in children && c in children[p] :: (p, c)
  }

  /** b is a proper descendant of a. */
  ghost predicate Leads(edges: set<(string, string)>, a: string, b: string) {
    exists c :: (a, c) in edges && Reaches(edges, c, b)
  }

  ghost predicate Acyclic(children: Children) {
    forall p :: p in children ==> !Leads(Edges(children), p, p)
  }

  ghost predicate OnPath(edges: set<(string, string)>, visiting: set<string>, id: string) {
    forall v :: v in visiting ==> Leads(edges, v, id)
  }

  /** Finished parts: nothing leads out of them, and none is its own descendant. */
  ghost predicate Finished(edges: set<(string, string)>, visited: set<string>) {
    Closed(edges, visited) && forall v :: v in visited ==> !Leads(edges, v, v)
  }

  /** `visit`: false when it raises. */
  method Visit(children: Children, id: string, visiting: set<string>, visited: set<string>)
    returns (ok: bool, done: set<string>)
    requires WellFormed(children) && id in children && visiting <= children.Keys
    requires OnPath(Edges(children), visiting, id)
    requires Finished(Edges(children), visited) && visiting !! visited
    ensures ok ==> Finished(Edges(children), done) && visited <= done && id in done && visiting !! done
    ensures !ok ==> !Acyclic(children)
    decreases children.Keys - visiting
  {
    done := visited;
    if id in visiting { return false, done; }
    if id in visited { return true, done; }
    hide OnPath, Finished, Acyclic, Edges;
    ghost var edges := Edges(children);
    var path := visiting + {id};
    for i := 0 to |children[id]|
      invariant Finished(edges, done) && visited <= done && path !! done
      invariant forall j :: 0 <= j < i ==> children[id][j] in done
    {
      var child := children[id][i];
      PathExtends(children, visiting, id, child);
      ok, done := Visit(children, child, path, done);
      if !ok { return false, done; }
    }
    FinishedOne(children, id, done);
    done := done + {id};
    ok := true;
  }

  lemma PathExtends(children: Children, visiting: set<string>, id: string, child: string)
    requires id in children && child in children[id] && OnPath(Edges(children), visiting, id)
    ensures OnPath(Edges(children), visiting + {id}, child)
  {
    var edges := Edges(children);
    ReachesItself(edges, child);
    assert (id, child) in edges;
    forall v | v in visiting
      ensures Leads(edges, v, child)
    {
      var c :| (v, c) in edges && Reaches(edges, c, id);
      ReachesNext(edges, c, id, child);
    }
  }

  /** A part whose children are all finished, and that is not among them, is finished too. */
  lemma FinishedOne(children: Children, id: string, done: set<string>)
    requires id in children && id !in done && Finished(Edges(children), done)
    requires forall j :: 0 <= j < |children[id]| ==> children[id][j] in done
    ensures Finished(Edges(children), done + {id})
  {
    var edges := Edges(children);
    assert forall c :: (id, c) in edges ==> c in done;
    if Leads(edges, id, id) {
      var c :| (id, c) in edges && Reaches(edges, c, id);
      ReachesInside(edges, done, c, id);
    }
  }

  /** The hierarchy check over the parts in their order: rejects exactly when some part is its own descendant. */
  method CheckHierarchy(order: seq<string>, children: Children) returns (ok: bool)
    requires WellFormed(children) && forall p :: p in order <==> p in children
    ensures ok <==> Acyclic(children)
  {
    ghost var edges := Edges(children);
    var visited: set<string> := {};
    for i := 0 to |order|
      invariant Finished(edges, visited) && forall j :: 0 <= j < i ==> order[j] in visited
    {
      hide Finished, Acyclic, Edges, WellFormed;
      ok, visited := Visit(children, order[i], {}, visited);
      if !ok { return false; }
    }
    ok := true;
  }

  /** Accepted hierarchies can be numbered so that every part has a larger number than its children. */
  ghost predicate Numbered(children: Children, depth: map<string, nat>) {
    && (forall p :: p in children ==> p in depth)
    && (forall p, i :: p in children && 0 <= i < |children[p]| ==>
          children[p][i] in depth && depth[children[p][i]] < depth[p])
  }

  lemma NumberedIsAcyclic(children: Children, depth: map<string, nat>)
    requires WellFormed(children) && Numbered(children, depth)
    ensures Acyclic(children)
  {
    var edges := Edges(children);
    forall p | p in children
      ensures !Leads(edges, p, p)
    {
      if Leads(edges, p, p) {
        var c :| (p, c) in edges && Reaches(edges, c, p);
        var below := set x | x in children && depth[x] < depth[p];
        ReachesInside(edges, below, c, p);
      }
    }
  }

  ghost function Descendants(children: Children, p: string): set<string> {
    set x | x in children && Leads(Edges(children), p, x)
  }

  lemma FewerDescendants(children: Children, p: string, c: string)
    requires WellFormed(children) && Acyclic(children) && p in children && c in children[p]
    ensures |Descendants(children, c)| < |Descendants(children, p)|
  {
    var edges := Edges(children);
    assert (p, c) in edges;
    ReachesItself(edges, c);
    forall x | x in Descendants(children, c)
      ensures x in Descendants(children, p)
    {
      var d :| (c, d) in edges && Reaches(edges, d, x);
      ReachesNext(edges, c, c, d);
      ReachesThrough(edges, c, d, x);
    }
    assert c in Descendants(children, p) && c !in Descendants(children, c);
    Sets.SubsetSize(Descendants(children, c), Descendants(children, p));
  }

  /** A hierarchy is accepted exactly when its parts can be numbered from the leaves up. */
  lemma AcyclicIffNumbered(children: Children)
    requires WellFormed(children)
    ensures Acyclic(children) <==> exists depth :: Numbered(children, depth)
  {
    if Acyclic(children) {
      var depth := map p | p in children :: |Descendants(children, p)|;
      forall p, i | p in children && 0 <= i < |children[p]|
        ensures children[p][i] in depth && depth[children[p][i]] < depth[p]
      {
        FewerDescendants(children, p, children[p][i]);
      }
      assert Numbered(children, depth);
    }
    forall depth | Numbered(children, depth)
      ensures Acyclic(children)
    {
      NumberedIsAcyclic(children, depth);
    }
  }
}
