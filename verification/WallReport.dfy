/** The wall findings of one solid (dfm.py). */
module WallReport {
  import opened Clusters
  import opened Graphs

  // `_violations_from_samples`. Messages and rounding are left out; the findings carry the unrounded values.

  datatype Limits = Limits(loadBearing: real, minWall: real, minArea: real, slack: real)

  datatype Severity = Critical | Advisory

  datatype Finding = Finding(severity: Severity, measured: real, threshold: real, minWall: real, location: Point,
                             artifact: bool, faceType: string, curved: bool, area: real, samples: nat)

  /** The samples below the load-bearing limit, in order. */
  function Thin(samples: seq<Sample>, limit: real): seq<Sample> {
    if samples == [] then []
    else Thin(samples[..|samples| - 1], limit) +
         (if samples[|samples| - 1].t < limit then [samples[|samples| - 1]] else [])
  }

  function Areas(samples: seq<Sample>): seq<real> { seq(|samples|, i requires 0 <= i < |samples| => samples[i].area) }

  /** Total area of a list of samples. */
  function TotalArea(samples: seq<Sample>): real { SumFirst(Areas(samples), |samples|) }

  /** The k-th sample of the group is its thinnest one, and the first of these. */
  ghost predicate FirstThinnest(thin: seq<Sample>, group: seq<nat>, k: nat)
    requires k < |group| && forall i :: 0 <= i < |group| ==> group[i] < |thin|
  {
    && (forall i :: 0 <= i < k ==> thin[group[k]].t < thin[group[i]].t)
    && (forall i :: k <= i < |group| ==> thin[group[k]].t <= thin[group[i]].t)
  }

  ghost predicate Least(samples: seq<Sample>, t: real) {
    (exists i :: 0 <= i < |samples| && samples[i].t == t) && forall i :: 0 <= i < |samples| ==> t <= samples[i].t
  }

  /** What a finding says about its cluster. Only a region of real extent below the hard minimum is critical. */
  ghost predicate Describes(f: Finding, thin: seq<Sample>, group: seq<nat>, thinnest: real, c: Limits) {
    && (forall i :: 0 <= i < |group| ==> group[i] < |thin|)
    && f.samples == |group| && f.area == Sum(Areas(thin), group) && f.minWall == thinnest
    && (f.artifact <==> f.area < c.minArea)
    && (f.severity == Critical <==> f.measured < c.minWall && !f.artifact)
    && f.threshold == (if f.measured < c.minWall then c.minWall else c.loadBearing)
    && exists k: nat :: k < |group| && FirstThinnest(thin, group, k) && FromSample(f, thin[group[k]])
  }

  predicate FromSample(f: Finding, s: Sample) {
    f.measured == s.t && f.location == s.point && f.faceType == s.faceType && f.curved == s.curved
  }

  function Select(findings: seq<Finding>, severity: Severity): seq<Finding> {
    if findings == [] then []
    else Select(findings[..|findings| - 1], severity) +
         (if findings[|findings| - 1].severity == severity then [findings[|findings| - 1]] else [])
  }

  /** The stable sort by severity. */
  function CriticalFirst(findings: seq<Finding>): seq<Finding> { Select(findings, Critical) + Select(findings, Advisory) }

  ghost predicate Covers(found: seq<Finding>, groups: seq<seq<nat>>, samples: seq<Sample>, thinnest: real, c: Limits) {
    var thin := Thin(samples, c.loadBearing);
    && Components(groups, |thin|, Links(thin, c.slack))
    && (samples != [] ==> Least(samples, thinnest))
    && |found| == |groups| && forall g :: 0 <= g < |groups| ==> Describes(found[g], thin, groups[g], thinnest, c)
  }

  /** One finding per cluster of thin samples, critical ones first. */
  ghost predicate IsReport(out: seq<Finding>, samples: seq<Sample>, c: Limits) {
    exists groups, found, thinnest :: Covers(found, groups, samples, thinnest, c) && out == CriticalFirst(found)
  }

  // ---------------------------------------------------------------- the code

  method Filter(samples: seq<Sample>, limit: real) returns (thin: seq<Sample>)
    ensures thin == Thin(samples, limit)
  {
    thin := [];
    for i := 0 to |samples|
      invariant thin == Thin(samples[..i], limit)
    {
      assert samples[..i + 1][..i] == samples[..i];
      if samples[i].t < limit { thin := thin + [samples[i]]; }
    }
    assert samples[..|samples|] == samples;
  }

  method Thinnest(samples: seq<Sample>) returns (t: real)
    requires samples != []
    ensures Least(samples, t)
  {
    t := samples[0].t;
    for i := 1 to |samples|
      invariant exists k :: 0 <= k < i && samples[k].t == t
      invariant forall k :: 0 <= k < i ==> t <= samples[k].t
    {
      if samples[i].t < t { t := samples[i].t; }
    }
  }

  method FindWorst(thin: seq<Sample>, group: seq<nat>) returns (k: nat)
    requires group != [] && forall i :: 0 <= i < |group| ==> group[i] < |thin|
    ensures k < |group| && FirstThinnest(thin, group, k)
  {
    k := 0;
    for i := 1 to |group|
      invariant k < i
      invariant forall j :: 0 <= j < k ==> thin[group[k]].t < thin[group[j]].t
      invariant forall j :: k <= j < i ==> thin[group[k]].t <= thin[group[j]].t
    {
      if thin[group[i]].t < thin[group[k]].t { k := i; }
    }
  }

  method Measure(thin: seq<Sample>, group: seq<nat>) returns (area: real)
    requires forall i :: 0 <= i < |group| ==> group[i] < |thin|
    ensures area == Sum(Areas(thin), group)
  {
    area := 0.0;
    for i := 0 to |group|
      invariant area == Sum(Areas(thin), group[..i])
    {
      assert group[..i + 1][..i] == group[..i];
      area := area + thin[group[i]].area;
    }
    assert group[..|group|] == group;
  }

  method Assess(thin: seq<Sample>, group: seq<nat>, thinnest: real, c: Limits) returns (f: Finding)
    requires group != [] && forall i :: 0 <= i < |group| ==> group[i] < |thin|
    ensures Describes(f, thin, group, thinnest, c)
  {
    var k := FindWorst(thin, group);
    var worst := thin[group[k]];
    var area := Measure(thin, group);
    var artifact := area < c.minArea;
    var severity, threshold := Advisory, c.loadBearing;
    if worst.t < c.minWall { severity, threshold := Critical, c.minWall; }
    if artifact { severity := Advisory; }
    f := Finding(severity, worst.t, threshold, thinnest, worst.point, artifact, worst.faceType, worst.curved, area, |group|);
    assert FromSample(f, thin[group[k]]);
  }

  method SortCriticalFirst(findings: seq<Finding>) returns (out: seq<Finding>)
    ensures out == CriticalFirst(findings)
  {
    var critical, rest := [], [];
    for i := 0 to |findings|
      invariant critical == Select(findings[..i], Critical) && rest == Select(findings[..i], Advisory)
    {
      assert findings[..i + 1][..i] == findings[..i];
      if findings[i].severity == Critical { critical := critical + [findings[i]]; } else { rest := rest + [findings[i]]; }
    }
    assert findings[..|findings|] == findings;
    out := critical + rest;
  }

  /** `_violations_from_samples`. */
  method ViolationsFromSamples(samples: seq<Sample>, c: Limits) returns (out: seq<Finding>)
    ensures IsReport(out, samples, c)
  {
    if samples == [] {
      assert Covers([], [], samples, 0.0, c);
      assert CriticalFirst([]) == [];
      return [];
    }
    var thinnest := Thinnest(samples);
    var thin := Filter(samples, c.loadBearing);
    var groups := ClusterThinSamples(thin, c.slack);
    var found: seq<Finding> := [];
    for g := 0 to |groups|
      invariant |found| == g && forall k :: 0 <= k < g ==> Describes(found[k], thin, groups[k], thinnest, c)
    {
      var f := Assess(thin, groups[g], thinnest, c);
      found := found + [f];
    }
    out := SortCriticalFirst(found);
    assert Covers(found, groups, samples, thinnest, c);
  }

  // ---------------------------------------------------------------- what a report is worth

  function ReportedArea(findings: seq<Finding>): real {
    if findings == [] then 0.0 else ReportedArea(findings[..|findings| - 1]) + findings[|findings| - 1].area
  }

  function ReportedSamples(findings: seq<Finding>): nat {
    if findings == [] then 0 else ReportedSamples(findings[..|findings| - 1]) + findings[|findings| - 1].samples
  }

  lemma WorstSample(f: Finding, thin: seq<Sample>, group: seq<nat>, t: real, c: Limits) returns (k: nat)
    requires Describes(f, thin, group, t, c)
    ensures k < |group| && (forall i :: 0 <= i < |group| ==> group[i] < |thin|)
    ensures FirstThinnest(thin, group, k) && FromSample(f, thin[group[k]])
  {
    hide Sum, Areas;
    k :| k < |group| && FirstThinnest(thin, group, k) && FromSample(f, thin[group[k]]);
  }

  /** The samples determine the report. */
  lemma ReportUnique(a: seq<Finding>, b: seq<Finding>, samples: seq<Sample>, c: Limits)
    requires IsReport(a, samples, c) && IsReport(b, samples, c)
    ensures a == b
  {
    var p: seq<seq<nat>>, f: seq<Finding>, s: real :| Covers(f, p, samples, s, c) && a == CriticalFirst(f);
    var q: seq<seq<nat>>, g: seq<Finding>, t: real :| Covers(g, q, samples, t, c) && b == CriticalFirst(g);
    hide Components, Describes, Thin, CriticalFirst;
    ComponentsUnique(p, q, |Thin(samples, c.loadBearing)|, Links(Thin(samples, c.loadBearing), c.slack));
    assert f == g by { SameFindings(f, g, p, samples, s, t, c); }
  }

  lemma SameFindings(f: seq<Finding>, g: seq<Finding>, groups: seq<seq<nat>>, samples: seq<Sample>, s: real, t: real, c: Limits)
    requires Covers(f, groups, samples, s, c) && Covers(g, groups, samples, t, c)
    ensures f == g
  {
    var thin := Thin(samples, c.loadBearing);
    if samples == [] {
      SomeMember(groups, |thin|);
    } else {
      hide Components, Describes, Thin;
      forall k | 0 <= k < |f|
        ensures f[k] == g[k]
      {
        DescribesOne(f[k], g[k], thin, groups[k], s, c);
      }
    }
  }

  lemma SomeMember(p: seq<seq<nat>>, n: nat)
    requires Partition(p, n) && Ordered(p)
    ensures p != [] ==> n > 0
  {
    if p != [] { assert p[0][0] < n; }
  }

  lemma DescribesOne(f: Finding, g: Finding, thin: seq<Sample>, group: seq<nat>, t: real, c: Limits)
    requires Describes(f, thin, group, t, c) && Describes(g, thin, group, t, c)
    ensures f == g
  {
    var i := WorstSample(f, thin, group, t, c);
    var j := WorstSample(g, thin, group, t, c);
    hide Sum, Areas;
    assert i == j;
  }

  /** Nothing thin is lost or counted twice: areas and sample counts add up to those of the thin samples. */
  lemma ReportConserves(out: seq<Finding>, samples: seq<Sample>, c: Limits)
    requires IsReport(out, samples, c)
    ensures ReportedArea(out) == TotalArea(Thin(samples, c.loadBearing))
    ensures ReportedSamples(out) == |Thin(samples, c.loadBearing)|
  {
    var groups: seq<seq<nat>>, found: seq<Finding>, t: real :| Covers(found, groups, samples, t, c) && out == CriticalFirst(found);
    var thin := Thin(samples, c.loadBearing);
    var n, w := |thin|, Areas(thin);
    SortConserves(found);
    FoundArea(found, groups, thin, t, c);
    PartitionConserves(w, groups, n);
    var ones := seq(n, _ => 1.0);
    FoundSamples(found, groups, thin, t, c, ones);
    PartitionConserves(ones, groups, n);
    OnesCount(ones, n);
  }

  lemma {:induction false} FoundArea(found: seq<Finding>, groups: seq<seq<nat>>, thin: seq<Sample>, t: real, c: Limits)
    requires |found| == |groups| && forall g :: 0 <= g < |groups| ==> Describes(found[g], thin, groups[g], t, c)
    ensures ReportedArea(found) == SumGroups(Areas(thin), groups)
  {
    if found != [] {
      var m := |found| - 1;
      FoundArea(found[..m], groups[..m], thin, t, c);
    }
  }

  lemma {:induction false} FoundSamples(found: seq<Finding>, groups: seq<seq<nat>>, thin: seq<Sample>, t: real, c: Limits, ones: seq<real>)
    requires |found| == |groups| && forall g :: 0 <= g < |groups| ==> Describes(found[g], thin, groups[g], t, c)
    requires |ones| == |thin| && forall i :: 0 <= i < |ones| ==> ones[i] == 1.0
    ensures ReportedSamples(found) as real == SumGroups(ones, groups)
  {
    if found != [] {
      var m := |found| - 1;
      FoundSamples(found[..m], groups[..m], thin, t, c, ones);
      GroupCount(ones, groups[m]);
    }
  }

  lemma {:induction false} GroupCount(ones: seq<real>, group: seq<nat>)
    requires forall i :: 0 <= i < |ones| ==> ones[i] == 1.0
    requires forall i :: 0 <= i < |group| ==> group[i] < |ones|
    ensures Sum(ones, group) == |group| as real
  {
    if group != [] { GroupCount(ones, group[..|group| - 1]); }
  }

  lemma {:induction false} OnesCount(ones: seq<real>, n: nat)
    requires n <= |ones| && forall i :: 0 <= i < |ones| ==> ones[i] == 1.0
    ensures SumFirst(ones, n) == n as real
  {
    if n > 0 { OnesCount(ones, n - 1); }
  }

  lemma {:induction false} SortConserves(found: seq<Finding>)
    ensures ReportedArea(CriticalFirst(found)) == ReportedArea(found)
    ensures ReportedSamples(CriticalFirst(found)) == ReportedSamples(found)
  {
    ReportedAppend(Select(found, Critical), Select(found, Advisory));
    SelectConserves(found);
  }

  lemma {:induction false} SelectConserves(found: seq<Finding>)
    ensures ReportedArea(Select(found, Critical)) + ReportedArea(Select(found, Advisory)) == ReportedArea(found)
    ensures ReportedSamples(Select(found, Critical)) + ReportedSamples(Select(found, Advisory)) == ReportedSamples(found)
  {
    if found != [] {
      var init, last := found[..|found| - 1], found[|found| - 1];
      SelectConserves(init);
      ReportedAppend(Select(init, last.severity), [last]);
      assert [last][..0] == [];
      assert forall s :: Select(found, s) == Select(init, s) + (if last.severity == s then [last] else []);
      assert forall s :: s != last.severity ==> Select(found, s) == Select(init, s);
      hide Select;
    }
  }

  lemma {:induction false} ReportedAppend(a: seq<Finding>, b: seq<Finding>)
    ensures ReportedArea(a + b) == ReportedArea(a) + ReportedArea(b)
    ensures ReportedSamples(a + b) == ReportedSamples(a) + ReportedSamples(b)
  {
    if b == [] {
      assert a + b == a;
    } else {
      assert (a + b)[..|a + b| - 1] == a + b[..|b| - 1];
      ReportedAppend(a, b[..|b| - 1]);
    }
  }

  /** The sort loses nothing, puts critical findings first, and keeps the order among equals. */
  lemma SortIsStable(found: seq<Finding>)
    ensures multiset(CriticalFirst(found)) == multiset(found)
    ensures forall i, j :: 0 <= i < j < |CriticalFirst(found)| && CriticalFirst(found)[j].severity == Critical ==>
              CriticalFirst(found)[i].severity == Critical
    ensures forall severity :: Select(CriticalFirst(found), severity) == Select(found, severity)
  {
    SelectSpec(found);
    SelectOnly(found, Critical);
    SelectOnly(found, Advisory);
    var a, b := Select(found, Critical), Select(found, Advisory);
    forall severity
      ensures Select(a + b, severity) == Select(found, severity)
    {
      SelectAppend(a, b, severity);
      SelectSame(a, Critical, severity);
      SelectSame(b, Advisory, severity);
    }
  }

  lemma SelectNothing()
    ensures forall severity :: Select([], severity) == []
  {
  }

  lemma SelectLast(init: seq<Finding>, last: Finding, severity: Severity)
    ensures Select(init + [last], severity) == Select(init, severity) + (if last.severity == severity then [last] else [])
  {
  }

  lemma {:induction false} SelectSpec(found: seq<Finding>)
    ensures multiset(Select(found, Critical)) + multiset(Select(found, Advisory)) == multiset(found)
  {
    SelectNothing();
    hide Select;
    if found != [] {
      var init, last := found[..|found| - 1], found[|found| - 1];
      SelectSpec(init);
      assert found == init + [last];
      SelectLast(init, last, Critical);
      SelectLast(init, last, Advisory);
      Merge(Select(init, Critical), if last.severity == Critical then [last] else [],
            Select(init, Advisory), if last.severity == Critical then [] else [last], init, last);
    }
  }

  lemma Merge(a: seq<Finding>, more: seq<Finding>, b: seq<Finding>, rest: seq<Finding>, init: seq<Finding>, last: Finding)
    requires multiset(a) + multiset(b) == multiset(init)
    requires (more == [last] && rest == []) || (more == [] && rest == [last])
    ensures multiset(a + more) + multiset(b + rest) == multiset(init + [last])
  {
  }

  lemma {:induction false} SelectOnly(found: seq<Finding>, severity: Severity)
    ensures forall i :: 0 <= i < |Select(found, severity)| ==> Select(found, severity)[i].severity == severity
  {
    if found != [] { SelectOnly(found[..|found| - 1], severity); }
  }

  lemma {:induction false} SelectAppend(a: seq<Finding>, b: seq<Finding>, severity: Severity)
    ensures Select(a + b, severity) == Select(a, severity) + Select(b, severity)
  {
    if b == [] {
      assert a + b == a;
    } else {
      assert (a + b)[..|a + b| - 1] == a + b[..|b| - 1];
      SelectAppend(a, b[..|b| - 1], severity);
    }
  }

  lemma {:induction false} SelectSame(a: seq<Finding>, s: Severity, severity: Severity)
    requires forall i :: 0 <= i < |a| ==> a[i].severity == s
    ensures Select(a, severity) == if s == severity then a else []
  {
    if a != [] { SelectSame(a[..|a| - 1], s, severity); }
  }

  /** The first finding tells whether any is critical, and that is so exactly when some cluster of real
      extent has a sample below the hard minimum. */
  lemma ReportGates(out: seq<Finding>, samples: seq<Sample>, c: Limits, groups: seq<seq<nat>>)
    requires IsReport(out, samples, c)
    requires Components(groups, |Thin(samples, c.loadBearing)|, Links(Thin(samples, c.loadBearing), c.slack))
    ensures (out != [] && out[0].severity == Critical) <==>
            exists g, i :: 0 <= g < |groups| && 0 <= i < |groups[g]| && BelowMinimum(samples, c, groups[g], i)
  {
    var thin := Thin(samples, c.loadBearing);
    var own: seq<seq<nat>>, found: seq<Finding>, t: real :| Covers(found, own, samples, t, c) && out == CriticalFirst(found);
    ComponentsUnique(own, groups, |thin|, Links(thin, c.slack));
    forall g | 0 <= g < |groups|
      ensures found[g].severity == Critical <==> exists i: int :: 0 <= i < |groups[g]| && BelowMinimum(samples, c, groups[g], i)
    {
      Severe(found[g], samples, groups[g], t, c);
    }
    hide *;
    FirstCritical(found);
  }

  /** The first of the sorted findings tells whether any is critical. */
  lemma FirstCritical(found: seq<Finding>)
    ensures var out := CriticalFirst(found);
            (out != [] && out[0].severity == Critical) <==> exists g :: 0 <= g < |found| && found[g].severity == Critical
  {
    SortIsStable(found);
    hide CriticalFirst;
    var out := CriticalFirst(found);
    if out != [] && out[0].severity == Critical { assert out[0] in multiset(found); }
    forall g | 0 <= g < |found| && found[g].severity == Critical
      ensures out != [] && out[0].severity == Critical
    {
      assert found[g] in multiset(out);
      var k :| 0 <= k < |out| && out[k] == found[g];
    }
  }

  ghost predicate BelowMinimum(samples: seq<Sample>, c: Limits, group: seq<nat>, i: nat)
    requires i < |group|
  {
    var thin := Thin(samples, c.loadBearing);
    group[i] < |thin| && thin[group[i]].t < c.minWall && Sum(Areas(thin), group) >= c.minArea
  }

  lemma Severe(f: Finding, samples: seq<Sample>, group: seq<nat>, t: real, c: Limits)
    requires Describes(f, Thin(samples, c.loadBearing), group, t, c)
    ensures f.severity == Critical <==> exists i: int :: 0 <= i < |group| && BelowMinimum(samples, c, group, i)
  {
    hide Sum, Areas, Thin;
    var k := WorstSample(f, Thin(samples, c.loadBearing), group, t, c);
    assert f.severity == Critical ==> BelowMinimum(samples, c, group, k);
  }

  /** A solid has findings exactly when some sample is below the load-bearing limit; then one of them
      measures the thinnest sample of the solid. */
  lemma ThinnestReported(out: seq<Finding>, samples: seq<Sample>, c: Limits)
    requires IsReport(out, samples, c)
    ensures out != [] <==> exists i :: 0 <= i < |samples| && samples[i].t < c.loadBearing
    ensures out != [] ==> exists k :: 0 <= k < |out| && out[k].measured == out[k].minWall && Least(samples, out[k].measured)
  {
    var thin := Thin(samples, c.loadBearing);
    var groups: seq<seq<nat>>, found: seq<Finding>, t: real :| Covers(found, groups, samples, t, c) && out == CriticalFirst(found);
    ThinSpec(samples, c.loadBearing);
    SortKeepsAll(found);
    hide Sum, Areas, Thin, CriticalFirst, Links, Describes;
    if thin == [] {
      SomeMember(groups, |thin|);
      assert forall i :: 0 <= i < |samples| ==> samples[i] in samples;
    } else {
      assert thin[0] in thin;
      var g := LeastGroup(thin, samples, c, t, groups, found);
      assert found[g] in out;
    }
  }

  lemma SortKeepsAll(found: seq<Finding>)
    ensures |CriticalFirst(found)| == |found| && forall f :: f in found <==> f in CriticalFirst(found)
  {
    SortIsStable(found);
    hide CriticalFirst;
    var out := CriticalFirst(found);
    assert |out| == |multiset(out)| == |multiset(found)| == |found|;
    assert forall f :: f in found <==> f in multiset(found);
    assert forall f :: f in out <==> f in multiset(out);
  }

  /** Every finding, by itself: it measures some thin sample and says where that is; it names the thinnest wall of the whole solid;
      it is an artifact when its region is too small, critical when it is below the hard minimum and no artifact, and the
      threshold it names is the one it breaks. */
  lemma EveryFinding(out: seq<Finding>, samples: seq<Sample>, c: Limits, f: Finding)
    requires IsReport(out, samples, c) && f in out
    ensures exists s :: s in samples && s.t < c.loadBearing && s.t == f.measured && s.point == f.location && s.faceType == f.faceType
                        && s.curved == f.curved
    ensures (exists s :: s in samples && s.t == f.minWall) && forall s :: s in samples ==> f.minWall <= s.t
    ensures f.artifact <==> f.area < c.minArea
    ensures f.severity == Critical <==> f.measured < c.minWall && f.area >= c.minArea
    ensures f.threshold == if f.measured < c.minWall then c.minWall else c.loadBearing
    ensures f.samples > 0
  {
    var thin := Thin(samples, c.loadBearing);
    var groups: seq<seq<nat>>, found: seq<Finding>, t: real :| Covers(found, groups, samples, t, c) && out == CriticalFirst(found);
    ThinSpec(samples, c.loadBearing);
    SortKeepsAll(found);
    var g :| 0 <= g < |found| && found[g] == f;
    hide Sum, Areas, Thin, CriticalFirst, Links;
    var k := WorstSample(f, thin, groups[g], t, c);
    var s := thin[groups[g][k]];
    assert s in thin;
    LeastMember(samples, t);
  }

  lemma LeastMember(samples: seq<Sample>, t: real)
    ensures samples != [] && Least(samples, t) ==>
              (exists s :: s in samples && s.t == t) && forall s :: s in samples ==> t <= s.t
  {
    if samples != [] && Least(samples, t) {
      var i :| 0 <= i < |samples| && samples[i].t == t;
      assert samples[i] in samples;
    }
  }

  lemma LeastGroup(thin: seq<Sample>, samples: seq<Sample>, c: Limits, t: real, groups: seq<seq<nat>>, found: seq<Finding>)
    returns (g: nat)
    requires thin != [] && (forall s :: s in thin <==> s in samples && s.t < c.loadBearing) && Least(samples, t)
    requires Partition(groups, |thin|) && |found| == |groups|
    requires forall g :: 0 <= g < |groups| ==> Describes(found[g], thin, groups[g], t, c)
    ensures g < |found| && found[g].measured == t == found[g].minWall
  {
    hide Sum, Areas;
    assert thin[0] in thin && thin[0] in samples;
    var i :| 0 <= i < |samples| && samples[i].t == t;
    assert samples[i] in thin;
    var x: nat :| x < |thin| && thin[x] == samples[i];
    assert Placed(groups, x);
    g :| g < |groups| && x in groups[g];
    var j :| 0 <= j < |groups[g]| && groups[g][j] == x;
    var k := WorstSample(found[g], thin, groups[g], t, c);
    assert thin[groups[g][k]] in thin;
  }

  lemma {:induction false} ThinSpec(samples: seq<Sample>, limit: real)
    ensures forall s :: s in Thin(samples, limit) <==> s in samples && s.t < limit
  {
    if samples != [] {
      ThinSpec(samples[..|samples| - 1], limit);
      assert samples == samples[..|samples| - 1] + [samples[|samples| - 1]];
    }
  }
}
