/** The loops of `validate_v2` in build_brief.py: ids over all sections, then parts and their hierarchy, interfaces,
    and assumptions. The contracts tie them to the contract of a brief in BuildBrief.dfy, whose properties are
    proved there. */
module BriefValidator {
  import opened Wrappers
  import opened BriefText
  import opened BuildBrief
  import Assumptions
  import H = Hierarchy

  /** The ids of the sections before s. */
  ghost function EarlierIds(sections: seq<seq<Record>>, s: nat): set<string>
    requires s <= |sections| && forall t :: 0 <= t < s ==> AllHaveIds(sections[t])
  {
    if s == 0 then {} else EarlierIds(sections, s - 1) + IdSet(sections[s - 1])
  }

  lemma {:induction false} EarlierSpec(sections: seq<seq<Record>>, s: nat)
    requires s <= |sections| && forall t :: 0 <= t < s ==> AllHaveIds(sections[t])
    ensures forall x :: x in EarlierIds(sections, s) <==> exists t :: 0 <= t < s && x in IdSet(sections[t])
  {
    hide AllHaveIds, IdSet;
    if s > 0 { EarlierSpec(sections, s - 1); }
  }

  /** One section: every entry needs an id that no earlier entry has. */
  method CheckSection(entries: seq<Record>, used: set<string>) returns (ok: bool, records: seq<Record>, all: set<string>)
    ensures ok <==> AllHaveIds(entries) && DistinctIds(entries) && IdSet(entries) !! used
    ensures ok ==> records == WithIds(entries) && all == used + IdSet(entries)
  {
    hide HasId, IdOf, WithId;
    records, all := [], used;
    for i := 0 to |entries|
      invariant AllHaveIds(entries[..i]) && DistinctIds(entries[..i]) && IdSet(entries[..i]) !! used
      invariant records == WithIds(entries[..i]) && all == used + IdSet(entries[..i])
    {
      var r := entries[i];
      if !HasId(r) { return false, [], all; }
      assert entries[..i + 1][..i] == entries[..i];
      assert entries[..i + 1] == entries[..i] + [r];
      IdsGrow(entries[..i], r);
      var id := IdOf(r);
      if id in all {
        DuplicateFound(entries, i, used);
        return false, [], all;
      }
      all := all + {id};
      records := records + [WithId(r)];
    }
    assert entries[..|entries|] == entries;
    ok := true;
  }

  lemma IdsGrow(entries: seq<Record>, r: Record)
    requires AllHaveIds(entries) && HasId(r)
    ensures AllHaveIds(entries + [r]) && IdSet(entries + [r]) == IdSet(entries) + {IdOf(r)}
    ensures DistinctIds(entries) && IdOf(r) !in IdSet(entries) ==> DistinctIds(entries + [r])
    ensures WithIds(entries + [r]) == WithIds(entries) + [WithId(r)]
  {
    hide HasId, IdOf, WithId;
    var more := entries + [r];
    forall x
      ensures x in IdSet(more) <==> x in IdSet(entries) || x == IdOf(r)
    {
      if x in IdSet(more) { var i := IndexOfId(more, x); }
      if x in IdSet(entries) {
        var i := IndexOfId(entries, x);
        assert more[i] == entries[i];
      }
      assert more[|entries|] == r;
    }
  }

  lemma DuplicateFound(entries: seq<Record>, i: nat, used: set<string>)
    requires i < |entries| && AllHaveIds(entries[..i]) && HasId(entries[i])
    requires IdOf(entries[i]) in used + IdSet(entries[..i])
    ensures !(AllHaveIds(entries) && DistinctIds(entries) && IdSet(entries) !! used)
  {
  }

  /** The loop over the sections. */
  method CheckIds(sections: Sections) returns (ok: bool, records: seq<seq<Record>>)
    ensures ok <==> Identified(sections)
    ensures ok ==> |records| == SECTIONS && forall s :: 0 <= s < SECTIONS ==> records[s] == WithIds(sections[s])
  {
    var all: set<string> := {};
    records := [];
    for s := 0 to SECTIONS
      invariant |records| == s && Identified(sections[..s])
      invariant forall t :: 0 <= t < s ==> AllHaveIds(sections[t]) && records[t] == WithIds(sections[t])
      invariant all == EarlierIds(sections, s)
    {
      hide AllHaveIds, IdSet, DistinctIds, WithIds, EarlierIds;
      var section: seq<Record>;
      ghost var used := all;
      ok, section, all := CheckSection(sections[s], all);
      SectionAdds(sections, s, used, ok);
      if !ok { return false, []; }
      records := records + [section];
    }
    assert sections[..SECTIONS] == sections;
    ok := true;
  }

  lemma SectionAdds(sections: Sections, s: nat, used: set<string>, ok: bool)
    requires s < SECTIONS && Identified(sections[..s]) && (forall t :: 0 <= t < s ==> AllHaveIds(sections[t]))
    requires used == EarlierIds(sections, s)
    requires ok <==> AllHaveIds(sections[s]) && DistinctIds(sections[s]) && IdSet(sections[s]) !! used
    ensures ok ==> Identified(sections[..s + 1]) && EarlierIds(sections, s + 1) == used + IdSet(sections[s])
    ensures !ok ==> !Identified(sections)
  {
    EarlierSpec(sections, s);
    hide AllHaveIds, IdSet, DistinctIds;
    if ok {
      var more := sections[..s + 1];
      forall t, u | 0 <= t < u < |more|
        ensures IdSet(more[t]) !! IdSet(more[u])
      {
        if u < s {
          assert IdSet(sections[..s][t]) !! IdSet(sections[..s][u]);
        } else {
          assert forall x :: x in IdSet(sections[t]) ==> x in used;
        }
      }
      forall t | 0 <= t < |more|
        ensures AllHaveIds(more[t]) && DistinctIds(more[t])
      {
        if t < s { assert more[t] == sections[..s][t]; }
      }
    }
  }

  method CheckInterfaces(entries: seq<Record>, ids: set<string>) returns (ok: bool)
    ensures ok <==> InterfacesGood(entries, ids)
  {
    hide InterfaceGood;
    for i := 0 to |entries|
      invariant InterfacesGood(entries[..i], ids)
    {
      if !InterfaceGood(entries[i], ids) { return false; }
      assert forall j :: 0 <= j < i ==> entries[..i + 1][j] == entries[..i][j];
    }
    assert entries[..|entries|] == entries;
    ok := true;
  }

  method NormalizeEach(entries: seq<Record>) returns (result: Result<seq<Record>>)
    ensures result == NormalizeAll(entries)
  {
    hide Assumptions.Normalize;
    var records: seq<Record> := [];
    for i := 0 to |entries|
      invariant NormalizeAll(entries[..i]) == Ok(records)
    {
      var one := Assumptions.NormalizeInPlace(entries[i]);
      assert entries[..i + 1][..i] == entries[..i];
      if one.Rejected? {
        RejectedStays(entries, i + 1);
        return Rejected;
      }
      records := records + [one.value];
    }
    assert entries[..|entries|] == entries;
    return Ok(records);
  }

  lemma {:induction false} RejectedStays(entries: seq<Record>, i: nat)
    requires i <= |entries| && NormalizeAll(entries[..i]).Rejected?
    ensures NormalizeAll(entries).Rejected?
  {
    hide Assumptions.Normalize;
    if i == |entries| {
      assert entries[..i] == entries;
    } else {
      assert entries[..|entries| - 1][..i] == entries[..i];
      RejectedStays(entries[..|entries| - 1], i);
    }
  }

  /** The parts: names and child references first, then the search for cycles. */
  method CheckParts(parts: seq<Record>) returns (ok: bool, records: seq<Record>)
    requires AllHaveIds(parts) && DistinctIds(parts)
    ensures ok <==> PartsAccepted(parts)
    ensures ok ==> records == WithAllChildren(parts)
  {
    hide HasId, IdOf, DistinctIds, AllHaveIds, IdSet, PartGood, WithChildren, ChildrenValue, Tree, Texts;
    records := [];
    for i := 0 to |parts|
      invariant forall j :: 0 <= j < i ==> HasId(parts[j]) && PartGood(parts[j], IdSet(parts), IdOf(parts[j]))
      invariant |records| == i && forall j :: 0 <= j < i ==> records[j] == WithChildren(parts[j])
    {
      EachHasId(parts, i);
      if !PartGood(parts[i], IdSet(parts), IdOf(parts[i])) { return false, []; }
      records := records + [WithChildren(parts[i])];
    }
    assert records == WithAllChildren(parts);
    TreeKeys(parts);
    TreeWellFormed(parts);
    var order := seq(|parts|, i requires 0 <= i < |parts| && HasId(parts[i]) => IdOf(parts[i]));
    OrderSpec(parts, order);
    ok := H.CheckHierarchy(order, Tree(parts));
  }

  lemma EachHasId(parts: seq<Record>, i: nat)
    requires AllHaveIds(parts) && i < |parts|
    ensures HasId(parts[i])
  {
  }

  lemma OrderSpec(parts: seq<Record>, order: seq<string>)
    requires AllHaveIds(parts) && |order| == |parts| && forall i :: 0 <= i < |parts| ==> order[i] == IdOf(parts[i])
    ensures forall x :: x in order <==> x in IdSet(parts)
  {
  }

  /** The parts may be checked before or after their ids are trimmed. */
  lemma TrimmedParts(parts: seq<Record>)
    requires AllHaveIds(parts) && DistinctIds(parts)
    ensures var trimmed := WithIds(parts);
            && AllHaveIds(trimmed) && DistinctIds(trimmed) && IdSet(trimmed) == IdSet(parts)
            && (PartsAccepted(trimmed) <==> PartsAccepted(parts))
  {
    var trimmed := WithIds(parts);
    hide PartsAccepted, DistinctIds, IdSet;
    forall i | 0 <= i < |parts|
      ensures HasId(trimmed[i]) && IdOf(trimmed[i]) == IdOf(parts[i])
      ensures Get(trimmed[i], Name) == Get(parts[i], Name) && ChildrenValue(trimmed[i]) == ChildrenValue(parts[i])
    {
      WithIdTidy(parts[i]);
    }
    hide HasId, IdOf, WithId, ChildrenValue, Get;
    SameIdsSpec(parts, trimmed);
    if PartsAccepted(parts) { PartsSame(parts, trimmed); }
    if PartsAccepted(trimmed) { PartsSame(trimmed, parts); }
  }

  /** `validate_v2`. */
  method ValidateInPlace(b: Brief, fits: Brief -> bool) returns (result: Result<Brief>)
    ensures result == Validate(b, fits)
  {
    if !fits(b) || !HeadGood(b) { return Rejected; }
    var ok, records := CheckIds(b.sections);
    if !ok { return Rejected; }
    TrimmedParts(b.sections[PARTS]);
    InterfacesStay(b.sections[INTERFACES], IdSet(b.sections[PARTS]));
    hide HeadGood, WithAllChildren, WithIds, PartsAccepted, NormalizeAll, InterfacesGood, IdSet, AllHaveIds, DistinctIds;
    var parts: seq<Record>;
    ok, parts := CheckParts(records[PARTS]);
    if !ok { return Rejected; }
    ok := CheckInterfaces(records[INTERFACES], IdSet(records[PARTS]));
    if !ok { return Rejected; }
    var assumptions := NormalizeEach(records[ASSUMPTIONS]);
    if assumptions.Rejected? { return Rejected; }
    var normalized := records[PARTS := parts][ASSUMPTIONS := assumptions.value];
    forall s | 0 <= s < SECTIONS
      ensures normalized[s] == Section(b, s)
    {
    }
    assert normalized == Normalized(b).sections;
    return Ok(b.(summary := Text(Strip(TextOf(b.summary))), sections := normalized));
  }
}
