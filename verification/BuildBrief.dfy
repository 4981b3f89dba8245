/** `validate_v2` of build_brief.py. */
module BuildBrief {
  import opened Wrappers
  import opened BriefText
  import Assumptions
  import H = Hierarchy

  // Whether a brief stays within the transport limits on size and depth is a parameter, `fits`; records and sections
  // have the right JSON shape.

  const MAX_SUMMARY := 500

  /** The number of sections, and the positions of those with rules of their own. */
  const SECTIONS: nat := 9
  const PARTS: nat := 0
  const INTERFACES: nat := 4
  const ASSUMPTIONS: nat := 6

  type Sections = s: seq<seq<Record>> | |s| == SECTIONS witness seq(SECTIONS, _ => [])

  datatype Brief = Brief(schema: int, revision: int, tier: string, summary: Value, sections: Sections)

  predicate IsTier(s: string) { s == "skip" || s == "stream" || s == "pause" }

  // ---------------------------------------------------------------- identities

  predicate HasId(r: Record) { Id in r && r[Id].Text? && !Blank(r[Id].text) }

  function IdOf(r: Record): string
    requires HasId(r)
  {
    Strip(r[Id].text)
  }

  predicate AllHaveIds(entries: seq<Record>) { forall i :: 0 <= i < |entries| ==> HasId(entries[i]) }

  function IdSet(entries: seq<Record>): set<string>
    requires AllHaveIds(entries)
  {
    set i | 0 <= i < |entries| :: IdOf(entries[i])
  }

  predicate DistinctIds(entries: seq<Record>)
    requires AllHaveIds(entries)
  {
    forall i, j :: 0 <= i < j < |entries| ==> IdOf(entries[i]) != IdOf(entries[j])
  }

  /** Every entry has an id, and no two entries share one, whatever their sections. */
  predicate Identified(sections: seq<seq<Record>>) {
    && (forall s :: 0 <= s < |sections| ==> AllHaveIds(sections[s]) && DistinctIds(sections[s]))
    && (forall s, t :: 0 <= s < t < |sections| ==> IdSet(sections[s]) !! IdSet(sections[t]))
  }

  function WithId(r: Record): Record
    requires HasId(r)
  {
    r[Id := Text(IdOf(r))]
  }

  function WithIds(entries: seq<Record>): seq<Record>
    requires AllHaveIds(entries)
  {
    seq(|entries|, i requires 0 <= i < |entries| => WithId(entries[i]))
  }

  // ---------------------------------------------------------------- parts

  const NO_ITEMS := Items([], "[]")

  function ChildrenValue(r: Record): Value { if Children in r then r[Children] else NO_ITEMS }

  predicate AllText(v: Value) { v.Items? && forall i :: 0 <= i < |v.items| ==> v.items[i].Text? }

  function Texts(v: Value): seq<string>
    requires AllText(v)
  {
    seq(|v.items|, i requires 0 <= i < |v.items| => v.items[i].text)
  }

  predicate PartGood(r: Record, ids: set<string>, id: string) {
    && Name in r && r[Name].Text? && !Blank(r[Name].text)
    && AllText(ChildrenValue(r))
    && var children := Texts(ChildrenValue(r));
       && (forall i, j :: 0 <= i < j < |children| ==> children[i] != children[j])
       && (forall i :: 0 <= i < |children| ==> children[i] in ids && children[i] != id)
  }

  predicate PartsGood(parts: seq<Record>)
    requires AllHaveIds(parts)
  {
    forall i :: 0 <= i < |parts| ==> PartGood(parts[i], IdSet(parts), IdOf(parts[i]))
  }

  function WithChildren(r: Record): Record { r[Children := ChildrenValue(r)] }

  /** The child lists by part id. */
  function Tree(parts: seq<Record>): H.Children
    requires AllHaveIds(parts) && DistinctIds(parts) && PartsGood(parts)
  {
    map i | 0 <= i < |parts| :: IdOf(parts[i]) := Texts(ChildrenValue(parts[i]))
  }

  lemma TreeKeys(parts: seq<Record>)
    requires AllHaveIds(parts) && DistinctIds(parts) && PartsGood(parts)
    ensures Tree(parts).Keys == IdSet(parts)
  {
  }

  lemma IndexOfId(entries: seq<Record>, x: string) returns (i: nat)
    requires AllHaveIds(entries) && x in IdSet(entries)
    ensures i < |entries| && IdOf(entries[i]) == x
  {
    hide HasId, IdOf;
    i :| i < |entries| && IdOf(entries[i]) == x;
  }

  lemma TreeWellFormed(parts: seq<Record>)
    requires AllHaveIds(parts) && DistinctIds(parts) && PartsGood(parts)
    ensures H.WellFormed(Tree(parts))
  {
  }

  function WithAllChildren(parts: seq<Record>): seq<Record> {
    seq(|parts|, i requires 0 <= i < |parts| => WithChildren(parts[i]))
  }

  // ---------------------------------------------------------------- interfaces

  function UnresolvedValue(r: Record): Value { if Unresolved in r then r[Unresolved] else NO_ITEMS }

  /** Participants are parts; fewer than two only while some names are unresolved and conformance is unknown. */
  predicate InterfaceGood(r: Record, ids: set<string>) {
    && KindField in r && r[KindField].Text? && !Blank(r[KindField].text)
    && Participants in r && AllText(r[Participants])
    && (forall i :: 0 <= i < |r[Participants].items| ==> r[Participants].items[i].text in ids)
    && AllText(UnresolvedValue(r))
    && (forall i :: 0 <= i < |UnresolvedValue(r).items| ==> !Blank(UnresolvedValue(r).items[i].text))
    && (|r[Participants].items| >= 2 || (Get(r, Conformance) == Text("unknown") && UnresolvedValue(r).items != []))
  }

  predicate InterfacesGood(entries: seq<Record>, ids: set<string>) {
    forall i :: 0 <= i < |entries| ==> InterfaceGood(entries[i], ids)
  }

  // ---------------------------------------------------------------- assumptions

  function NormalizeAll(entries: seq<Record>): Result<seq<Record>> {
    if entries == [] then Ok([])
    else
      var before, last := NormalizeAll(entries[..|entries| - 1]), Assumptions.Normalize(entries[|entries| - 1]);
      if before.Rejected? || last.Rejected? then Rejected else Ok(before.value + [last.value])
  }

  // ---------------------------------------------------------------- the contract

  predicate HeadGood(b: Brief) {
    && b.schema == 2 && b.revision >= 0 && IsTier(b.tier)
    && CappedText(b.summary, MAX_SUMMARY).Ok? && CappedText(b.summary, MAX_SUMMARY).value != ""
  }

  ghost predicate PartsAccepted(parts: seq<Record>)
    requires AllHaveIds(parts) && DistinctIds(parts)
  {
    PartsGood(parts) && H.Acyclic(Tree(parts))
  }

  /** `validate_v2`. */
  ghost function Validate(b: Brief, fits: Brief -> bool): Result<Brief> {
    if !fits(b) || !HeadGood(b) || !Identified(b.sections) then Rejected
    else if !PartsAccepted(b.sections[PARTS]) then Rejected
    else if !InterfacesGood(b.sections[INTERFACES], IdSet(b.sections[PARTS])) then Rejected
    else if NormalizeAll(WithIds(b.sections[ASSUMPTIONS])).Rejected? then Rejected
    else Ok(Normalized(b))
  }

  /** The section as `validate_v2` returns it. */
  function Section(b: Brief, s: nat): seq<Record>
    requires Identified(b.sections) && s < SECTIONS && NormalizeAll(WithIds(b.sections[ASSUMPTIONS])).Ok?
  {
    var entries := WithIds(b.sections[s]);
    if s == PARTS then WithAllChildren(entries)
    else if s == ASSUMPTIONS then NormalizeAll(entries).value
    else entries
  }

  function Normalized(b: Brief): Brief
    requires Identified(b.sections) && NormalizeAll(WithIds(b.sections[ASSUMPTIONS])).Ok?
  {
    b.(summary := Text(Strip(TextOf(b.summary))),
       sections := seq(SECTIONS, s requires 0 <= s < SECTIONS => Section(b, s)))
  }

  // ---------------------------------------------------------------- normalizing twice

  /** An entry that normalizing its id leaves alone. */
  predicate Tidy(r: Record) { HasId(r) && Trimmed(r[Id].text) }

  lemma TidyStays(r: Record)
    requires Tidy(r)
    ensures WithId(r) == r
  {
  }

  lemma WithIdTidy(r: Record)
    requires HasId(r)
    ensures Tidy(WithId(r)) && IdOf(WithId(r)) == IdOf(r)
  {
  }

  predicate AllTidy(entries: seq<Record>) { forall i :: 0 <= i < |entries| ==> Tidy(entries[i]) }

  lemma AllTidyStay(entries: seq<Record>)
    requires AllTidy(entries)
    ensures AllHaveIds(entries) && WithIds(entries) == entries
  {
    forall i | 0 <= i < |entries|
      ensures WithId(entries[i]) == entries[i]
    {
      TidyStays(entries[i]);
    }
  }

  /** Entries that keep their ids keep what the ids of a section are. */
  predicate SameIds(a: seq<Record>, b: seq<Record>) {
    |a| == |b| && forall i :: 0 <= i < |a| ==> HasId(a[i]) && HasId(b[i]) && IdOf(a[i]) == IdOf(b[i])
  }

  lemma SameIdsSpec(a: seq<Record>, b: seq<Record>)
    requires SameIds(a, b)
    ensures AllHaveIds(a) && AllHaveIds(b) && IdSet(a) == IdSet(b) && (DistinctIds(a) <==> DistinctIds(b))
  {
  }

  lemma {:induction false} NormalizeAllSpec(entries: seq<Record>)
    requires NormalizeAll(entries).Ok?
    ensures var normal := NormalizeAll(entries).value;
            |normal| == |entries| && forall i :: 0 <= i < |entries| ==> Assumptions.Normalize(entries[i]) == Ok(normal[i])
  {
    hide Assumptions.Normalize;
    if entries != [] { NormalizeAllSpec(entries[..|entries| - 1]); }
  }

  lemma {:induction false} NormalizeAllNormal(entries: seq<Record>)
    requires forall i :: 0 <= i < |entries| ==> Assumptions.Normal(entries[i])
    ensures NormalizeAll(entries) == Ok(entries)
  {
    hide Assumptions.Normal, Assumptions.Normalize;
    if entries != [] {
      NormalizeAllNormal(entries[..|entries| - 1]);
      Assumptions.NormalStays(entries[|entries| - 1]);
      assert entries[..|entries| - 1] + [entries[|entries| - 1]] == entries;
    }
  }

  /** Sections come out tidy, with the ids they had. */
  lemma SectionTidy(b: Brief, s: nat)
    requires Identified(b.sections) && s < SECTIONS && NormalizeAll(WithIds(b.sections[ASSUMPTIONS])).Ok?
    ensures SameIds(Section(b, s), b.sections[s]) && AllTidy(Section(b, s))
  {
    var entries := WithIds(b.sections[s]);
    AllWithIdsTidy(b.sections[s]);
    forall i | 0 <= i < |entries|
      ensures i < |Section(b, s)| && Get(Section(b, s)[i], Id) == Get(entries[i], Id)
    {
      SectionKeepsId(b, s, i);
    }
    hide WithIds, HasId, Section, NormalizeAll;
    SectionLength(b, s);
    forall i | 0 <= i < |entries|
      ensures Tidy(Section(b, s)[i]) && IdOf(Section(b, s)[i]) == IdOf(entries[i])
    {
      SameIdField(entries[i], Section(b, s)[i]);
    }
  }

  lemma AllWithIdsTidy(records: seq<Record>)
    requires AllHaveIds(records)
    ensures SameIds(records, WithIds(records)) && AllTidy(WithIds(records))
  {
    hide HasId, IdOf, WithId, Tidy;
    forall i | 0 <= i < |records|
      ensures Tidy(WithId(records[i])) && HasId(WithId(records[i])) && IdOf(WithId(records[i])) == IdOf(records[i])
    {
      WithIdTidy(records[i]);
      TidyHasId(WithId(records[i]));
    }
  }

  lemma TidyHasId(r: Record)
    requires Tidy(r)
    ensures HasId(r)
  {
  }

  lemma SectionLength(b: Brief, s: nat)
    requires Identified(b.sections) && s < SECTIONS && NormalizeAll(WithIds(b.sections[ASSUMPTIONS])).Ok?
    ensures |Section(b, s)| == |b.sections[s]|
  {
    if s == ASSUMPTIONS { NormalizeAllSpec(WithIds(b.sections[s])); }
  }

  lemma SectionKeepsId(b: Brief, s: nat, i: nat)
    requires Identified(b.sections) && s < SECTIONS && NormalizeAll(WithIds(b.sections[ASSUMPTIONS])).Ok?
    requires i < |b.sections[s]|
    ensures i < |Section(b, s)| && Get(Section(b, s)[i], Id) == Get(WithIds(b.sections[s])[i], Id)
  {
    if s == ASSUMPTIONS {
      NormalizeAllSpec(WithIds(b.sections[s]));
      hide NormalizeAll, Assumptions.Normalize, Get, Identified, WithIds;
      Assumptions.NormalizeKeepsId(WithIds(b.sections[s])[i]);
    }
  }

  lemma SameIdField(a: Record, b: Record)
    requires Tidy(a) && Get(a, Id) == Get(b, Id)
    ensures Tidy(b) && IdOf(b) == IdOf(a)
  {
  }

  /** A section as validation leaves it. */
  predicate SectionNormal(entries: seq<Record>, s: nat) {
    && AllTidy(entries)
    && (s == PARTS ==> forall i :: 0 <= i < |entries| ==> Children in entries[i])
    && (s == ASSUMPTIONS ==> forall i :: 0 <= i < |entries| ==> Assumptions.Normal(entries[i]))
  }

  lemma SectionIsNormal(b: Brief, s: nat)
    requires Identified(b.sections) && s < SECTIONS && NormalizeAll(WithIds(b.sections[ASSUMPTIONS])).Ok?
    ensures SectionNormal(Section(b, s), s)
  {
    SectionTidy(b, s);
    if s == ASSUMPTIONS {
      var entries := WithIds(b.sections[s]);
      NormalizeAllSpec(entries);
      hide NormalizeAll, AllTidy, Identified, WithIds, Assumptions.Normalize, Assumptions.Normal;
      forall i | 0 <= i < |entries|
        ensures Assumptions.Normal(Section(b, s)[i])
      {
        Assumptions.NormalizedIsNormal(entries[i]);
      }
    }
  }

  /** A normal section is left alone, whatever the other sections hold. */
  lemma NormalSectionStays(b: Brief, s: nat)
    requires Identified(b.sections) && s < SECTIONS && NormalizeAll(WithIds(b.sections[ASSUMPTIONS])).Ok?
    requires SectionNormal(b.sections[s], s)
    ensures Section(b, s) == b.sections[s]
  {
    var entries := b.sections[s];
    AllTidyStay(entries);
    hide AllTidy, WithIds, Identified, Assumptions.Normal;
    if s == PARTS {
      forall i | 0 <= i < |entries|
        ensures WithChildren(entries[i]) == entries[i]
      {
      }
    } else if s == ASSUMPTIONS {
      NormalizeAllNormal(entries);
    }
  }

  lemma IdentifiedSame(a: seq<seq<Record>>, b: seq<seq<Record>>)
    requires |a| == |b| && forall s :: 0 <= s < |a| ==> SameIds(a[s], b[s])
    requires Identified(a)
    ensures Identified(b)
  {
    forall s | 0 <= s < |a|
      ensures AllHaveIds(a[s]) && AllHaveIds(b[s]) && IdSet(a[s]) == IdSet(b[s]) && (DistinctIds(a[s]) <==> DistinctIds(b[s]))
    {
      SameIdsSpec(a[s], b[s]);
    }
    hide SameIds, IdSet, DistinctIds, AllHaveIds;
  }

  /** A part that keeps its id, name and children is as good as before. */
  lemma PartsSame(a: seq<Record>, b: seq<Record>)
    requires SameIds(a, b) && AllHaveIds(a) && AllHaveIds(b) && DistinctIds(a) && DistinctIds(b)
    requires forall i :: 0 <= i < |a| ==> Get(a[i], Name) == Get(b[i], Name) && ChildrenValue(a[i]) == ChildrenValue(b[i])
    requires PartsAccepted(a)
    ensures PartsAccepted(b)
  {
    SameIdsSpec(a, b);
    forall i | 0 <= i < |b|
      ensures PartGood(b[i], IdSet(b), IdOf(b[i]))
    {
      assert PartGood(a[i], IdSet(a), IdOf(a[i]));
    }
    hide PartGood, AllHaveIds, DistinctIds, H.Acyclic, Texts, HasId, IdOf, SameIds, Tree, ChildrenValue;
    SameTree(a, b);
  }

  lemma SameTree(a: seq<Record>, b: seq<Record>)
    requires SameIds(a, b) && AllHaveIds(a) && AllHaveIds(b) && DistinctIds(a) && DistinctIds(b)
    requires PartsGood(a) && PartsGood(b) && forall i :: 0 <= i < |a| ==> ChildrenValue(a[i]) == ChildrenValue(b[i])
    ensures Tree(a) == Tree(b)
  {
    hide *;
    forall x
      ensures x in Tree(a) <==> x in Tree(b)
      ensures x in Tree(a) && x in Tree(b) ==> Tree(a)[x] == Tree(b)[x]
    {
      SameAt(a, b, x);
    }
  }

  lemma SameAt(a: seq<Record>, b: seq<Record>, x: string)
    requires SameIds(a, b) && AllHaveIds(a) && AllHaveIds(b) && DistinctIds(a) && DistinctIds(b)
    requires PartsGood(a) && PartsGood(b) && forall i :: 0 <= i < |a| ==> ChildrenValue(a[i]) == ChildrenValue(b[i])
    ensures x in Tree(a) <==> x in Tree(b)
    ensures x in Tree(a) && x in Tree(b) ==> Tree(a)[x] == Tree(b)[x]
  {
  }

  /** The conditions of the contract that depend on the sections. */
  ghost predicate SectionsAccepted(b: Brief) {
    && Identified(b.sections) && PartsAccepted(b.sections[PARTS])
    && InterfacesGood(b.sections[INTERFACES], IdSet(b.sections[PARTS]))
    && NormalizeAll(WithIds(b.sections[ASSUMPTIONS])).Ok?
  }

  lemma ValidateSpec(b: Brief, fits: Brief -> bool)
    ensures Validate(b, fits).Ok? <==> fits(b) && HeadGood(b) && SectionsAccepted(b)
    ensures Validate(b, fits).Ok? ==> Validate(b, fits).value == Normalized(b)
  {
  }

  lemma NormalizedIdentified(b: Brief)
    requires SectionsAccepted(b)
    ensures var n := Normalized(b);
            Identified(n.sections) && forall s: nat :: s < SECTIONS ==> SameIds(b.sections[s], n.sections[s])
  {
    var n := Normalized(b);
    hide PartsAccepted, InterfacesGood, NormalizeAll, Identified, Section;
    forall s: nat | s < SECTIONS
      ensures SameIds(b.sections[s], n.sections[s])
    {
      SectionTidy(b, s);
      hide WithIds, IdSet;
      assert n.sections[s] == Section(b, s);
    }
    IdentifiedSame(b.sections, n.sections);
  }

  lemma NormalizedParts(b: Brief)
    requires SectionsAccepted(b)
    ensures Identified(Normalized(b).sections) && PartsAccepted(Normalized(b).sections[PARTS])
  {
    NormalizedIdentified(b);
    var parts, after := b.sections[PARTS], Normalized(b).sections[PARTS];
    assert after == WithAllChildren(WithIds(parts));
    assert SameIds(parts, after);
    PartFieldsStay(parts);
    hide *;
    PartsSame(parts, after);
  }

  lemma PartFieldsStay(parts: seq<Record>)
    requires AllHaveIds(parts)
    ensures var after := WithAllChildren(WithIds(parts));
            |after| == |parts| && forall i :: 0 <= i < |parts| ==>
              Get(parts[i], Name) == Get(after[i], Name) && ChildrenValue(parts[i]) == ChildrenValue(after[i])
  {
  }

  lemma NormalizedInterfaces(b: Brief)
    requires SectionsAccepted(b)
    ensures Identified(Normalized(b).sections)
    ensures InterfacesGood(Normalized(b).sections[INTERFACES], IdSet(Normalized(b).sections[PARTS]))
  {
    NormalizedIdentified(b);
    var n := Normalized(b);
    SameIdsSpec(b.sections[PARTS], n.sections[PARTS]);
    assert n.sections[INTERFACES] == WithIds(b.sections[INTERFACES]);
    hide Identified, Normalized, PartsAccepted, NormalizeAll, SameIds, IdSet, AllHaveIds;
    InterfacesStay(b.sections[INTERFACES], IdSet(b.sections[PARTS]));
  }

  lemma InterfacesStay(entries: seq<Record>, ids: set<string>)
    requires AllHaveIds(entries)
    ensures InterfacesGood(entries, ids) <==> InterfacesGood(WithIds(entries), ids)
  {
    hide InterfaceGood, HasId, IdOf;
    forall i | 0 <= i < |entries|
      ensures InterfaceGood(entries[i], ids) <==> InterfaceGood(WithIds(entries)[i], ids)
    {
      SameInterface(entries[i], WithId(entries[i]), ids);
    }
    assert forall i :: 0 <= i < |entries| ==> InterfaceGood(WithIds(entries)[i], ids) ==> InterfaceGood(entries[i], ids);
  }

  lemma SameInterface(r: Record, t: Record, ids: set<string>)
    requires forall k :: k != Id ==> (k in r <==> k in t) && Get(r, k) == Get(t, k)
    ensures InterfaceGood(r, ids) <==> InterfaceGood(t, ids)
  {
  }

  lemma SectionsStay(b: Brief)
    requires SectionsAccepted(b)
    ensures Identified(Normalized(b).sections) && NormalizeAll(WithIds(Normalized(b).sections[ASSUMPTIONS])).Ok?
    ensures forall s: nat :: s < SECTIONS ==> Section(Normalized(b), s) == Normalized(b).sections[s]
  {
    NormalizedIdentified(b);
    var n := Normalized(b);
    forall s: nat | s < SECTIONS
      ensures n.sections[s] == Section(b, s) && SectionNormal(n.sections[s], s)
    {
      SectionIsNormal(b, s);
    }
    var assumptions := n.sections[ASSUMPTIONS];
    AllTidyStay(assumptions);
    NormalizeAllNormal(assumptions);
    hide Section, SectionNormal, NormalizeAll, WithIds, Identified, SectionsAccepted, Normalized;
    forall s: nat | s < SECTIONS
      ensures Section(n, s) == n.sections[s]
    {
      NormalSectionStays(n, s);
    }
  }

  /** `validate_v2` is a fixed point on its own output, as long as that still fits the transport limits. */
  lemma ValidateFixedPoint(b: Brief, fits: Brief -> bool)
    requires Validate(b, fits).Ok? && fits(Validate(b, fits).value)
    ensures Validate(Validate(b, fits).value, fits) == Validate(b, fits)
  {
    ValidateSpec(b, fits);
    var n := Normalized(b);
    ValidateSpec(n, fits);
    NormalizedParts(b);
    NormalizedInterfaces(b);
    SectionsStay(b);
    CappedAgain(b.summary, MAX_SUMMARY);
    hide Validate, PartsAccepted, InterfacesGood, NormalizeAll, Identified, Section, WithIds, IdSet;
    assert HeadGood(n);
    assert n.sections == Normalized(n).sections;
  }
}
