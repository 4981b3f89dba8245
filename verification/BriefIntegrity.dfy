/** What validation guarantees of a brief, in terms of its records (build_brief.py). */
module BriefIntegrity {
  import opened Wrappers
  import opened BriefText
  import opened BuildBrief
  import Assumptions
  import H = Hierarchy

  // ---------------------------------------------------------------- a brief that holds together

  /** A text without white space around it, not empty. */
  predicate Neat(v: Value) { v.Text? && v.text != "" && Strip(v.text) == v.text }

  predicate HeadIntact(b: Brief) {
    && b.schema == 2 && b.revision >= 0 && (b.tier == "skip" || b.tier == "stream" || b.tier == "pause")
    && Neat(b.summary) && |b.summary.text| <= 500
  }

  /** Every record of every section has a neat id, and no two share one. */
  ghost predicate IdsIntact(sections: seq<seq<Record>>) {
    && (forall s, i :: 0 <= s < |sections| && 0 <= i < |sections[s]| ==> Id in sections[s][i] && Neat(sections[s][i][Id]))
    && (forall s, i, t, j :: SameId(sections, s, i, t, j) ==> s == t && i == j)
  }

  predicate SameId(sections: seq<seq<Record>>, s: int, i: int, t: int, j: int) {
    && 0 <= s < |sections| && 0 <= i < |sections[s]| && 0 <= t < |sections| && 0 <= j < |sections[t]|
    && Get(sections[s][i], Id) == Get(sections[t][j], Id)
  }

  /** `x` is the id of some record. */
  predicate Names(records: seq<Record>, x: string) { exists i :: 0 <= i < |records| && Id in records[i] && records[i][Id] == Text(x) }

  /** A part has a name, and lists other parts as its children, none twice. */
  predicate PartIntact(parts: seq<Record>, r: Record) {
    && Name in r && r[Name].Text? && Strip(r[Name].text) != ""
    && Children in r && r[Children].Items?
    && var children := r[Children].items;
       && (forall i :: 0 <= i < |children| ==> children[i].Text? && Names(parts, children[i].text) && Get(r, Id) != children[i])
       && (forall i, j :: 0 <= i < j < |children| ==> children[i] != children[j])
  }

  /** The parts can be ranked so that every child comes before its parent. */
  ghost predicate Ranked(parts: seq<Record>) {
    exists rank: map<string, nat> :: RanksBelow(parts, rank)
  }

  predicate RanksBelow(parts: seq<Record>, rank: map<string, nat>) { forall i :: 0 <= i < |parts| ==> RanksAbove(parts[i], rank) }

  /** The rank of a part lies above those of its children. */
  predicate RanksAbove(r: Record, rank: map<string, nat>) {
    Id in r && r[Id].Text? && Children in r && r[Children].Items? ==>
      && r[Id].text in rank
      && forall j :: 0 <= j < |r[Children].items| && r[Children].items[j].Text? ==>
           r[Children].items[j].text in rank && rank[r[Children].items[j].text] < rank[r[Id].text]
  }

  /** An interface has a kind and names parts: two at least, unless its conformance is unknown and it keeps names that are not
      resolved. */
  predicate InterfaceIntact(parts: seq<Record>, r: Record) {
    && KindField in r && r[KindField].Text? && Strip(r[KindField].text) != ""
    && Participants in r && r[Participants].Items?
    && (forall i :: 0 <= i < |r[Participants].items| ==>
          r[Participants].items[i].Text? && Names(parts, r[Participants].items[i].text))
    && (Unresolved in r ==>
          && r[Unresolved].Items?
          && forall i :: 0 <= i < |r[Unresolved].items| ==> r[Unresolved].items[i].Text? && Strip(r[Unresolved].items[i].text) != "")
    && (|r[Participants].items| < 2 ==>
          Conformance in r && r[Conformance] == Text("unknown") && Unresolved in r && r[Unresolved].items != [])
  }

  predicate Words(v: Value) { Neat(v) && |v.text| <= 500 }

  /** An assumption has a statement, a risk and a disposition; beyond low risk also a source and a rationale, and then it is
      delegated or confirmed, or an old record that waits for an answer. */
  predicate AssumptionIntact(r: Record) {
    && KindField !in r && TextField !in r && Name !in r
    && Statement in r && Words(r[Statement]) && RiskField in r && Disposition in r
    && var risk, disposition := r[RiskField], r[Disposition];
       && risk in {Text("low"), Text("functional"), Text("safety"), Text("compliance")}
       && ( || disposition in {Text("delegated"), Text("confirmed")}
            || (disposition == Text("implicit") && risk == Text("low"))
            || (disposition == Text("unknown") && Migration in r && r[Migration] == Text("legacy-v2")))
       && (risk != Text("low") ==> Source in r && Words(r[Source]) && Rationale in r && Words(r[Rationale]))
  }

  ghost predicate Intact(b: Brief) {
    && HeadIntact(b) && IdsIntact(b.sections)
    && (forall i :: 0 <= i < |b.sections[0]| ==> PartIntact(b.sections[0], b.sections[0][i])) && Ranked(b.sections[0])
    && (forall i :: 0 <= i < |b.sections[4]| ==> InterfaceIntact(b.sections[0], b.sections[4][i]))
    && (forall i :: 0 <= i < |b.sections[6]| ==> AssumptionIntact(b.sections[6][i]))
  }

  // ---------------------------------------------------------------- the same in the terms of validation

  lemma NeatId(r: Record)
    ensures Tidy(r) <==> Id in r && Neat(r[Id])
    ensures Tidy(r) ==> HasId(r) && IdOf(r) == r[Id].text
  {
    if Id in r && r[Id].Text? { assert Strip(r[Id].text) == r[Id].text <==> Trimmed(r[Id].text); }
  }

  ghost predicate AllSectionsTidy(sections: seq<seq<Record>>) { forall s :: 0 <= s < |sections| ==> AllTidy(sections[s]) }

  lemma IdsMeaning(sections: seq<seq<Record>>)
    ensures IdsIntact(sections) <==> AllSectionsTidy(sections) && Identified(sections)
  {
    forall s, i | 0 <= s < |sections| && 0 <= i < |sections[s]|
      ensures Tidy(sections[s][i]) <==> Id in sections[s][i] && Neat(sections[s][i][Id])
      ensures Tidy(sections[s][i]) ==> HasId(sections[s][i]) && IdOf(sections[s][i]) == sections[s][i][Id].text
    {
      NeatId(sections[s][i]);
    }
    hide Tidy, Neat, HasId, IdOf;
    if AllSectionsTidy(sections) {
      assert forall s, i :: 0 <= s < |sections| && 0 <= i < |sections[s]| ==> HasId(sections[s][i]);
      DistinctMeaning(sections);
    }
  }

  lemma DistinctMeaning(sections: seq<seq<Record>>)
    requires forall s, i :: 0 <= s < |sections| && 0 <= i < |sections[s]| ==>
               Id in sections[s][i] && sections[s][i][Id].Text? && HasId(sections[s][i]) && IdOf(sections[s][i]) == sections[s][i][Id].text
    ensures Identified(sections) <==> forall s, i, t, j :: SameId(sections, s, i, t, j) ==> s == t && i == j
  {
    hide HasId, IdOf;
    if Identified(sections) {
      forall s, i, t, j | SameId(sections, s, i, t, j)
        ensures s == t && i == j
      {
        assert IdOf(sections[s][i]) in IdSet(sections[s]) && IdOf(sections[t][j]) in IdSet(sections[t]);
      }
    }
    if forall s, i, t, j :: SameId(sections, s, i, t, j) ==> s == t && i == j {
      forall s, t | 0 <= s < t < |sections|
        ensures IdSet(sections[s]) !! IdSet(sections[t])
      {
        Apart(sections, s, t);
      }
      forall s | 0 <= s < |sections|
        ensures AllHaveIds(sections[s]) && DistinctIds(sections[s])
      {
        forall i, j | 0 <= i < j < |sections[s]|
          ensures IdOf(sections[s][i]) != IdOf(sections[s][j])
        {
          assert !SameId(sections, s, i, s, j);
        }
      }
    }
  }

  lemma Apart(sections: seq<seq<Record>>, s: nat, t: nat)
    requires forall s, i :: 0 <= s < |sections| && 0 <= i < |sections[s]| ==>
               Id in sections[s][i] && sections[s][i][Id].Text? && HasId(sections[s][i]) && IdOf(sections[s][i]) == sections[s][i][Id].text
    requires s < t < |sections| && forall i, j :: !SameId(sections, s, i, t, j)
    ensures IdSet(sections[s]) !! IdSet(sections[t])
  {
    hide HasId, IdOf;
    forall i, j | 0 <= i < |sections[s]| && 0 <= j < |sections[t]|
      ensures IdOf(sections[s][i]) != IdOf(sections[t][j])
    {
      assert !SameId(sections, s, i, t, j);
    }
  }

  lemma NamesMeaning(parts: seq<Record>, x: string)
    requires AllTidy(parts) && AllHaveIds(parts)
    ensures Names(parts, x) <==> x in IdSet(parts)
  {
    forall i | 0 <= i < |parts|
      ensures Id in parts[i] && parts[i][Id] == Text(IdOf(parts[i]))
    {
      NeatId(parts[i]);
    }
    hide HasId, IdOf, Tidy;
  }

  lemma PartMeaning(parts: seq<Record>, r: Record)
    requires AllTidy(parts) && AllHaveIds(parts) && r in parts
    ensures HasId(r) && (PartIntact(parts, r) <==> Children in r && PartGood(r, IdSet(parts), IdOf(r)))
  {
    var i :| 0 <= i < |parts| && parts[i] == r;
    NeatId(r);
    assert Get(r, Id) == Text(IdOf(r));
    hide HasId, IdOf, Tidy, AllTidy, AllHaveIds, IdSet;
    if Children in r && AllText(r[Children]) {
      var children := r[Children].items;
      forall j | 0 <= j < |children|
        ensures Names(parts, children[j].text) <==> children[j].text in IdSet(parts)
      {
        NamesMeaning(parts, children[j].text);
      }
      hide Names;
      ChildrenMeaning(children, Texts(r[Children]));
    } else {
      hide Names;
    }
  }

  lemma ChildrenMeaning(children: seq<Value>, texts: seq<string>)
    requires |texts| == |children| && forall i :: 0 <= i < |children| ==> children[i] == Text(texts[i])
    ensures (forall i, j :: 0 <= i < j < |children| ==> children[i] != children[j])
       <==> (forall i, j :: 0 <= i < j < |texts| ==> texts[i] != texts[j])
  {
    forall i, j | 0 <= i < j < |children|
      ensures children[i] != children[j] <==> texts[i] != texts[j]
    {
    }
  }

  lemma PartsMeaning(parts: seq<Record>)
    requires AllTidy(parts) && AllHaveIds(parts) && DistinctIds(parts)
    ensures (forall i :: 0 <= i < |parts| ==> PartIntact(parts, parts[i])) && Ranked(parts) <==>
              PartsAccepted(parts) && forall i :: 0 <= i < |parts| ==> Children in parts[i]
  {
    forall i | 0 <= i < |parts|
      ensures PartIntact(parts, parts[i]) <==> Children in parts[i] && PartGood(parts[i], IdSet(parts), IdOf(parts[i]))
    {
      PartMeaning(parts, parts[i]);
    }
    if PartsGood(parts) && forall i :: 0 <= i < |parts| ==> Children in parts[i] {
      TreeWellFormed(parts);
      H.AcyclicIffNumbered(Tree(parts));
      forall rank
        ensures RanksBelow(parts, rank) <==> H.Numbered(Tree(parts), rank)
      {
        RankMeaning(parts, rank);
      }
      hide Tree, PartGood, PartIntact, RanksBelow, H.Numbered, H.Acyclic, IdSet, HasId, IdOf, AllTidy;
      assert (exists rank :: RanksBelow(parts, rank)) <==> exists rank :: H.Numbered(Tree(parts), rank);
    }
    hide PartGood, PartIntact, Ranked, Tree, IdSet, HasId, IdOf, AllTidy;
  }

  lemma RankMeaning(parts: seq<Record>, rank: map<string, nat>)
    requires AllTidy(parts) && AllHaveIds(parts) && DistinctIds(parts) && PartsGood(parts)
    requires forall i :: 0 <= i < |parts| ==> Children in parts[i]
    ensures RanksBelow(parts, rank) <==> H.Numbered(Tree(parts), rank)
  {
    forall i | 0 <= i < |parts|
      ensures Id in parts[i] && parts[i][Id] == Text(IdOf(parts[i])) && AllText(parts[i][Children])
      ensures IdOf(parts[i]) in Tree(parts) && Tree(parts)[IdOf(parts[i])] == Texts(parts[i][Children])
    {
      NeatId(parts[i]);
      assert PartGood(parts[i], IdSet(parts), IdOf(parts[i]));
    }
    TreeKeys(parts);
    hide HasId, IdOf, Tidy, PartGood, Tree, AllTidy, AllText, Texts;
    forall i | 0 <= i < |parts|
      ensures RanksAbove(parts[i], rank) <==> IdOf(parts[i]) in rank && NumberedAt(Tree(parts), rank, IdOf(parts[i]))
    {
      RankAt(parts[i], rank, Tree(parts), IdOf(parts[i]));
    }
    hide RanksAbove, NumberedAt, IdSet;
    NumberedEverywhere(Tree(parts), rank);
    forall p | p in Tree(parts)
      ensures exists i :: 0 <= i < |parts| && IdOf(parts[i]) == p
    {
      var i := IndexOfId(parts, p);
    }
  }

  predicate NumberedAt(children: H.Children, rank: map<string, nat>, p: string)
    requires p in children && p in rank
  {
    forall j :: 0 <= j < |children[p]| ==> children[p][j] in rank && rank[children[p][j]] < rank[p]
  }

  lemma RankAt(r: Record, rank: map<string, nat>, children: H.Children, id: string)
    requires Id in r && r[Id] == Text(id) && Children in r && AllText(r[Children])
    requires id in children && children[id] == Texts(r[Children])
    ensures RanksAbove(r, rank) <==> id in rank && NumberedAt(children, rank, id)
  {
    var items, texts := r[Children].items, children[id];
    assert forall j :: 0 <= j < |items| ==> items[j] == Text(texts[j]);
    if RanksAbove(r, rank) {
      forall j | 0 <= j < |texts|
        ensures texts[j] in rank && rank[texts[j]] < rank[id]
      {
        assert items[j].Text?;
      }
    }
  }

  lemma NumberedEverywhere(children: H.Children, rank: map<string, nat>)
    ensures H.Numbered(children, rank) <==> forall p :: p in children ==> p in rank && NumberedAt(children, rank, p)
  {
  }

  lemma InterfaceMeaning(parts: seq<Record>, r: Record)
    requires AllTidy(parts) && AllHaveIds(parts)
    ensures InterfaceIntact(parts, r) <==> InterfaceGood(r, IdSet(parts))
  {
    hide AllTidy, AllHaveIds, IdSet, Strip;
    if Participants in r && AllText(r[Participants]) {
      forall j | 0 <= j < |r[Participants].items|
        ensures Names(parts, r[Participants].items[j].text) <==> r[Participants].items[j].text in IdSet(parts)
      {
        NamesMeaning(parts, r[Participants].items[j].text);
      }
    }
    hide Names;
  }

  lemma AssumptionMeaning(r: Record)
    ensures AssumptionIntact(r) <==> Assumptions.Normal(r)
  {
    if Statement in r { WordsMeaning(r[Statement]); }
    if Disposition in r { WordsMeaning(r[Disposition]); }
    if Source in r { WordsMeaning(r[Source]); }
    if Rationale in r { WordsMeaning(r[Rationale]); }
    hide Words, Assumptions.Good;
  }

  lemma WordsMeaning(v: Value)
    ensures Words(v) <==> Assumptions.Good(v)
    ensures v in {Text("delegated"), Text("confirmed"), Text("implicit"), Text("unknown")} ==> Words(v)
  {
    if v.Text? { assert Strip(v.text) == v.text <==> Trimmed(v.text); }
    hide Strip;
  }

  // ---------------------------------------------------------------- the image of validation

  lemma HeadMeaning(b: Brief)
    ensures HeadIntact(b) <==> HeadGood(b) && Text(Strip(TextOf(b.summary))) == b.summary
  {
    hide Strip;
  }

  /** Parts, interfaces and assumptions in the terms of validation, once all ids are in order. */
  lemma SectionsMeaning(b: Brief)
    requires AllSectionsTidy(b.sections) && Identified(b.sections)
    ensures (forall i :: 0 <= i < |b.sections[0]| ==> PartIntact(b.sections[0], b.sections[0][i])) && Ranked(b.sections[0]) <==>
              PartsAccepted(b.sections[0]) && forall i :: 0 <= i < |b.sections[0]| ==> Children in b.sections[0][i]
    ensures (forall i :: 0 <= i < |b.sections[4]| ==> InterfaceIntact(b.sections[0], b.sections[4][i])) <==>
              InterfacesGood(b.sections[4], IdSet(b.sections[0]))
    ensures (forall i :: 0 <= i < |b.sections[6]| ==> AssumptionIntact(b.sections[6][i])) <==>
              forall i :: 0 <= i < |b.sections[6]| ==> Assumptions.Normal(b.sections[6][i])
  {
    var parts := b.sections[0];
    assert AllTidy(parts) && AllHaveIds(parts) && DistinctIds(parts);
    PartsMeaning(parts);
    hide Identified, AllSectionsTidy, AllTidy, AllHaveIds, DistinctIds, IdSet, PartIntact, InterfaceIntact, InterfaceGood,
      AssumptionIntact, Assumptions.Normal, Ranked, PartsAccepted;
    forall r: Record
      ensures InterfaceIntact(parts, r) <==> InterfaceGood(r, IdSet(parts))
      ensures AssumptionIntact(r) <==> Assumptions.Normal(r)
    {
      InterfaceMeaning(parts, r);
      AssumptionMeaning(r);
    }
  }

  /** A brief that validation accepts and leaves alone. */
  ghost predicate Fixed(b: Brief) {
    && HeadGood(b) && Text(Strip(TextOf(b.summary))) == b.summary && SectionsAccepted(b)
    && forall s: nat :: s < SECTIONS ==> SectionNormal(b.sections[s], s)
  }

  lemma IntactIsFixed(b: Brief)
    requires Intact(b)
    ensures Fixed(b)
  {
    HeadMeaning(b);
    IdsMeaning(b.sections);
    SectionsMeaning(b);
    var assumptions := b.sections[ASSUMPTIONS];
    assert AllTidy(assumptions);
    AllTidyStay(assumptions);
    assert forall i :: 0 <= i < |assumptions| ==> Assumptions.Normal(assumptions[i]);
    NormalizeAllNormal(assumptions);
    hide HeadIntact, HeadGood, IdsIntact, Identified, AllTidy, PartIntact, Ranked, PartsAccepted, InterfaceIntact, InterfacesGood,
      AssumptionIntact, Assumptions.Normal, WithIds, NormalizeAll, Strip, TextOf, IdSet;
    forall s: nat | s < SECTIONS
      ensures SectionNormal(b.sections[s], s)
    {
    }
  }

  lemma FixedIsIntact(b: Brief)
    requires Fixed(b)
    ensures Intact(b)
  {
    assert forall s: nat :: s < SECTIONS ==> AllTidy(b.sections[s]);
    assert AllSectionsTidy(b.sections);
    HeadMeaning(b);
    IdsMeaning(b.sections);
    SectionsMeaning(b);
    assert SectionNormal(b.sections[PARTS], PARTS) && SectionNormal(b.sections[ASSUMPTIONS], ASSUMPTIONS);
    hide HeadIntact, HeadGood, IdsIntact, Identified, AllTidy, PartIntact, Ranked, PartsAccepted, InterfaceIntact, InterfacesGood,
      AssumptionIntact, Assumptions.Normal, WithIds, NormalizeAll, Strip, TextOf, IdSet;
  }

  lemma FixedStays(b: Brief)
    requires Fixed(b)
    ensures Normalized(b) == b
  {
    hide HeadGood, PartsAccepted, InterfacesGood, SectionNormal, Identified, NormalizeAll, WithIds, Section, Strip, TextOf;
    forall s: nat | s < SECTIONS
      ensures Section(b, s) == b.sections[s]
    {
      NormalSectionStays(b, s);
    }
    assert Normalized(b).sections == b.sections;
  }

  lemma AcceptedIsFixed(b: Brief)
    requires HeadGood(b) && SectionsAccepted(b)
    ensures Fixed(Normalized(b))
  {
    NormalizedParts(b);
    NormalizedInterfaces(b);
    SectionsStay(b);
    CappedAgain(b.summary, MAX_SUMMARY);
    var n := Normalized(b);
    assert HeadGood(n) && Text(Strip(TextOf(n.summary))) == n.summary;
    hide PartsAccepted, InterfacesGood, NormalizeAll, Identified, WithIds, IdSet, SectionNormal, HeadGood, Strip, TextOf;
    forall s: nat | s < SECTIONS
      ensures SectionNormal(n.sections[s], s)
    {
      SectionIsNormal(b, s);
      assert n.sections[s] == Section(b, s);
    }
  }

  /** Whatever validation returns holds together. */
  lemma AcceptedIsIntact(b: Brief, fits: Brief -> bool)
    requires Validate(b, fits).Ok?
    ensures Intact(Validate(b, fits).value)
  {
    ValidateSpec(b, fits);
    var n := Normalized(b);
    hide Validate, SectionsAccepted, HeadGood, Intact, Fixed;
    AcceptedIsFixed(b);
    FixedIsIntact(n);
  }

  /** The briefs that validation accepts and leaves alone are those within the limits that hold together. */
  lemma ValidateImage(b: Brief, fits: Brief -> bool)
    ensures Validate(b, fits) == Ok(b) <==> fits(b) && Intact(b)
  {
    ValidateSpec(b, fits);
    hide Validate, Intact, SectionsAccepted, HeadGood;
    if Validate(b, fits) == Ok(b) { AcceptedIsIntact(b, fits); }
    if Intact(b) {
      IntactIsFixed(b);
      FixedStays(b);
    }
  }

  /** The converse of acceptance: a brief within the limits whose records have ids of their own and whose assumptions can be
      normalized is accepted exactly when it holds together once normalized. */
  lemma ValidateExact(b: Brief, fits: Brief -> bool)
    requires Identified(b.sections) && NormalizeAll(WithIds(b.sections[ASSUMPTIONS])).Ok?
    ensures Validate(b, fits).Ok? <==> fits(b) && Intact(Normalized(b))
  {
    ValidateSpec(b, fits);
    hide Validate, Intact, SectionsAccepted, HeadGood, Identified, NormalizeAll, WithIds, Normalized;
    if Validate(b, fits).Ok? { AcceptedIsIntact(b, fits); }
    if Intact(Normalized(b)) {
      IntactIsFixed(Normalized(b));
      FixedWasGood(b);
    }
  }

  lemma FixedWasGood(b: Brief)
    requires Identified(b.sections) && NormalizeAll(WithIds(b.sections[ASSUMPTIONS])).Ok? && Fixed(Normalized(b))
    ensures HeadGood(b) && SectionsAccepted(b)
  {
    var n := Normalized(b);
    HeadWasGood(b, n);
    var parts, after := b.sections[PARTS], n.sections[PARTS];
    assert after == Section(b, PARTS) && n.sections[INTERFACES] == Section(b, INTERFACES);
    SectionTidy(b, PARTS);
    SameIdsSpec(after, parts);
    assert after == WithAllChildren(WithIds(parts)) && n.sections[INTERFACES] == WithIds(b.sections[INTERFACES]);
    assert AllHaveIds(parts) && DistinctIds(parts) && AllHaveIds(b.sections[INTERFACES]);
    PartFieldsStay(parts);
    InterfacesStay(b.sections[INTERFACES], IdSet(parts));
    hide HeadGood, Identified, NormalizeAll, WithIds, IdSet, SectionNormal, InterfacesGood, AllHaveIds, DistinctIds, SameIds, Section,
      PartsAccepted, WithAllChildren, ChildrenValue;
    PartsSame(after, parts);
  }

  lemma HeadWasGood(b: Brief, n: Brief)
    requires HeadGood(n) && n.schema == b.schema && n.revision == b.revision && n.tier == b.tier
    requires n.summary == Text(Strip(TextOf(b.summary)))
    ensures HeadGood(b)
  {
    assert Strip(TextOf(n.summary)) == Strip(TextOf(b.summary));
    hide Strip, TextOf;
  }
}
