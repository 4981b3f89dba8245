/** What a migrated brief says, field by field (build_brief.py). */
module MigrationMeaning {
  import opened Wrappers
  import opened BriefText
  import opened BuildBrief
  import opened StableIds
  import opened BriefMigration
  import BriefMigrator

  /** `str(v or "").strip()`. */
  function Plain(v: Value): string { Strip(TextOf(v)) }

  /** Name, role and reason are kept, trimmed; there are no children yet. */
  predicate PartKept(raw: Record, r: Record) {
    && r.Keys == {Id, Name, Role, Why, Children}
    && r[Name] == Text(Plain(Get(raw, Name))) && r[Role] == Text(Plain(Get(raw, Role))) && r[Why] == Text(Plain(Get(raw, Why)))
    && r[Children].Items? && r[Children].items == []
  }

  /** Name, value, unit and what it drives are kept, trimmed; millimetres when there is no unit, and no entry for what it
      drives when that is empty. */
  predicate DimensionKept(raw: Record, r: Record) {
    && r.Keys == (if Truthy(Get(raw, Drives)) then {Id, Name, Quantity, Unit, Drives} else {Id, Name, Quantity, Unit})
    && r[Name] == Text(Plain(Get(raw, Name))) && r[Quantity] == Get(raw, Quantity)
    && r[Unit] == Text(if Unit in raw && Plain(raw[Unit]) != "" then Plain(raw[Unit]) else "mm")
    && (Drives in r ==> r[Drives] == Text(Plain(Get(raw, Drives))))
  }

  /** The canonical kind for a spelling. */
  predicate KindKept(raw: Value, kind: string) {
    var k := Lower(Plain(raw));
    && (kind == "press" <==> k == "press" || k == "press-fit" || k == "pressfit")
    && (kind == "snap" <==> k == "snap" || k == "snap-fit" || k == "snapfit")
    && (kind == "thread" <==> k == "thread" || k == "screw" || k == "threaded")
    && (kind == "pivot" <==> k == "pivot" || k == "hinge" || k == "rotate")
    && (kind == "slide" <==> k == "slide" || k == "sliding")
    && (kind == "fixed" <==> k == "fixed")
  }

  /** Kind and clearance are kept. The two names become the ids of the parts so named, in their order; a name without a part
      stays behind as unresolved, and then the conformance is unknown. */
  ghost predicate InterfaceKept(v: BriefV1, parts: seq<Record>, raw: RawInterface, r: Record)
    requires AllText(raw.between) && |raw.between.items| == 2 && AllHaveIds(parts) && |parts| == |v.parts|
  {
    var a, b := Strip(raw.between.items[0].text), Strip(raw.between.items[1].text);
    var i, j := FirstNamed(v.parts, a), FirstNamed(v.parts, b);
    && KindField in r && r[KindField].Text? && KindKept(raw.kind, r[KindField].text)
    && Clearance in r && r[Clearance] == raw.clearance
    && Participants in r && AllText(r[Participants])
    && Texts(r[Participants]) == (if i < |parts| then [IdOf(parts[i])] else []) + (if j < |parts| then [IdOf(parts[j])] else [])
    && (if i < |parts| && j < |parts| then Unresolved !in r && Conformance !in r
        else
          && Conformance in r && r[Conformance] == Text("unknown")
          && Unresolved in r && AllText(r[Unresolved])
          && Texts(r[Unresolved]) == (if i < |parts| then [] else [a]) + (if j < |parts| then [] else [b]))
  }

  /** A migrated brief, field by field, from the brief as it came in. */
  lemma MigratedFields(raw: RawBrief, fits: Brief -> bool)
    requires ValidateV1(raw).Ok? && Migrate(ValidateV1(raw).value, fits).Ok?
    ensures var v, b := ValidateV1(raw).value, Migrate(ValidateV1(raw).value, fits).value;
            && b.schema == 2 && b.revision == 0 && b.tier == raw.tier && b.summary == Text(Plain(raw.summary))
            && |v.parts| == |raw.parts| && (forall i :: 0 <= i < |raw.parts| ==> v.parts[i].name == Plain(Get(raw.parts[i], Name)))
            && |b.sections[0]| == |raw.parts| && AllHaveIds(b.sections[0])
            && (forall i :: 0 <= i < |raw.parts| ==> PartKept(raw.parts[i], b.sections[0][i]))
            && |b.sections[3]| == |raw.dims|
            && (forall i :: 0 <= i < |raw.dims| ==> DimensionKept(raw.dims[i], b.sections[3][i]))
            && |b.sections[4]| == |raw.interfaces|
            && (forall i :: 0 <= i < |raw.interfaces| ==>
                  && AllText(raw.interfaces[i].between) && |raw.interfaces[i].between.items| == 2
                  && InterfaceKept(v, b.sections[0], raw.interfaces[i], b.sections[4][i]))
            && (if Plain(raw.makeReal) == "" then b.sections[7] == []
                else |b.sections[7]| == 1 && b.sections[7][0].Keys == {Id, Description}
                     && b.sections[7][0][Description] == Text(Plain(raw.makeReal)))
            && b.sections[1] == [] && b.sections[2] == [] && b.sections[5] == [] && b.sections[6] == [] && b.sections[8] == []
  {
    var v := ValidateV1(raw).value;
    var ids := MigratedIds(v);
    AsAssembled(raw, fits);
    MigratedIdsGood(v);
    hide *;
    SectionsAre(raw, v, ids);
    PartsAre(raw, v, ids);
    DimensionsAre(raw, v, ids);
    InterfacesAre(raw, v, ids);
    RestIs(raw, v, ids);
  }

  lemma AsAssembled(raw: RawBrief, fits: Brief -> bool)
    requires ValidateV1(raw).Ok? && Migrate(ValidateV1(raw).value, fits).Ok?
    ensures var v := ValidateV1(raw).value; Migrate(v, fits).value == Assemble(v, MigratedIds(v))
  {
    var v := ValidateV1(raw).value;
    ValidateSpec(Assemble(v, MigratedIds(v)), fits);
    hide Validate, ValidateV1, Assemble, MigratedIds, Truthy, HeadGood, SectionsAccepted;
    MigrationExact(raw, fits);
  }

  lemma SectionsAre(raw: RawBrief, v: BriefV1, ids: seq<string>)
    requires ValidateV1(raw) == Ok(v) && GoodIds(v, ids)
    ensures var b := Assemble(v, ids);
            && b.sections[0] == PartRecords(v, ids) && b.sections[3] == DimensionRecords(v, ids)
            && b.sections[4] == InterfaceRecords(v, ids) && b.sections[7] == ManufacturingRecords(v, ids)
            && b.sections[1] == [] && b.sections[2] == [] && b.sections[5] == [] && b.sections[6] == [] && b.sections[8] == []
  {
    hide GoodIds, PartRecords, DimensionRecords, InterfaceRecords, ManufacturingRecords, ValidateV1;
  }

  lemma PartsAre(raw: RawBrief, v: BriefV1, ids: seq<string>)
    requires ValidateV1(raw) == Ok(v) && GoodIds(v, ids)
    ensures var parts := PartRecords(v, ids);
            && |v.parts| == |raw.parts| == |parts| && AllHaveIds(parts)
            && (forall i :: 0 <= i < |parts| ==> IdOf(parts[i]) == ids[i])
            && (forall i :: 0 <= i < |raw.parts| ==> v.parts[i].name == Plain(Get(raw.parts[i], Name)))
            && (forall i :: 0 <= i < |raw.parts| ==> PartKept(raw.parts[i], parts[i]))
  {
    RawLengths(raw, v);
    Lengths(v, ids);
    WishCount(v);
    RecordsStand(v, ids);
    assert |ids| == |Wishes(v)|;
    forall i: nat | i < |raw.parts|
      ensures v.parts[i].name == Plain(Get(raw.parts[i], Name)) && PartKept(raw.parts[i], PartRecords(v, ids)[i])
      ensures HasId(PartRecords(v, ids)[i]) && IdOf(PartRecords(v, ids)[i]) == ids[i]
    {
      PartRecordAt(raw, v, ids, i, ids[i]);
      assert Stands(PartRecords(v, ids)[i], ids, i);
      hide PartOf, PartOk, PartRecord, PartRecords, HasId, IdOf, PartKept, ValidateV1, GoodIds, Plain, Tidy;
      OnePart(raw.parts[i], ids[i]);
    }
    hide PartRecords, PartKept, ValidateV1, GoodIds, Plain, HasId, IdOf, Tidy;
  }

  lemma PartRecordAt(raw: RawBrief, v: BriefV1, ids: seq<string>, i: nat, id: string)
    requires ValidateV1(raw) == Ok(v) && |ids| == |Wishes(v)| && i < |raw.parts| && i < |v.parts| && i < |ids| && id == ids[i]
    ensures |PartRecords(v, ids)| == |v.parts| && PartOk(raw.parts[i]) && v.parts[i] == PartOf(raw.parts[i])
    ensures PartRecords(v, ids)[i] == PartRecord(PartOf(raw.parts[i]), id)
  {
    hide DimensionOk, InterfaceOk, PartRecord, DimensionOf, PartOf, InterfaceOf, Wishes;
    assert PartOk(raw.parts[i]);
    hide PartOk;
  }

  lemma OnePart(raw: Record, id: string)
    requires PartOk(raw)
    ensures PartOf(raw).name == Plain(Get(raw, Name)) && PartKept(raw, PartRecord(PartOf(raw), id))
  {
    hide Strip, TextOf;
  }

  lemma DimensionsAre(raw: RawBrief, v: BriefV1, ids: seq<string>)
    requires ValidateV1(raw) == Ok(v) && GoodIds(v, ids)
    ensures var dims := DimensionRecords(v, ids);
            |raw.dims| == |dims| && forall i :: 0 <= i < |raw.dims| ==> DimensionKept(raw.dims[i], dims[i])
  {
    RawLengths(raw, v);
    Lengths(v, ids);
    forall i: nat | i < |raw.dims|
      ensures DimensionKept(raw.dims[i], DimensionRecords(v, ids)[i])
    {
      WishCount(v);
      DimensionRecordAt(raw, v, ids, i, ids[|v.parts| + i]);
      hide *;
      OneDimension(raw.dims[i], ids[|v.parts| + i]);
    }
    hide *;
  }

  lemma RawLengths(raw: RawBrief, v: BriefV1)
    requires ValidateV1(raw) == Ok(v)
    ensures |v.parts| == |raw.parts| && |v.dims| == |raw.dims| && |v.interfaces| == |raw.interfaces|
  {
    hide Acceptable;
  }

  lemma DimensionRecordAt(raw: RawBrief, v: BriefV1, ids: seq<string>, i: nat, id: string)
    requires ValidateV1(raw) == Ok(v) && |ids| == |Wishes(v)| && i < |raw.dims| && i < |v.dims|
    requires |v.parts| + i < |ids| && id == ids[|v.parts| + i]
    ensures |DimensionRecords(v, ids)| == |v.dims| && DimensionOk(raw.dims[i])
    ensures DimensionRecords(v, ids)[i] == DimensionRecord(DimensionOf(raw.dims[i]), id)
  {
    RawDimensionAt(raw, v, i);
    hide *;
    DimensionRecordIs(v, ids, i, id);
  }

  lemma DimensionRecordIs(v: BriefV1, ids: seq<string>, i: nat, id: string)
    requires |ids| == |Wishes(v)| && i < |v.dims| && |v.parts| + i < |ids| && id == ids[|v.parts| + i]
    ensures |DimensionRecords(v, ids)| == |v.dims| && DimensionRecords(v, ids)[i] == DimensionRecord(v.dims[i], id)
  {
    hide DimensionRecord, Wishes;
  }

  lemma RawDimensionAt(raw: RawBrief, v: BriefV1, i: nat)
    requires ValidateV1(raw) == Ok(v) && i < |raw.dims|
    ensures |v.dims| == |raw.dims| && DimensionOk(raw.dims[i]) && v.dims[i] == DimensionOf(raw.dims[i])
  {
    hide PartOk, InterfaceOk, PartOf, InterfaceOf, DimensionOf;
    assert DimensionOk(raw.dims[i]);
    hide DimensionOk;
  }

  lemma OneDimension(raw: Record, id: string)
    requires DimensionOk(raw)
    ensures DimensionKept(raw, DimensionRecord(DimensionOf(raw), id))
  {
    var d := DimensionOf(raw);
    DimensionParts(raw, d);
    hide *;
    DimensionShape(d, id);
    KeptDimension(raw, d, DimensionRecord(d, id));
  }

  lemma DimensionShape(d: Dimension, id: string)
    ensures var r := DimensionRecord(d, id);
            && r.Keys == (if d.drives.Null? then {Id, Name, Quantity, Unit} else {Id, Name, Quantity, Unit, Drives})
            && r[Name] == Text(d.name) && r[Quantity] == d.quantity && r[Unit] == Text(d.unit)
            && (Drives in r ==> r[Drives] == d.drives)
  {
  }

  lemma KeptDimension(raw: Record, d: Dimension, r: Record)
    requires d.name == Plain(Get(raw, Name)) && d.quantity == Get(raw, Quantity)
    requires d.unit == if Unit in raw && Plain(raw[Unit]) != "" then Plain(raw[Unit]) else "mm"
    requires d.drives == if Truthy(Get(raw, Drives)) then Text(Plain(Get(raw, Drives))) else Null
    requires r.Keys == (if d.drives.Null? then {Id, Name, Quantity, Unit} else {Id, Name, Quantity, Unit, Drives})
    requires r[Name] == Text(d.name) && r[Quantity] == d.quantity && r[Unit] == Text(d.unit)
    requires Drives in r ==> r[Drives] == d.drives
    ensures DimensionKept(raw, r)
  {
    hide Plain, Truthy;
  }

  lemma DimensionParts(raw: Record, d: Dimension)
    requires DimensionOk(raw) && d == DimensionOf(raw)
    ensures d.name == Plain(Get(raw, Name)) && d.quantity == Get(raw, Quantity)
    ensures d.unit == if Unit in raw && Plain(raw[Unit]) != "" then Plain(raw[Unit]) else "mm"
    ensures d.drives == if Truthy(Get(raw, Drives)) then Text(Plain(Get(raw, Drives))) else Null
  {
    assert Plain(Text("mm")) == "mm" by { assert Trimmed("mm"); }
    hide Strip, TextOf, Truthy;
  }

  lemma InterfacesAre(raw: RawBrief, v: BriefV1, ids: seq<string>)
    requires ValidateV1(raw) == Ok(v) && GoodIds(v, ids)
    requires |PartRecords(v, ids)| == |v.parts| && AllHaveIds(PartRecords(v, ids))
    requires forall i :: 0 <= i < |v.parts| ==> IdOf(PartRecords(v, ids)[i]) == ids[i]
    ensures var interfaces := InterfaceRecords(v, ids);
            |raw.interfaces| == |interfaces| && forall i :: 0 <= i < |raw.interfaces| ==>
              && AllText(raw.interfaces[i].between) && |raw.interfaces[i].between.items| == 2
              && InterfaceKept(v, PartRecords(v, ids), raw.interfaces[i], interfaces[i])
  {
    Lengths(v, ids);
    assert |v.interfaces| == |raw.interfaces|;
    forall i: nat | i < |raw.interfaces|
      ensures AllText(raw.interfaces[i].between) && |raw.interfaces[i].between.items| == 2
      ensures InterfaceKept(v, PartRecords(v, ids), raw.interfaces[i], InterfaceRecords(v, ids)[i])
    {
      hide *;
      InterfaceAt(raw, v, ids, i);
    }
    hide *;
  }

  lemma InterfaceAt(raw: RawBrief, v: BriefV1, ids: seq<string>, i: nat)
    requires ValidateV1(raw) == Ok(v) && GoodIds(v, ids) && i < |raw.interfaces|
    requires |PartRecords(v, ids)| == |v.parts| && AllHaveIds(PartRecords(v, ids))
    requires forall i :: 0 <= i < |v.parts| ==> IdOf(PartRecords(v, ids)[i]) == ids[i]
    ensures |InterfaceRecords(v, ids)| == |raw.interfaces| && InterfaceOk(raw.interfaces[i])
    ensures AllText(raw.interfaces[i].between) && |raw.interfaces[i].between.items| == 2
    ensures InterfaceKept(v, PartRecords(v, ids), raw.interfaces[i], InterfaceRecords(v, ids)[i])
  {
    WishCount(v);
    RawInterfaceAt(raw, v, i);
    var id := ids[|v.parts| + |v.dims| + i];
    InterfaceRecordAt(v, ids, i, id);
    hide *;
    OneInterface(v, ids, PartRecords(v, ids), raw.interfaces[i], id);
  }

  lemma RawInterfaceAt(raw: RawBrief, v: BriefV1, i: nat)
    requires ValidateV1(raw) == Ok(v) && i < |raw.interfaces|
    ensures |v.interfaces| == |raw.interfaces| && InterfaceOk(raw.interfaces[i]) && v.interfaces[i] == InterfaceOf(raw.interfaces[i])
    ensures AllText(raw.interfaces[i].between) && |raw.interfaces[i].between.items| == 2
  {
    hide PartOk, DimensionOk, PartOf, DimensionOf, InterfaceOf;
    assert InterfaceOk(raw.interfaces[i]);
  }

  lemma InterfaceRecordAt(v: BriefV1, ids: seq<string>, i: nat, id: string)
    requires |ids| == |Wishes(v)| && i < |v.interfaces| && |v.parts| + |v.dims| + i < |ids| && id == ids[|v.parts| + |v.dims| + i]
    ensures |v.parts| <= |ids| && |InterfaceRecords(v, ids)| == |v.interfaces|
    ensures InterfaceRecords(v, ids)[i] == InterfaceRecord(v.parts, ids, v.interfaces[i], id)
  {
    hide InterfaceRecord, Wishes;
  }

  lemma OneInterface(v: BriefV1, ids: seq<string>, parts: seq<Record>, raw: RawInterface, id: string)
    requires InterfaceOk(raw) && AllHaveIds(parts) && |parts| == |v.parts| <= |ids|
    requires forall i :: 0 <= i < |parts| ==> IdOf(parts[i]) == ids[i]
    ensures InterfaceKept(v, parts, raw, InterfaceRecord(v.parts, ids, InterfaceOf(raw), id))
  {
    var it := InterfaceOf(raw);
    BothNames(raw);
    KindIsKept(raw.kind);
    TwoNames(v.parts, ids, it.a, it.b);
    InterfaceShape(v.parts, ids, it, id);
    hide *;
    KeptFrom(v, ids, parts, raw, it.a, it.b, it.kind, InterfaceRecord(v.parts, ids, it, id));
  }

  lemma KeptFrom(v: BriefV1, ids: seq<string>, parts: seq<Record>, raw: RawInterface, a: string, b: string, kind: string, r: Record)
    requires AllText(raw.between) && |raw.between.items| == 2 && AllHaveIds(parts) && |parts| == |v.parts| <= |ids|
    requires forall i :: 0 <= i < |parts| ==> IdOf(parts[i]) == ids[i]
    requires a == Strip(raw.between.items[0].text) && b == Strip(raw.between.items[1].text) && KindKept(raw.kind, kind)
    requires Clearance in r && r[Clearance] == raw.clearance && KindField in r && r[KindField] == Text(kind)
    requires var i, j := FirstNamed(v.parts, a), FirstNamed(v.parts, b);
             var unknown := (if i < |parts| then [] else [a]) + (if j < |parts| then [] else [b]);
             && Participants in r && AllText(r[Participants])
             && Texts(r[Participants]) == (if i < |parts| then [ids[i]] else []) + (if j < |parts| then [ids[j]] else [])
             && (if unknown == [] then Unresolved !in r && Conformance !in r
                 else && Unresolved in r && AllText(r[Unresolved]) && Texts(r[Unresolved]) == unknown
                      && Conformance in r && r[Conformance] == Text("unknown"))
    ensures InterfaceKept(v, parts, raw, r)
  {
    hide FirstNamed, KindKept, HasId, IdOf, Strip, Texts, AllText;
  }

  lemma BothNames(raw: RawInterface)
    requires InterfaceOk(raw)
    ensures var it := InterfaceOf(raw);
            && it.a == Strip(raw.between.items[0].text) && it.b == Strip(raw.between.items[1].text)
            && it.clearance == raw.clearance && it.kind == KindOf(raw.kind) && IsKind(KindOf(raw.kind))
  {
    hide Strip, KindOf;
  }

  lemma InterfaceShape(parts: seq<Part>, ids: seq<string>, it: Interface, id: string)
    requires |ids| >= |parts|
    ensures var r, unknown := InterfaceRecord(parts, ids, it, id), Unknown(parts, [it.a, it.b]);
            && Clearance in r && r[Clearance] == it.clearance
            && KindField in r && r[KindField] == Text(it.kind)
            && Participants in r && AllText(r[Participants]) && Texts(r[Participants]) == Participating(parts, ids, [it.a, it.b])
            && if unknown == [] then Unresolved !in r && Conformance !in r
               else && Unresolved in r && AllText(r[Unresolved]) && Texts(r[Unresolved]) == unknown
                    && Conformance in r && r[Conformance] == Text("unknown")
  {
    hide Unknown, Participating, ListOf;
  }

  lemma KindIsKept(raw: Value)
    requires IsKind(KindOf(raw))
    ensures KindKept(raw, KindOf(raw))
  {
    PressSpelled(raw);
    SnapSpelled(raw);
    ThreadSpelled(raw);
    PivotSpelled(raw);
    SlideSpelled(raw);
    FixedSpelled(raw);
    hide KindOf, Lower, Plain;
  }

  lemma PressSpelled(raw: Value)
    ensures var k := Lower(Plain(raw)); KindOf(raw) == "press" <==> k == "press" || k == "press-fit" || k == "pressfit"
  {
    hide Lower, Strip, TextOf;
  }

  lemma SnapSpelled(raw: Value)
    ensures var k := Lower(Plain(raw)); KindOf(raw) == "snap" <==> k == "snap" || k == "snap-fit" || k == "snapfit"
  {
    hide Lower, Strip, TextOf;
  }

  lemma ThreadSpelled(raw: Value)
    ensures var k := Lower(Plain(raw)); KindOf(raw) == "thread" <==> k == "thread" || k == "screw" || k == "threaded"
  {
    hide Lower, Strip, TextOf;
  }

  lemma PivotSpelled(raw: Value)
    ensures var k := Lower(Plain(raw)); KindOf(raw) == "pivot" <==> k == "pivot" || k == "hinge" || k == "rotate"
  {
    hide Lower, Strip, TextOf;
  }

  lemma SlideSpelled(raw: Value)
    ensures var k := Lower(Plain(raw)); KindOf(raw) == "slide" <==> k == "slide" || k == "sliding"
  {
    hide Lower, Strip, TextOf;
  }

  lemma FixedSpelled(raw: Value)
    ensures var k := Lower(Plain(raw)); KindOf(raw) == "fixed" <==> k == "fixed"
  {
    hide Lower, Strip, TextOf;
  }

  lemma TwoNames(parts: seq<Part>, ids: seq<string>, a: string, b: string)
    requires |ids| >= |parts|
    ensures var i, j := FirstNamed(parts, a), FirstNamed(parts, b);
            && Participating(parts, ids, [a, b]) == (if i < |parts| then [ids[i]] else []) + (if j < |parts| then [ids[j]] else [])
            && Unknown(parts, [a, b]) == (if i < |parts| then [] else [a]) + (if j < |parts| then [] else [b])
  {
    NextName(parts, ids, [], a);
    NextName(parts, ids, [a], b);
    assert [] + [a] == [a] && [a] + [b] == [a, b];
    assert Participating(parts, ids, []) == [] && Unknown(parts, []) == [];
    hide Participating, Unknown, FirstNamed;
  }

  lemma NextName(parts: seq<Part>, ids: seq<string>, names: seq<string>, n: string)
    requires |ids| >= |parts|
    ensures var i := FirstNamed(parts, n);
            && Participating(parts, ids, names + [n]) == Participating(parts, ids, names) + (if i < |parts| then [ids[i]] else [])
            && Unknown(parts, names + [n]) == Unknown(parts, names) + (if i < |parts| then [] else [n])
  {
    hide FirstNamed;
    assert (names + [n])[..|names|] == names;
  }

  lemma RestIs(raw: RawBrief, v: BriefV1, ids: seq<string>)
    requires ValidateV1(raw) == Ok(v) && GoodIds(v, ids)
    ensures var b, manufacturing := Assemble(v, ids), ManufacturingRecords(v, ids);
            && b.schema == 2 && b.revision == 0 && b.tier == raw.tier && b.summary == Text(Plain(raw.summary))
            && (if Plain(raw.makeReal) == "" then manufacturing == []
                else |manufacturing| == 1 && manufacturing[0].Keys == {Id, Description}
                     && manufacturing[0][Description] == Text(Plain(raw.makeReal)))
  {
    hide GoodIds, Strip, TextOf, PartRecords, DimensionRecords, InterfaceRecords;
  }

  // ---------------------------------------------------------------- what v1 accepts

  predicate UpTo(v: Value, cap: nat) { |Plain(v)| <= cap }

  /** A name that shows something, of bounded length. */
  predicate NameFits(r: Record) { Name in r && Strip(Shown(r[Name])) != "" && UpTo(r[Name], 120) }

  /** The bounds of a v1 brief. */
  predicate WithinV1(raw: RawBrief) {
    && (raw.tier == "skip" || raw.tier == "stream" || raw.tier == "pause") && 0 < |Plain(raw.summary)| <= 500
    && 1 <= |raw.parts| <= 64 && |raw.dims| <= 256 && |raw.interfaces| <= 256 && UpTo(raw.makeReal, 500)
    && (forall i :: 0 <= i < |raw.parts| ==> NameFits(raw.parts[i]) && UpTo(Get(raw.parts[i], Role), 300) && UpTo(Get(raw.parts[i], Why), 300))
    && (forall i :: 0 <= i < |raw.dims| ==> DimensionFits(raw.dims[i]))
    && (forall i :: 0 <= i < |raw.interfaces| ==> InterfaceFits(raw.interfaces[i]))
  }

  predicate DimensionFits(r: Record) {
    && NameFits(r) && (Get(r, Quantity).Null? || Get(r, Quantity).Number?)
    && (Unit in r ==> UpTo(r[Unit], 32)) && UpTo(Get(r, Drives), 200)
  }

  predicate InterfaceFits(i: RawInterface) {
    KindFits(i.kind) && BetweenFits(i.between) && (i.clearance.Null? || i.clearance.Number?)
  }

  /** A spelling of one of the six kinds. */
  predicate KindFits(raw: Value) { exists kind :: kind in {"pivot", "slide", "snap", "thread", "press", "fixed"} && KindKept(raw, kind) }

  /** Two names, neither blank, of bounded length. */
  predicate BetweenFits(v: Value) {
    v.Items? && |v.items| == 2 && OneNameFits(v.items[0]) && OneNameFits(v.items[1])
  }

  predicate OneNameFits(v: Value) { v.Text? && 0 < |Plain(v)| <= 120 }

  /** `validate_v1` accepts exactly what stays within the bounds. */
  lemma V1Accepted(raw: RawBrief)
    ensures ValidateV1(raw).Ok? <==> WithinV1(raw)
  {
    hide PartOk, DimensionOk, InterfaceOk, NameFits, DimensionFits, InterfaceFits, Strip, TextOf, UpTo;
    forall r: Record
      ensures PartOk(r) <==> NameFits(r) && UpTo(Get(r, Role), 300) && UpTo(Get(r, Why), 300)
      ensures DimensionOk(r) <==> DimensionFits(r)
    {
      PartWithin(r);
      DimensionWithin(r);
    }
    forall i: RawInterface
      ensures InterfaceOk(i) <==> InterfaceFits(i)
    {
      InterfaceWithin(i);
    }
    Capped500(raw.makeReal);
    Capped500(raw.summary);
    hide CappedText;
  }

  lemma Capped500(v: Value)
    ensures CappedText(v, 500).Ok? <==> UpTo(v, 500)
    ensures CappedText(v, 500).Ok? ==> CappedText(v, 500).value == Plain(v)
  {
  }

  lemma PartWithin(r: Record)
    ensures PartOk(r) <==> NameFits(r) && UpTo(Get(r, Role), 300) && UpTo(Get(r, Why), 300)
  {
    hide Strip, TextOf;
  }

  lemma DimensionWithin(r: Record)
    ensures DimensionOk(r) <==> DimensionFits(r)
  {
    assert Plain(Text("mm")) == "mm" by { assert Trimmed("mm"); }
    assert !Truthy(Get(r, Drives)) ==> Plain(Get(r, Drives)) == "" by { StripEmpty(); }
    hide Strip, TextOf, Truthy;
  }

  lemma InterfaceWithin(i: RawInterface)
    ensures InterfaceOk(i) <==> InterfaceFits(i)
  {
    if IsKind(KindOf(i.kind)) { KindIsKept(i.kind); }
    KindWithin(i.kind);
    assert IsKind(KindOf(i.kind)) <==> KindFits(i.kind);
    hide KindOf, KindFits, IsKind, Strip, TextOf;
    BetweenWithin(i.between);
  }

  lemma BetweenWithin(v: Value)
    ensures BetweenFits(v) <==>
              && AllText(v) && |v.items| == 2 && !Blank(v.items[0].text) && !Blank(v.items[1].text)
              && CappedText(v.items[0], 120).Ok? && CappedText(v.items[1], 120).Ok?
  {
    if AllText(v) && |v.items| == 2 {
      OneName(v.items[0]);
      OneName(v.items[1]);
    }
    if BetweenFits(v) {
      FitsIsText(v);
      OneName(v.items[0]);
      OneName(v.items[1]);
    }
    hide OneNameFits, Blank, CappedText;
  }

  lemma FitsIsText(v: Value)
    requires BetweenFits(v)
    ensures v.items[0].Text? && v.items[1].Text?
  {
    hide Plain;
  }

  lemma OneName(t: Value)
    requires t.Text?
    ensures OneNameFits(t) <==> !Blank(t.text) && CappedText(t, 120).Ok?
  {
    assert TextOf(t) == t.text;
    hide Strip, TextOf;
  }

  lemma KindWithin(raw: Value)
    ensures forall kind :: kind in {"pivot", "slide", "snap", "thread", "press", "fixed"} && KindKept(raw, kind) ==> IsKind(KindOf(raw))
    ensures forall kind :: IsKind(kind) <==> kind in {"pivot", "slide", "snap", "thread", "press", "fixed"}
  {
    hide Lower, Strip, TextOf;
  }

  // ---------------------------------------------------------------- where the ids come from

  /** The id of part, dimension, interface or manufacturing note number k, counting through in that order: made from its name, or
      from its kind and number, and the first that none before it has. */
  lemma IdsChosen(v: BriefV1, k: nat)
    requires k < |MigratedIds(v)|
    ensures |MigratedIds(v)| == |v.parts| + |v.dims| + |v.interfaces| + if v.makeReal == "" then 0 else 1
    ensures var ids, p, d := MigratedIds(v), |v.parts|, |v.parts| + |v.dims|;
            var before := ids[..k];
            if k < p then Chosen(v.parts[k].name, "part" + "-" + Decimal(k + 1), before, ids[k])
            else if k < d then Chosen(v.dims[k - p].name, "dimension" + "-" + Decimal(k - p + 1), before, ids[k])
            else if k < d + |v.interfaces| then
              Chosen("interface" + "-" + Decimal(k - d + 1), "interface" + "-" + Decimal(k - d + 1), before, ids[k])
            else Chosen("manufacturing", "manufacturing", before, ids[k])
  {
    WishCount(v);
    BriefMigrator.WishAt(v, k);
    ChosenAt(v, k);
    hide MigratedIds, Chosen, Wishes, Decimal;
  }

  lemma ChosenAt(v: BriefV1, k: nat)
    requires k < |MigratedIds(v)|
    ensures var ids, w := MigratedIds(v), Wishes(v)[k]; Chosen(w.value, w.fallback, ids[..k], ids[k])
  {
    var ids, ws := MigratedIds(v), Wishes(v);
    AllWishesOk(v);
    assert WishOk(ws[k]);
    hide MigratedIds, Wishes, FirstFree, Base, SlugText, Elements;
    IdAt(ws, k);
  }

  lemma IdAt(ws: seq<Wish>, k: nat)
    requires WishesOk(ws) && k < |ws|
    ensures Ids(ws)[k] == IdFor(ws[k].value, Elements(Ids(ws)[..k]), ws[k].fallback)
  {
    IdsPrefix(ws, k);
    IdsPrefix(ws, k + 1);
    assert ws[..k + 1][..k] == ws[..k] && ws[..k + 1][k] == ws[k];
    assert Ids(ws[..k + 1])[k] == Ids(ws)[k];
    hide Elements, SlugText, FirstFree, Base, WishOk;
  }

  lemma WishCount(v: BriefV1)
    ensures |Wishes(v)| == |v.parts| + |v.dims| + |v.interfaces| + if v.makeReal == "" then 0 else 1
  {
  }

  /** The id made from that value or fallback when those in `before` are taken. */
  ghost predicate Chosen(value: string, fallback: string, before: seq<string>, id: string) {
    fallback != "" && SlugText(fallback) && FirstFree(Base(value, fallback), Elements(before), id)
  }
}
