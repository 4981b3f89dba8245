/** The migration of v1 briefs in build_brief.py, `validate_v1` and `migrate_v1_to_v2`: when it succeeds, and what the
    migrated brief says. The fields of a v1 brief have the right JSON shape; the loops of the source are in
    BriefMigrator.dfy. */
module BriefMigration {
  import opened Wrappers
  import opened BriefText
  import opened BuildBrief
  import opened StableIds

  // ---------------------------------------------------------------- v1 briefs

  datatype RawInterface = RawInterface(kind: Value, between: Value, clearance: Value)

  /** A v1 brief as it comes in. */
  datatype RawBrief = RawBrief(tier: string, summary: Value, parts: seq<Record>, dims: seq<Record>,
                               interfaces: seq<RawInterface>, makeReal: Value)

  datatype Part = Part(name: string, role: string, why: string)
  datatype Dimension = Dimension(name: string, quantity: Value, unit: string, drives: Value)
  datatype Interface = Interface(a: string, b: string, kind: string, clearance: Value)

  /** A v1 brief as `validate_v1` returns it. */
  datatype BriefV1 = BriefV1(summary: string, parts: seq<Part>, dims: seq<Dimension>, interfaces: seq<Interface>,
                             makeReal: string, tier: string)

  const MAX_PARTS := 64
  const MAX_KEY_DIMS := 256
  const MAX_INTERFACES := 256
  const MAX_PROSE := 500
  const MAX_PART_TEXT := 300
  const MAX_PART_NAME := 120
  const MAX_DIM_NAME := 120
  const MAX_UNIT := 32
  const MAX_DIM_DRIVES := 200

  predicate Named(r: Record) { Name in r && !Blank(Shown(r[Name])) }

  predicate PartOk(r: Record) {
    && Named(r) && CappedText(r[Name], MAX_PART_NAME).Ok?
    && CappedText(Get(r, Role), MAX_PART_TEXT).Ok? && CappedText(Get(r, Why), MAX_PART_TEXT).Ok?
  }

  function PartOf(r: Record): Part
    requires PartOk(r)
  {
    Part(CappedText(r[Name], MAX_PART_NAME).value, CappedText(Get(r, Role), MAX_PART_TEXT).value,
         CappedText(Get(r, Why), MAX_PART_TEXT).value)
  }

  predicate FiniteOrNull(v: Value) { v.Null? || v.Number? }

  function UnitValue(r: Record): Value { if Unit in r then r[Unit] else Text("mm") }

  predicate DimensionOk(r: Record) {
    && Named(r) && CappedText(r[Name], MAX_DIM_NAME).Ok? && FiniteOrNull(Get(r, Quantity))
    && CappedText(UnitValue(r), MAX_UNIT).Ok? && (Truthy(Get(r, Drives)) ==> CappedText(Get(r, Drives), MAX_DIM_DRIVES).Ok?)
  }

  function DimensionOf(r: Record): Dimension
    requires DimensionOk(r)
  {
    var unit := CappedText(UnitValue(r), MAX_UNIT).value;
    Dimension(CappedText(r[Name], MAX_DIM_NAME).value, Get(r, Quantity), if unit == "" then "mm" else unit,
              if Truthy(Get(r, Drives)) then Text(CappedText(Get(r, Drives), MAX_DIM_DRIVES).value) else Null)
  }

  /** `_normalize_kind`. */
  function KindOf(v: Value): string {
    var k := Lower(Strip(TextOf(v)));
    if k == "press-fit" || k == "pressfit" then "press"
    else if k == "snap-fit" || k == "snapfit" then "snap"
    else if k == "screw" || k == "threaded" then "thread"
    else if k == "hinge" || k == "rotate" then "pivot"
    else if k == "sliding" then "slide"
    else k
  }

  predicate IsKind(s: string) { s in ["pivot", "slide", "snap", "thread", "press", "fixed"] }

  predicate InterfaceOk(i: RawInterface) {
    && IsKind(KindOf(i.kind)) && AllText(i.between) && |i.between.items| == 2
    && !Blank(i.between.items[0].text) && !Blank(i.between.items[1].text)
    && CappedText(i.between.items[0], MAX_PART_NAME).Ok? && CappedText(i.between.items[1], MAX_PART_NAME).Ok?
    && FiniteOrNull(i.clearance)
  }

  function InterfaceOf(i: RawInterface): Interface
    requires InterfaceOk(i)
  {
    Interface(CappedText(i.between.items[0], MAX_PART_NAME).value, CappedText(i.between.items[1], MAX_PART_NAME).value,
              KindOf(i.kind), i.clearance)
  }

  predicate Acceptable(raw: RawBrief) {
    && IsTier(raw.tier) && CappedText(raw.summary, MAX_SUMMARY).Ok? && CappedText(raw.summary, MAX_SUMMARY).value != ""
    && 0 < |raw.parts| <= MAX_PARTS && |raw.dims| <= MAX_KEY_DIMS && |raw.interfaces| <= MAX_INTERFACES
    && (forall i :: 0 <= i < |raw.parts| ==> PartOk(raw.parts[i]))
    && (forall i :: 0 <= i < |raw.dims| ==> DimensionOk(raw.dims[i]))
    && (forall i :: 0 <= i < |raw.interfaces| ==> InterfaceOk(raw.interfaces[i]))
    && CappedText(raw.makeReal, MAX_PROSE).Ok?
  }

  /** `validate_v1`. */
  function ValidateV1(raw: RawBrief): Result<BriefV1> {
    if !Acceptable(raw) then Rejected
    else Ok(BriefV1(CappedText(raw.summary, MAX_SUMMARY).value,
                    seq(|raw.parts|, i requires 0 <= i < |raw.parts| => PartOf(raw.parts[i])),
                    seq(|raw.dims|, i requires 0 <= i < |raw.dims| => DimensionOf(raw.dims[i])),
                    seq(|raw.interfaces|, i requires 0 <= i < |raw.interfaces| => InterfaceOf(raw.interfaces[i])),
                    CappedText(raw.makeReal, MAX_PROSE).value, raw.tier))
  }

  // ---------------------------------------------------------------- the ids

  /** What an id is made from. */
  datatype Wish = Wish(value: string, fallback: string)

  predicate WishOk(w: Wish) { w.fallback != "" && SlugText(w.fallback) }

  function Numbered(kind: string, i: nat): string { kind + "-" + Decimal(i + 1) }

  lemma NumberedOk(kind: string, i: nat)
    requires SlugText(kind)
    ensures SlugText(Numbered(kind, i)) && Numbered(kind, i) != ""
  {
  }

  function PartWish(v: BriefV1, i: nat): Wish
    requires i < |v.parts|
  {
    Wish(v.parts[i].name, Numbered("part", i))
  }

  function DimensionWish(v: BriefV1, i: nat): Wish
    requires i < |v.dims|
  {
    Wish(v.dims[i].name, Numbered("dimension", i))
  }

  function InterfaceWish(i: nat): Wish { Wish(Numbered("interface", i), Numbered("interface", i)) }

  const MANUFACTURING_WISH := Wish("manufacturing", "manufacturing")

  /** Everything that gets an id, in order: parts, dimensions, interfaces, manufacturing. */
  function Wishes(v: BriefV1): seq<Wish> {
    seq(|v.parts|, i requires 0 <= i < |v.parts| => PartWish(v, i))
    + seq(|v.dims|, i requires 0 <= i < |v.dims| => DimensionWish(v, i))
    + seq(|v.interfaces|, i requires 0 <= i < |v.interfaces| => InterfaceWish(i))
    + (if v.makeReal != "" then [MANUFACTURING_WISH] else [])
  }

  predicate WishesOk(ws: seq<Wish>) { forall i :: 0 <= i < |ws| ==> WishOk(ws[i]) }

  lemma AllWishesOk(v: BriefV1)
    ensures WishesOk(Wishes(v))
  {
    forall i: nat
      ensures WishOk(Wish("", Numbered("part", i))) && WishOk(Wish("", Numbered("dimension", i))) && WishOk(InterfaceWish(i))
    {
      NumberedOk("part", i);
      NumberedOk("dimension", i);
      NumberedOk("interface", i);
    }
    hide Numbered;
  }

  function Elements(ids: seq<string>): set<string> { set i | 0 <= i < |ids| :: ids[i] }

  /** The ids, each chosen among what those before it left free. */
  ghost function Ids(ws: seq<Wish>): (ids: seq<string>)
    requires WishesOk(ws)
    ensures |ids| == |ws|
  {
    if ws == [] then []
    else
      var before, last := Ids(ws[..|ws| - 1]), ws[|ws| - 1];
      before + [IdFor(last.value, Elements(before), last.fallback)]
  }

  lemma {:induction false} IdsDistinct(ws: seq<Wish>)
    requires WishesOk(ws)
    ensures forall i, j :: 0 <= i < j < |ws| ==> Ids(ws)[i] != Ids(ws)[j]
    ensures forall i :: 0 <= i < |ws| ==> Ids(ws)[i] != "" && SlugText(Ids(ws)[i])
  {
    hide SlugText, FirstFree;
    if ws != [] {
      var before, last := Ids(ws[..|ws| - 1]), ws[|ws| - 1];
      IdsDistinct(ws[..|ws| - 1]);
      FreshId(last, before);
    }
  }

  lemma FreshId(w: Wish, before: seq<string>)
    requires WishOk(w)
    ensures var id := IdFor(w.value, Elements(before), w.fallback);
            id != "" && SlugText(id) && forall i :: 0 <= i < |before| ==> before[i] != id
  {
  }

  lemma {:induction false} IdsPrefix(ws: seq<Wish>, k: nat)
    requires WishesOk(ws) && k <= |ws|
    ensures WishesOk(ws[..k]) && Ids(ws[..k]) == Ids(ws)[..k]
  {
    if k == |ws| {
      assert ws[..k] == ws;
    } else {
      IdsPrefix(ws[..|ws| - 1], k);
      assert ws[..|ws| - 1][..k] == ws[..k];
    }
  }

  // ---------------------------------------------------------------- the v2 brief

  /** The first part with that name, or the number of parts. */
  function FirstNamed(parts: seq<Part>, name: string): (i: nat)
    ensures i <= |parts| && (i < |parts| ==> parts[i].name == name)
    ensures forall j :: 0 <= j < i ==> parts[j].name != name
  {
    if parts == [] || parts[0].name == name then 0 else 1 + FirstNamed(parts[1..], name)
  }

  function Quoted(items: seq<string>): string {
    if items == [] then "" else Quoted(items[..|items| - 1]) + (if |items| > 1 then ", '" else "'") + items[|items| - 1] + "'"
  }

  function ListOf(items: seq<string>): (v: Value)
    ensures AllText(v) && Texts(v) == items
  {
    Items(seq(|items|, i requires 0 <= i < |items| => Text(items[i])), "[" + Quoted(items) + "]")
  }

  /** The ids of those names that are parts, and the names that are not. */
  function Participating(parts: seq<Part>, ids: seq<string>, names: seq<string>): seq<string>
    requires |ids| >= |parts|
  {
    if names == [] then []
    else
      var before, k := Participating(parts, ids, names[..|names| - 1]), FirstNamed(parts, names[|names| - 1]);
      if k < |parts| then before + [ids[k]] else before
  }

  function Unknown(parts: seq<Part>, names: seq<string>): seq<string> {
    if names == [] then []
    else
      var before, last := Unknown(parts, names[..|names| - 1]), names[|names| - 1];
      if FirstNamed(parts, last) < |parts| then before else before + [last]
  }

  function PartRecord(p: Part, id: string): Record {
    map[Id := Text(id), Name := Text(p.name), Role := Text(p.role), Why := Text(p.why), Children := NO_ITEMS]
  }

  function DimensionRecord(d: Dimension, id: string): Record {
    var r := map[Id := Text(id), Name := Text(d.name), Quantity := d.quantity, Unit := Text(d.unit)];
    if d.drives.Null? then r else r[Drives := d.drives]
  }

  function InterfaceRecord(parts: seq<Part>, ids: seq<string>, it: Interface, id: string): Record
    requires |ids| >= |parts|
  {
    var r := map[Id := Text(id), KindField := Text(it.kind),
                 Participants := ListOf(Participating(parts, ids, [it.a, it.b])), Clearance := it.clearance];
    var unknown := Unknown(parts, [it.a, it.b]);
    if unknown == [] then r else r[Unresolved := ListOf(unknown)][Conformance := Text("unknown")]
  }

  function ManufacturingRecord(text: string, id: string): Record { map[Id := Text(id), Description := Text(text)] }

  function PartRecords(v: BriefV1, ids: seq<string>): seq<Record>
    requires |ids| == |Wishes(v)|
  {
    seq(|v.parts|, i requires 0 <= i < |v.parts| => PartRecord(v.parts[i], ids[i]))
  }

  function DimensionRecords(v: BriefV1, ids: seq<string>): seq<Record>
    requires |ids| == |Wishes(v)|
  {
    seq(|v.dims|, i requires 0 <= i < |v.dims| => DimensionRecord(v.dims[i], ids[|v.parts| + i]))
  }

  function InterfaceRecords(v: BriefV1, ids: seq<string>): seq<Record>
    requires |ids| == |Wishes(v)|
  {
    seq(|v.interfaces|, i requires 0 <= i < |v.interfaces| =>
      InterfaceRecord(v.parts, ids, v.interfaces[i], ids[|v.parts| + |v.dims| + i]))
  }

  function ManufacturingRecords(v: BriefV1, ids: seq<string>): seq<Record>
    requires |ids| == |Wishes(v)|
  {
    if v.makeReal == "" then [] else [ManufacturingRecord(v.makeReal, ids[|ids| - 1])]
  }

  function Assemble(v: BriefV1, ids: seq<string>): Brief
    requires |ids| == |Wishes(v)|
  {
    Brief(2, 0, v.tier, Text(v.summary),
          [PartRecords(v, ids), [], [], DimensionRecords(v, ids), InterfaceRecords(v, ids), [], [], ManufacturingRecords(v, ids), []])
  }

  ghost function MigratedIds(v: BriefV1): (ids: seq<string>)
    ensures |ids| == |Wishes(v)|
  {
    AllWishesOk(v);
    Ids(Wishes(v))
  }

  /** `migrate_v1_to_v2` after `validate_v1`. */
  ghost function Migrate(v: BriefV1, fits: Brief -> bool): Result<Brief> { Validate(Assemble(v, MigratedIds(v)), fits) }

  // ---------------------------------------------------------------- when it succeeds

  /** The records of all sections stand for consecutive ids. */
  ghost predicate Laid(sections: seq<seq<Record>>, offsets: seq<nat>, ids: seq<string>) {
    && |offsets| == |sections| + 1 && offsets[|sections|] <= |ids|
    && (forall s :: 0 <= s < |sections| ==> offsets[s] + |sections[s]| == offsets[s + 1])
    && (forall s, i :: 0 <= s < |sections| && 0 <= i < |sections[s]| ==> Stands(sections[s][i], ids, offsets[s] + i))
  }

  predicate Stands(r: Record, ids: seq<string>, k: nat) { k < |ids| && HasId(r) && IdOf(r) == ids[k] }

  lemma {:induction false} OffsetsGrow(sections: seq<seq<Record>>, offsets: seq<nat>, ids: seq<string>, s: nat, t: nat)
    requires Laid(sections, offsets, ids) && s < t <= |sections|
    ensures offsets[s] + |sections[s]| <= offsets[t]
  {
    if s + 1 < t { OffsetsGrow(sections, offsets, ids, s, t - 1); }
  }

  lemma LaidIdentified(sections: seq<seq<Record>>, offsets: seq<nat>, ids: seq<string>)
    requires Laid(sections, offsets, ids) && forall i, j :: 0 <= i < j < |ids| ==> ids[i] != ids[j]
    ensures Identified(sections)
  {
    hide HasId, IdOf;
    forall s | 0 <= s < |sections|
      ensures AllHaveIds(sections[s]) && DistinctIds(sections[s])
    {
      assert forall i :: 0 <= i < |sections[s]| ==> Stands(sections[s][i], ids, offsets[s] + i);
    }
    forall s, t | 0 <= s < t < |sections|
      ensures IdSet(sections[s]) !! IdSet(sections[t])
    {
      OffsetsGrow(sections, offsets, ids, s, t);
      Disjoint(sections[s], sections[t], ids, offsets[s], offsets[t]);
    }
  }

  lemma Disjoint(a: seq<Record>, b: seq<Record>, ids: seq<string>, m: nat, n: nat)
    requires AllHaveIds(a) && AllHaveIds(b) && m + |a| <= n
    requires forall i :: 0 <= i < |a| ==> Stands(a[i], ids, m + i)
    requires forall i :: 0 <= i < |b| ==> Stands(b[i], ids, n + i)
    requires forall i, j :: 0 <= i < j < |ids| ==> ids[i] != ids[j]
    ensures IdSet(a) !! IdSet(b)
  {
  }

  ghost function Offsets(v: BriefV1): seq<nat> {
    var p, d, i, n := |v.parts|, |v.dims|, |v.interfaces|, |Wishes(v)|;
    [0, p, p, p, p + d, p + d + i, p + d + i, p + d + i, n, n]
  }

  lemma RecordStands(r: Record, ids: seq<string>, k: nat)
    requires k < |ids| && ids[k] != "" && SlugText(ids[k]) && Id in r && r[Id] == Text(ids[k])
    ensures Stands(r, ids, k) && Tidy(r)
  {
  }

  ghost predicate GoodIds(v: BriefV1, ids: seq<string>) {
    |ids| == |Wishes(v)| && (forall i :: 0 <= i < |ids| ==> ids[i] != "" && SlugText(ids[i]))
    && forall i, j :: 0 <= i < j < |ids| ==> ids[i] != ids[j]
  }

  /** Every record of the assembled brief carries the id made for it. */
  lemma RecordsStand(v: BriefV1, ids: seq<string>)
    requires GoodIds(v, ids)
    ensures forall i :: 0 <= i < |v.parts| ==> Stands(PartRecords(v, ids)[i], ids, i) && Tidy(PartRecords(v, ids)[i])
    ensures forall i :: 0 <= i < |v.dims| ==>
              Stands(DimensionRecords(v, ids)[i], ids, |v.parts| + i) && Tidy(DimensionRecords(v, ids)[i])
    ensures forall i :: 0 <= i < |v.interfaces| ==>
              Stands(InterfaceRecords(v, ids)[i], ids, |v.parts| + |v.dims| + i) && Tidy(InterfaceRecords(v, ids)[i])
    ensures forall i :: 0 <= i < |ManufacturingRecords(v, ids)| ==>
              Stands(ManufacturingRecords(v, ids)[i], ids, |ids| - 1) && Tidy(ManufacturingRecords(v, ids)[i])
  {
    hide Stands, Tidy, SlugText;
    forall i | 0 <= i < |v.parts|
      ensures Stands(PartRecords(v, ids)[i], ids, i) && Tidy(PartRecords(v, ids)[i])
    {
      RecordStands(PartRecords(v, ids)[i], ids, i);
    }
    forall i | 0 <= i < |v.dims|
      ensures Stands(DimensionRecords(v, ids)[i], ids, |v.parts| + i) && Tidy(DimensionRecords(v, ids)[i])
    {
      RecordStands(DimensionRecords(v, ids)[i], ids, |v.parts| + i);
    }
    forall i | 0 <= i < |v.interfaces|
      ensures Stands(InterfaceRecords(v, ids)[i], ids, |v.parts| + |v.dims| + i) && Tidy(InterfaceRecords(v, ids)[i])
    {
      RecordStands(InterfaceRecords(v, ids)[i], ids, |v.parts| + |v.dims| + i);
    }
    if v.makeReal != "" { RecordStands(ManufacturingRecords(v, ids)[0], ids, |ids| - 1); }
  }

  lemma AssembledIdentified(v: BriefV1, ids: seq<string>)
    requires GoodIds(v, ids)
    ensures Identified(Assemble(v, ids).sections)
    ensures forall s: nat :: s < SECTIONS ==> AllTidy(Assemble(v, ids).sections[s])
  {
    forall s: nat | s < SECTIONS
      ensures AllTidy(Assemble(v, ids).sections[s]) && Offsets(v)[s] + |Assemble(v, ids).sections[s]| == Offsets(v)[s + 1]
      ensures forall i :: 0 <= i < |Assemble(v, ids).sections[s]| ==> Stands(Assemble(v, ids).sections[s][i], ids, Offsets(v)[s] + i)
    {
      SectionStands(v, ids, s);
    }
    hide Stands, AllTidy, Assemble, Wishes;
    LaidIdentified(Assemble(v, ids).sections, Offsets(v), ids);
  }

  lemma SectionStands(v: BriefV1, ids: seq<string>, s: nat)
    requires GoodIds(v, ids) && s < SECTIONS
    ensures AllTidy(Assemble(v, ids).sections[s]) && Offsets(v)[s] + |Assemble(v, ids).sections[s]| == Offsets(v)[s + 1]
    ensures forall i :: 0 <= i < |Assemble(v, ids).sections[s]| ==> Stands(Assemble(v, ids).sections[s][i], ids, Offsets(v)[s] + i)
  {
    RecordsStand(v, ids);
    Lengths(v, ids);
    hide Stands, Tidy, GoodIds, PartRecords, DimensionRecords, InterfaceRecords;
  }

  lemma Lengths(v: BriefV1, ids: seq<string>)
    requires |ids| == |Wishes(v)|
    ensures |PartRecords(v, ids)| == |v.parts| && |DimensionRecords(v, ids)| == |v.dims| && |InterfaceRecords(v, ids)| == |v.interfaces|
  {
  }

  /** What `validate_v1` guarantees of its result. */
  predicate Sane(v: BriefV1) {
    && IsTier(v.tier) && Capped(Text(v.summary), MAX_SUMMARY) && v.summary != ""
    && (forall i :: 0 <= i < |v.parts| ==> Trimmed(v.parts[i].name))
    && (forall i :: 0 <= i < |v.interfaces| ==> SaneInterface(v.interfaces[i]))
  }

  predicate SaneInterface(i: Interface) {
    IsKind(i.kind) && Trimmed(i.a) && Trimmed(i.b) && i.a != "" && i.b != ""
  }

  lemma ValidV1IsSane(raw: RawBrief)
    requires ValidateV1(raw).Ok?
    ensures Sane(ValidateV1(raw).value)
  {
    var v := ValidateV1(raw).value;
    CappedAgain(raw.summary, MAX_SUMMARY);
    forall i | 0 <= i < |raw.parts|
      ensures Trimmed(v.parts[i].name)
    {
      assert PartOk(raw.parts[i]);
      CappedAgain(raw.parts[i][Name], MAX_PART_NAME);
      hide Strip, TextOf, Trimmed;
    }
    forall i | 0 <= i < |raw.interfaces|
      ensures SaneInterface(v.interfaces[i])
    {
      assert InterfaceOk(raw.interfaces[i]);
      hide Acceptable, ValidateV1;
      InterfaceSane(raw.interfaces[i]);
    }
    hide *;
    assert v == ValidateV1(raw).value;
  }

  lemma InterfaceSane(i: RawInterface)
    requires InterfaceOk(i)
    ensures SaneInterface(InterfaceOf(i))
  {
  }

  lemma EmptyTree(v: BriefV1, ids: seq<string>)
    requires GoodIds(v, ids) && (forall i :: 0 <= i < |v.parts| ==> Trimmed(v.parts[i].name))
    requires Identified(Assemble(v, ids).sections)
    ensures PartsAccepted(PartRecords(v, ids)) <==> forall i :: 0 <= i < |v.parts| ==> v.parts[i].name != ""
  {
    var parts := PartRecords(v, ids);
    assert parts == Assemble(v, ids).sections[PARTS];
    hide Identified, GoodIds, HasId, IdOf, IdSet;
    forall i | 0 <= i < |parts|
      ensures PartGood(parts[i], IdSet(parts), IdOf(parts[i])) <==> v.parts[i].name != ""
      ensures AllText(ChildrenValue(parts[i])) && Texts(ChildrenValue(parts[i])) == []
    {
      assert Texts(ChildrenValue(parts[i])) == [];
    }
    if PartsGood(parts) { NoChildren(parts); }
    hide PartGood, Tree, PartRecords;
    assert |parts| == |v.parts|;
  }

  lemma NoChildren(parts: seq<Record>)
    requires AllHaveIds(parts) && DistinctIds(parts) && PartsGood(parts)
    requires forall i :: 0 <= i < |parts| ==> AllText(ChildrenValue(parts[i])) && Texts(ChildrenValue(parts[i])) == []
    ensures PartsAccepted(parts)
  {
  }

  /** The name is that of a part, and x is the id of the first such part. */
  predicate Stand(parts: seq<Part>, ids: seq<string>, name: string, x: string)
    requires |ids| >= |parts|
  {
    FirstNamed(parts, name) < |parts| && ids[FirstNamed(parts, name)] == x
  }

  lemma {:induction false} ParticipatingSpec(parts: seq<Part>, ids: seq<string>, names: seq<string>)
    requires |ids| >= |parts|
    ensures forall x :: x in Participating(parts, ids, names) <==> exists n :: n in names && Stand(parts, ids, n, x)
    ensures forall n :: n in Unknown(parts, names) <==> n in names && FirstNamed(parts, n) == |parts|
    ensures |Participating(parts, ids, names)| + |Unknown(parts, names)| == |names|
  {
    if names != [] {
      var init, last := names[..|names| - 1], names[|names| - 1];
      ParticipatingSpec(parts, ids, init);
      assert forall n :: n in names <==> n in init || n == last;
      var k := FirstNamed(parts, last);
      var more := if k < |parts| then [ids[k]] else [];
      assert Participating(parts, ids, names) == Participating(parts, ids, init) + more;
      hide FirstNamed, Participating;
      forall x
        ensures x in Participating(parts, ids, names) <==> exists n :: n in names && Stand(parts, ids, n, x)
      {
        assert x in more <==> Stand(parts, ids, last, x);
      }
    }
  }

  /** The participants of a migrated interface are ids of the parts it names; a name that is no part stays behind
      as unresolved. */
  lemma InterfaceRecordGood(v: BriefV1, ids: seq<string>, it: Interface, id: string)
    requires GoodIds(v, ids) && SaneInterface(it) && Identified(Assemble(v, ids).sections)
    ensures InterfaceGood(InterfaceRecord(v.parts, ids, it, id), IdSet(PartRecords(v, ids)))
  {
    var names := [it.a, it.b];
    ParticipatingSpec(v.parts, ids, names);
    ParticipantsKnown(v, ids, names);
    KindNotBlank(it.kind);
    UnknownNotBlank(v.parts, it);
    RecordShape(v.parts, ids, it, id);
    hide *;
    GoodInterface(InterfaceRecord(v.parts, ids, it, id), it.kind, Participating(v.parts, ids, names),
                  Unknown(v.parts, names), IdSet(PartRecords(v, ids)));
  }

  lemma ParticipantsKnown(v: BriefV1, ids: seq<string>, names: seq<string>)
    requires GoodIds(v, ids) && Identified(Assemble(v, ids).sections)
    ensures AllHaveIds(PartRecords(v, ids))
    ensures forall x :: x in Participating(v.parts, ids, names) ==> x in IdSet(PartRecords(v, ids))
  {
    ParticipatingSpec(v.parts, ids, names);
    assert Assemble(v, ids).sections[PARTS] == PartRecords(v, ids);
    hide Participating, FirstNamed, GoodIds, IdSet, PartRecords, HasId, IdOf;
    forall x | x in Participating(v.parts, ids, names)
      ensures x in IdSet(PartRecords(v, ids))
    {
      var n :| n in names && Stand(v.parts, ids, n, x);
      PartIds(v, ids, FirstNamed(v.parts, n));
    }
  }

  lemma UnknownNotBlank(parts: seq<Part>, it: Interface)
    requires SaneInterface(it)
    ensures forall n :: n in Unknown(parts, [it.a, it.b]) ==> !Blank(n)
  {
    ParticipatingSpec(parts, seq(|parts|, _ => ""), [it.a, it.b]);
    hide Unknown, FirstNamed, IsKind;
  }

  lemma RecordShape(parts: seq<Part>, ids: seq<string>, it: Interface, id: string)
    requires |ids| >= |parts|
    ensures var r, unknown := InterfaceRecord(parts, ids, it, id), Unknown(parts, [it.a, it.b]);
            && KindField in r && r[KindField] == Text(it.kind)
            && Participants in r && r[Participants] == ListOf(Participating(parts, ids, [it.a, it.b]))
            && if unknown == [] then Unresolved !in r
               else Unresolved in r && r[Unresolved] == ListOf(unknown) && Get(r, Conformance) == Text("unknown")
  {
  }

  lemma GoodInterface(r: Record, kind: string, participants: seq<string>, unknown: seq<string>, ids: set<string>)
    requires KindField in r && r[KindField] == Text(kind) && !Blank(kind)
    requires Participants in r && r[Participants] == ListOf(participants) && forall x :: x in participants ==> x in ids
    requires if unknown == [] then Unresolved !in r
             else Unresolved in r && r[Unresolved] == ListOf(unknown) && Get(r, Conformance) == Text("unknown")
    requires (forall n :: n in unknown ==> !Blank(n)) && |participants| + |unknown| == 2
    ensures InterfaceGood(r, ids)
  {
  }

  lemma KindNotBlank(kind: string)
    requires IsKind(kind)
    ensures !Blank(kind)
  {
  }

  lemma PartIds(v: BriefV1, ids: seq<string>, i: nat)
    requires GoodIds(v, ids) && i < |v.parts| && Identified(Assemble(v, ids).sections)
    ensures ids[i] in IdSet(PartRecords(v, ids))
  {
    RecordsStand(v, ids);
    var parts := PartRecords(v, ids);
    hide GoodIds, HasId, IdOf, Tidy, PartRecords;
    assert Assemble(v, ids).sections[PARTS] == parts;
    assert Stands(parts[i], ids, i);
  }

  lemma AssembledInterfaces(v: BriefV1, ids: seq<string>)
    requires GoodIds(v, ids) && Sane(v) && Identified(Assemble(v, ids).sections)
    ensures AllHaveIds(PartRecords(v, ids)) && InterfacesGood(InterfaceRecords(v, ids), IdSet(PartRecords(v, ids)))
  {
    assert Assemble(v, ids).sections[PARTS] == PartRecords(v, ids);
    assert AllHaveIds(PartRecords(v, ids));
    forall i: nat | i < |v.interfaces|
      ensures i < |InterfaceRecords(v, ids)| && InterfaceGood(InterfaceRecords(v, ids)[i], IdSet(PartRecords(v, ids)))
    {
      InterfaceRecordGoodAt(v, ids, i);
    }
    Lengths(v, ids);
    hide GoodIds, Assemble, Identified, IdSet, AllHaveIds, InterfaceGood, PartRecords, Sane, InterfaceRecords;
  }

  lemma InterfaceRecordGoodAt(v: BriefV1, ids: seq<string>, i: nat)
    requires GoodIds(v, ids) && Sane(v) && Identified(Assemble(v, ids).sections) && i < |v.interfaces|
    ensures AllHaveIds(PartRecords(v, ids)) && i < |InterfaceRecords(v, ids)|
    ensures InterfaceGood(InterfaceRecords(v, ids)[i], IdSet(PartRecords(v, ids)))
  {
    assert Assemble(v, ids).sections[PARTS] == PartRecords(v, ids);
    assert AllHaveIds(PartRecords(v, ids));
    var k := |v.parts| + |v.dims| + i;
    assert InterfaceRecords(v, ids)[i] == InterfaceRecord(v.parts, ids, v.interfaces[i], ids[k]);
    assert SaneInterface(v.interfaces[i]);
    hide GoodIds, Assemble, Identified, IdSet, AllHaveIds, InterfaceGood, InterfaceRecord, PartRecords, Sane, InterfaceRecords;
    InterfaceRecordGood(v, ids, v.interfaces[i], ids[k]);
  }

  /** An assembled brief is accepted, as it is, exactly when every part kept a name. */
  lemma AssembledAccepted(v: BriefV1, ids: seq<string>, fits: Brief -> bool)
    requires GoodIds(v, ids) && Sane(v) && fits(Assemble(v, ids))
    ensures Validate(Assemble(v, ids), fits) ==
            if forall i :: 0 <= i < |v.parts| ==> v.parts[i].name != "" then Ok(Assemble(v, ids)) else Rejected
  {
    var b := Assemble(v, ids);
    AssembledIdentified(v, ids);
    EmptyTree(v, ids);
    AssembledInterfaces(v, ids);
    AssembledShape(v, ids);
    HeadOf(v, ids);
    hide GoodIds, Assemble, PartRecords, InterfaceRecords, Identified, PartsAccepted, IdSet, WithIds, NormalizeAll,
      InterfacesGood, AllTidy, Section, HeadGood, Normalized, Strip, TextOf;
    NormalBriefStays(b);
  }

  lemma AssembledShape(v: BriefV1, ids: seq<string>)
    requires GoodIds(v, ids)
    ensures var b := Assemble(v, ids);
            && b.sections[PARTS] == PartRecords(v, ids) && b.sections[INTERFACES] == InterfaceRecords(v, ids)
            && b.sections[ASSUMPTIONS] == [] && WithIds([]) == [] && NormalizeAll([]) == Ok([])
            && forall i :: 0 <= i < |b.sections[PARTS]| ==> Children in b.sections[PARTS][i]
  {
  }

  lemma NormalBriefStays(b: Brief)
    requires Identified(b.sections) && NormalizeAll(WithIds(b.sections[ASSUMPTIONS])).Ok?
    requires forall s: nat :: s < SECTIONS ==> AllTidy(b.sections[s])
    requires forall i :: 0 <= i < |b.sections[PARTS]| ==> Children in b.sections[PARTS][i]
    requires b.sections[ASSUMPTIONS] == [] && Text(Strip(TextOf(b.summary))) == b.summary
    ensures Normalized(b) == b
  {
    hide Identified, WithIds, NormalizeAll, AllTidy, Section, Strip, TextOf;
    forall s: nat | s < SECTIONS
      ensures Section(b, s) == b.sections[s]
    {
      NormalSectionStays(b, s);
    }
    assert Normalized(b).sections == b.sections;
  }

  lemma HeadOf(v: BriefV1, ids: seq<string>)
    requires GoodIds(v, ids) && Sane(v)
    ensures HeadGood(Assemble(v, ids)) && Text(Strip(TextOf(Assemble(v, ids).summary))) == Assemble(v, ids).summary
  {
  }

  lemma MigratedIdsGood(v: BriefV1)
    ensures GoodIds(v, MigratedIds(v))
  {
    AllWishesOk(v);
    IdsDistinct(Wishes(v));
    hide SlugText;
  }

  /** A valid v1 brief migrates exactly when every part's name is a value that counts as true: then the result is
      the assembled brief. A name of null, zero or false passes `validate_v1` as an empty name, and the migration
      then fails. */
  lemma MigrationExact(raw: RawBrief, fits: Brief -> bool)
    requires ValidateV1(raw).Ok?
    requires fits(Assemble(ValidateV1(raw).value, MigratedIds(ValidateV1(raw).value)))
    ensures var v := ValidateV1(raw).value;
            Migrate(v, fits) == if forall i :: 0 <= i < |raw.parts| ==> Name in raw.parts[i] && Truthy(raw.parts[i][Name])
                                then Ok(Assemble(v, MigratedIds(v))) else Rejected
  {
    var v := ValidateV1(raw).value;
    MigratedIdsGood(v);
    ValidV1IsSane(raw);
    NamesKept(raw);
    hide Validate, Assemble, MigratedIds, ValidateV1, GoodIds, Sane, Truthy;
    AssembledAccepted(v, MigratedIds(v), fits);
  }

  lemma NamesKept(raw: RawBrief)
    requires ValidateV1(raw).Ok?
    ensures var v := ValidateV1(raw).value;
            |v.parts| == |raw.parts| && forall i :: 0 <= i < |raw.parts| ==>
              (v.parts[i].name != "" <==> Name in raw.parts[i] && Truthy(raw.parts[i][Name]))
  {
  }

  lemma StripEmpty()
    ensures Strip("") == ""
  {
  }

  /** The smallest such brief. */
  lemma NullNameFailsMigration()
    ensures var raw := RawBrief("skip", Text("a"), [map[Name := Null]], [], [], Null);
            ValidateV1(raw).Ok? && forall fits :: Migrate(ValidateV1(raw).value, fits).Rejected?
  {
    var raw := RawBrief("skip", Text("a"), [map[Name := Null]], [], [], Null);
    assert Trimmed("a") && Trimmed("None") && !Blank("None");
    StripEmpty();
    assert PartOk(raw.parts[0]);
    assert Acceptable(raw);
    forall fits: Brief -> bool
      ensures Migrate(ValidateV1(raw).value, fits).Rejected?
    {
      var v := ValidateV1(raw).value;
      if fits(Assemble(v, MigratedIds(v))) {
        MigrationExact(raw, fits);
        assert !Truthy(raw.parts[0][Name]);
      } else {
        hide Assemble, MigratedIds;
      }
    }
  }

  /** In a migrated brief all ids are distinct, and each interface lists the ids of the parts it names and, as
      unresolved, the names that belong to no part. */
  lemma MigratedBrief(v: BriefV1)
    requires Sane(v)
    ensures var b := Assemble(v, MigratedIds(v));
            && Identified(b.sections)
            && forall i :: 0 <= i < |v.interfaces| ==> LinksRight(v, MigratedIds(v), i)
  {
    MigratedIdsGood(v);
    var ids := MigratedIds(v);
    AssembledIdentified(v, ids);
    hide *;
    forall i | 0 <= i < |v.interfaces|
      ensures LinksRight(v, ids, i)
    {
      LinksAreRight(v, ids, i);
    }
  }

  lemma LinksAreRight(v: BriefV1, ids: seq<string>, i: nat)
    requires i < |v.interfaces| && |ids| >= |v.parts|
    ensures LinksRight(v, ids, i)
  {
    ParticipatingSpec(v.parts, ids, [v.interfaces[i].a, v.interfaces[i].b]);
    hide Participating, Unknown;
  }

  ghost predicate LinksRight(v: BriefV1, ids: seq<string>, i: nat)
    requires i < |v.interfaces| && |ids| >= |v.parts|
  {
    var it := v.interfaces[i];
    && (forall x :: x in Participating(v.parts, ids, [it.a, it.b]) <==>
          Stand(v.parts, ids, it.a, x) || Stand(v.parts, ids, it.b, x))
    && (forall n :: n in Unknown(v.parts, [it.a, it.b]) <==>
          (n == it.a || n == it.b) && forall j :: 0 <= j < |v.parts| ==> v.parts[j].name != n)
  }
}
