/** The loops of `migrate_v1_to_v2` in build_brief.py. Each loop hands out the ids of one section and builds its
    records; the contracts tie what is built to the assembled brief of BriefMigration.dfy, whose properties are
    proved there. */
module BriefMigrator {
  import opened Wrappers
  import opened BriefText
  import opened BuildBrief
  import opened StableIds
  import opened BriefMigration
  import BriefValidator

  /** The ids given so far are those the first wishes get. */
  ghost predicate Given(v: BriefV1, ids: seq<string>, used: set<string>) {
    |ids| <= |Wishes(v)| && ids == MigratedIds(v)[..|ids|] && used == Elements(ids)
  }

  /** `names` maps the names of the first k parts to the id of the first part so named. */
  ghost predicate NamesMap(v: BriefV1, names: map<string, string>, ids: seq<string>, k: nat)
    requires k <= |ids|
  {
    && (forall n :: n in names <==> FirstNamed(v.parts, n) < k)
    && (forall n :: n in names ==> names[n] == ids[FirstNamed(v.parts, n)])
  }

  lemma NextId(v: BriefV1, ids: seq<string>, used: set<string>, id: string)
    requires Given(v, ids, used) && |ids| < |Wishes(v)|
    requires WishOk(Wishes(v)[|ids|])
    requires FirstFree(Base(Wishes(v)[|ids|].value, Wishes(v)[|ids|].fallback), used, id)
    ensures Given(v, ids + [id], used + {id})
  {
    var ws, k := Wishes(v), |ids|;
    AllWishesOk(v);
    IdsPrefix(ws, k);
    IdsPrefix(ws, k + 1);
    assert ws[..k + 1][..k] == ws[..k];
    var w := ws[k];
    FirstFreeUnique(Base(w.value, w.fallback), used, id, IdFor(w.value, used, w.fallback));
    assert Ids(ws[..k + 1]) == ids + [id];
    hide Ids, FirstFree, Wishes;
    GrownElements(ids, id);
  }

  lemma GrownElements(ids: seq<string>, id: string)
    ensures Elements(ids + [id]) == Elements(ids) + {id}
  {
    var more := ids + [id];
    assert forall i :: 0 <= i < |ids| ==> more[i] == ids[i];
    assert more[|ids|] == id;
  }

  lemma WishAt(v: BriefV1, k: nat)
    requires k < |Wishes(v)|
    ensures WishOk(Wishes(v)[k])
    ensures k < |v.parts| ==> Wishes(v)[k] == PartWish(v, k)
    ensures |v.parts| <= k < |v.parts| + |v.dims| ==> Wishes(v)[k] == DimensionWish(v, k - |v.parts|)
    ensures |v.parts| + |v.dims| <= k < |v.parts| + |v.dims| + |v.interfaces| ==> Wishes(v)[k] == InterfaceWish(k - |v.parts| - |v.dims|)
    ensures |v.parts| + |v.dims| + |v.interfaces| <= k ==> Wishes(v)[k] == MANUFACTURING_WISH && v.makeReal != "" && k == |Wishes(v)| - 1
  {
    AllWishesOk(v);
    hide WishOk, Numbered;
  }

  lemma WishCount(v: BriefV1)
    ensures |Wishes(v)| == |v.parts| + |v.dims| + |v.interfaces| + if v.makeReal != "" then 1 else 0
  {
  }

  method GiveId(v: BriefV1, w: Wish, used: set<string>, ghost ids: seq<string>) returns (id: string, taken: set<string>)
    requires Given(v, ids, used) && |ids| < |Wishes(v)| && WishOk(w) && Wishes(v)[|ids|] == w
    ensures taken == used + {id} && Given(v, ids + [id], taken)
    ensures |ids| < |MigratedIds(v)| && id == MigratedIds(v)[|ids|]
  {
    hide FirstFree, Base, Wishes, MigratedIds;
    id := StableId(w.value, used, w.fallback);
    NextId(v, ids, used, id);
    taken := used + {id};
    assert (ids + [id])[|ids|] == id;
  }

  lemma NamesGrow(v: BriefV1, names: map<string, string>, ids: seq<string>, k: nat, id: string)
    requires k == |ids| < |v.parts| && NamesMap(v, names, ids, k)
    ensures var n := v.parts[k].name;
            NamesMap(v, if n in names then names else names[n := id], ids + [id], k + 1)
  {
  }

  method MigrateParts(v: BriefV1) returns (parts: seq<Record>, names: map<string, string>, used: set<string>, ghost ids: seq<string>)
    ensures |ids| == |v.parts| && Given(v, ids, used) && NamesMap(v, names, ids, |ids|)
    ensures parts == PartRecords(v, MigratedIds(v))
  {
    WishCount(v);
    hide Given, Wishes, MigratedIds, NamesMap, WishOk, Elements, PartRecord;
    parts, names, used, ids := [], map[], {}, [];
    NothingGiven(v);
    for i := 0 to |v.parts|
      invariant |ids| == i && Given(v, ids, used) && NamesMap(v, names, ids, i)
      invariant |parts| == i && forall j :: 0 <= j < i ==> parts[j] == PartRecord(v.parts[j], MigratedIds(v)[j])
    {
      WishAt(v, i);
      var id: string;
      ghost var before := ids;
      id, used := GiveId(v, PartWish(v, i), used, ids);
      NamesGrow(v, names, ids, i, id);
      if v.parts[i].name !in names { names := names[v.parts[i].name := id]; }
      ids := ids + [id];
      parts := parts + [PartRecord(v.parts[i], id)];
    }
  }

  lemma NothingGiven(v: BriefV1)
    ensures Given(v, [], {}) && NamesMap(v, map[], [], 0)
  {
  }

  method MigrateDimensions(v: BriefV1, before: set<string>, ghost given: seq<string>)
    returns (dims: seq<Record>, used: set<string>, ghost ids: seq<string>)
    requires |given| == |v.parts| && Given(v, given, before)
    ensures |ids| == |v.parts| + |v.dims| && Given(v, ids, used)
    ensures dims == DimensionRecords(v, MigratedIds(v))
  {
    WishCount(v);
    hide Given, Wishes, MigratedIds, WishOk, Elements, DimensionRecord;
    dims, used, ids := [], before, given;
    for i := 0 to |v.dims|
      invariant |ids| == |v.parts| + i && Given(v, ids, used)
      invariant |dims| == i && forall j :: 0 <= j < i ==> dims[j] == DimensionRecord(v.dims[j], MigratedIds(v)[|v.parts| + j])
    {
      WishAt(v, |v.parts| + i);
      var id: string;
      id, used := GiveId(v, DimensionWish(v, i), used, ids);
      ids := ids + [id];
      dims := dims + [DimensionRecord(v.dims[i], id)];
    }
  }

  /** The two list comprehensions over the names an interface connects. */
  method SplitNames(v: BriefV1, names: map<string, string>, ghost ids: seq<string>, between: seq<string>)
    returns (participants: seq<string>, unknown: seq<string>)
    requires |ids| >= |v.parts| && NamesMap(v, names, ids, |v.parts|)
    ensures participants == Participating(v.parts, ids, between) && unknown == Unknown(v.parts, between)
  {
    hide FirstNamed;
    participants, unknown := [], [];
    for i := 0 to |between|
      invariant participants == Participating(v.parts, ids, between[..i]) && unknown == Unknown(v.parts, between[..i])
    {
      assert between[..i + 1][..i] == between[..i];
      var name := between[i];
      NotNamed(v.parts, name);
      if name in names { participants := participants + [names[name]]; } else { unknown := unknown + [name]; }
    }
    assert between[..|between|] == between;
  }

  lemma NotNamed(parts: seq<Part>, name: string)
    ensures FirstNamed(parts, name) <= |parts|
  {
  }

  lemma NamesFinal(v: BriefV1, names: map<string, string>, ids: seq<string>, used: set<string>)
    requires |ids| == |v.parts| && Given(v, ids, used) && NamesMap(v, names, ids, |ids|)
    ensures |MigratedIds(v)| >= |v.parts| && NamesMap(v, names, MigratedIds(v), |v.parts|)
  {
  }

  method BuildInterface(v: BriefV1, names: map<string, string>, it: Interface, id: string) returns (r: Record)
    requires |MigratedIds(v)| >= |v.parts| && NamesMap(v, names, MigratedIds(v), |v.parts|)
    ensures r == InterfaceRecord(v.parts, MigratedIds(v), it, id)
  {
    var participants, unknown := SplitNames(v, names, MigratedIds(v), [it.a, it.b]);
    hide Participating, Unknown, ListOf, MigratedIds, NamesMap;
    r := map[Id := Text(id), KindField := Text(it.kind), Participants := ListOf(participants), Clearance := it.clearance];
    if unknown != [] { r := r[Unresolved := ListOf(unknown)][Conformance := Text("unknown")]; }
  }

  method MigrateInterfaces(v: BriefV1, names: map<string, string>, before: set<string>, ghost given: seq<string>)
    returns (interfaces: seq<Record>, used: set<string>, ghost ids: seq<string>)
    requires |given| == |v.parts| + |v.dims| && Given(v, given, before)
    requires |MigratedIds(v)| >= |v.parts| && NamesMap(v, names, MigratedIds(v), |v.parts|)
    ensures |ids| == |v.parts| + |v.dims| + |v.interfaces| && Given(v, ids, used)
    ensures interfaces == InterfaceRecords(v, MigratedIds(v))
  {
    WishCount(v);
    hide Given, Wishes, MigratedIds, WishOk, Elements, InterfaceRecord, NamesMap;
    interfaces, used, ids := [], before, given;
    for i := 0 to |v.interfaces|
      invariant |ids| == |v.parts| + |v.dims| + i && Given(v, ids, used)
      invariant |interfaces| == i && forall j :: 0 <= j < i ==>
                  interfaces[j] == InterfaceRecord(v.parts, MigratedIds(v), v.interfaces[j], MigratedIds(v)[|v.parts| + |v.dims| + j])
    {
      WishAt(v, |v.parts| + |v.dims| + i);
      var id: string;
      id, used := GiveId(v, InterfaceWish(i), used, ids);
      ids := ids + [id];
      var r := BuildInterface(v, names, v.interfaces[i], id);
      interfaces := interfaces + [r];
    }
  }

  /** `migrate_v1_to_v2`. */
  method MigrateV1ToV2(raw: RawBrief, fits: Brief -> bool) returns (result: Result<Brief>)
    ensures result == if ValidateV1(raw).Ok? then Migrate(ValidateV1(raw).value, fits) else Rejected
  {
    var v1 := ValidateV1(raw);
    if v1.Rejected? { return Rejected; }
    var v := v1.value;
    var brief := BuildV2(v);
    hide *;
    result := BriefValidator.ValidateInPlace(brief, fits);
    MigrateIs(v, fits);
  }

  lemma MigrateIs(v: BriefV1, fits: Brief -> bool)
    ensures Migrate(v, fits) == Validate(Assemble(v, MigratedIds(v)), fits)
  {
  }

  method BuildV2(v: BriefV1) returns (b: Brief)
    ensures b == Assemble(v, MigratedIds(v))
  {
    hide Given, NamesMap, PartRecords, DimensionRecords, InterfaceRecords, MigratedIds, Wishes;
    WishCount(v);
    var parts, names, used, ids := MigrateParts(v);
    NamesFinal(v, names, ids, used);
    var dims: seq<Record>, interfaces: seq<Record>;
    dims, used, ids := MigrateDimensions(v, used, ids);
    interfaces, used, ids := MigrateInterfaces(v, names, used, ids);
    var manufacturing: seq<Record> := [];
    if v.makeReal != "" {
      WishAt(v, |ids|);
      var id: string;
      id, used := GiveId(v, MANUFACTURING_WISH, used, ids);
      manufacturing := [ManufacturingRecord(v.makeReal, id)];
    }
    b := Brief(2, 0, v.tier, Text(v.summary), [parts, [], [], dims, interfaces, [], [], manufacturing, []]);
  }
}
