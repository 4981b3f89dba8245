/** What an update stores, record by record, and which calls are accepted. */
module BriefUpdates {
  import opened Wrappers
  import opened BriefText
  import opened BuildBrief
  import opened BriefMigration
  import opened BriefStore
  import Assumptions

  // `update_build_brief` and `write_build_brief` of build_brief.py.

  // ---------------------------------------------------------------- entries

  /** Every entry stands under its own id. */
  predicate ByOwnId(entries: Entries) { forall e :: e in entries ==> HasId(e.1) && e.0 == IdOf(e.1) }

  function KeysOf(entries: Entries): seq<string> { seq(|entries|, i requires 0 <= i < |entries| => entries[i].0) }

  /** The ids that are not removed, in their order. */
  function Staying(ids: seq<string>, removeIds: seq<string>): seq<string> {
    if ids == [] then []
    else
      var before, last := Staying(ids[..|ids| - 1], removeIds), ids[|ids| - 1];
      if last in removeIds then before else before + [last]
  }

  lemma KeyedStart(records: seq<Record>)
    requires AllHaveIds(records)
    ensures ByOwnId(Keyed(records))
  {
  }

  lemma {:induction false} PatchKeyed(entries: Entries, upserts: seq<Record>, removeIds: seq<string>)
    requires ByOwnId(entries) && AllHaveIds(upserts)
    ensures ByOwnId(PutAll(PopAll(entries, removeIds), upserts))
    decreases |upserts|
  {
    hide HasId, IdOf;
    PopAllEntries(entries, removeIds);
    if upserts != [] {
      var last := upserts[|upserts| - 1];
      PatchKeyed(entries, upserts[..|upserts| - 1], removeIds);
      PutEntries(PutAll(PopAll(entries, removeIds), upserts[..|upserts| - 1]), IdOf(last), last);
      hide Put, PopAll;
    }
  }

  // ---------------------------------------------------------------- the order of a patch

  lemma {:induction false} PopKeys(entries: Entries, id: string)
    ensures KeysOf(Pop(entries, id)) == Staying(KeysOf(entries), [id])
  {
    if entries == [] {
      assert KeysOf(entries) == [];
    } else {
      var before, last := entries[..|entries| - 1], entries[|entries| - 1];
      PopKeys(before, id);
      assert KeysOf(entries) == KeysOf(before) + [last.0];
      StayingSnoc(KeysOf(before), last.0, [id]);
      KeysSnoc(Pop(before, id), last);
    }
  }

  lemma KeysSnoc(entries: Entries, last: (string, Record))
    ensures KeysOf(entries + [last]) == KeysOf(entries) + [last.0]
  {
  }

  lemma StayingSnoc(ids: seq<string>, last: string, removeIds: seq<string>)
    ensures Staying(ids + [last], removeIds) == Staying(ids, removeIds) + if last in removeIds then [] else [last]
  {
    assert (ids + [last])[..|ids|] == ids;
    assert Staying(ids, removeIds) + [] == Staying(ids, removeIds);
  }

  lemma {:induction false} StayingTwice(ids: seq<string>, a: seq<string>, id: string)
    ensures Staying(Staying(ids, a), [id]) == Staying(ids, a + [id])
  {
    if ids != [] {
      var init, last := ids[..|ids| - 1], ids[|ids| - 1];
      StayingTwice(init, a, id);
      assert ids == init + [last];
      StayingSnoc(init, last, a);
      StayingSnoc(init, last, a + [id]);
      StayingSnoc(Staying(init, a), last, [id]);
      assert Staying(init, a) + [] == Staying(init, a);
      hide Staying;
    }
  }

  lemma {:induction false} PopAllKeys(entries: Entries, ids: seq<string>)
    ensures KeysOf(PopAll(entries, ids)) == Staying(KeysOf(entries), ids)
  {
    if ids == [] {
      StayingAll(KeysOf(entries));
    } else {
      var init, last := ids[..|ids| - 1], ids[|ids| - 1];
      PopAllKeys(entries, init);
      PopKeys(PopAll(entries, init), last);
      StayingTwice(KeysOf(entries), init, last);
      assert init + [last] == ids;
      hide Pop, Staying, KeysOf;
    }
  }

  lemma {:induction false} StayingAll(ids: seq<string>)
    ensures Staying(ids, []) == ids
  {
    if ids != [] { StayingAll(ids[..|ids| - 1]); }
  }

  lemma {:induction false} PutAllKeys(entries: Entries, upserts: seq<Record>)
    requires AllHaveIds(upserts)
    ensures KeysOf(entries) <= KeysOf(PutAll(entries, upserts))
    decreases |upserts|
  {
    hide HasId, IdOf;
    if upserts != [] {
      var init, last := upserts[..|upserts| - 1], upserts[|upserts| - 1];
      PutAllKeys(entries, init);
      PutKeys(PutAll(entries, init), IdOf(last), last);
      hide Put, KeysOf;
    }
  }

  lemma PutKeys(entries: Entries, id: string, r: Record)
    ensures KeysOf(entries) <= KeysOf(Put(entries, id, r))
  {
    var after := Put(entries, id, r);
    forall i | 0 <= i < |entries|
      ensures after[i].0 == entries[i].0
    {
    }
  }

  // ---------------------------------------------------------------- single records

  /** A record as it is stored in section s: its id trimmed, an empty list of children for a part without one, an assumption
      normalized. */
  function RecordForm(r: Record, s: nat): Record
    requires HasId(r)
  {
    var named := r[Id := Text(Strip(r[Id].text))];
    if s == PARTS && Children !in r then named[Children := Items([], "[]")]
    else if s == ASSUMPTIONS && Assumptions.Normalize(named).Ok? then Assumptions.Normalize(named).value
    else named
  }

  lemma SectionAt(b: Brief, s: nat, i: nat)
    requires Identified(b.sections) && s < SECTIONS && NormalizeAll(WithIds(b.sections[ASSUMPTIONS])).Ok? && i < |b.sections[s]|
    ensures |Section(b, s)| == |b.sections[s]| && HasId(b.sections[s][i]) && Section(b, s)[i] == RecordForm(b.sections[s][i], s)
    ensures HasId(Section(b, s)[i]) && IdOf(Section(b, s)[i]) == IdOf(b.sections[s][i])
  {
    SectionTidy(b, s);
    assert AllHaveIds(b.sections[s]);
    var r := b.sections[s][i];
    assert HasId(r);
    if s == ASSUMPTIONS { NormalizeAllSpec(WithIds(b.sections[s])); }
    hide Identified, NormalizeAll, Assumptions.Normalize, HasId, AllTidy;
    FormIs(r, s);
  }

  lemma FormIs(r: Record, s: nat)
    requires HasId(r)
    ensures s != ASSUMPTIONS ==> RecordForm(r, s) == if s == PARTS then WithChildren(WithId(r)) else WithId(r)
    ensures s == ASSUMPTIONS && Assumptions.Normalize(WithId(r)).Ok? ==> RecordForm(r, s) == Assumptions.Normalize(WithId(r)).value
  {
    hide Strip, Assumptions.Normalize;
  }

  /** What was stored before is stored again as it is. */
  lemma FormStays(r: Record, s: nat)
    requires RecordNormal(r, s)
    ensures HasId(r) && RecordForm(r, s) == r
  {
    TidyStays(r);
    if s == ASSUMPTIONS { Assumptions.NormalStays(r); }
    hide Strip, Assumptions.Normalize, Assumptions.Normal;
  }

  // ---------------------------------------------------------------- what an update stores

  function IdsOf(records: seq<Record>): seq<string>
    requires AllHaveIds(records)
  {
    seq(|records|, i requires 0 <= i < |records| => IdOf(records[i]))
  }

  /** Upsert j is the last one with the id x. */
  predicate LastWith(upserts: seq<Record>, j: int, x: string)
    requires AllHaveIds(upserts)
  {
    0 <= j < |upserts| && IdOf(upserts[j]) == x && forall k :: j < k < |upserts| ==> IdOf(upserts[k]) != x
  }

  /** `r` is the stored form of the last upsert with its id; without one it is the record that stood there, not removed. */
  ghost predicate Settles(before: seq<Record>, upserts: seq<Record>, removeIds: seq<string>, section: nat, r: Record)
    requires AllHaveIds(upserts)
  {
    && HasId(r)
    && (forall j :: LastWith(upserts, j, IdOf(r)) ==> r == RecordForm(upserts[j], section))
    && ((forall j :: 0 <= j < |upserts| ==> IdOf(upserts[j]) != IdOf(r)) ==> r in before && IdOf(r) !in removeIds)
  }

  /** An accepted update stores in its section, each under its own id: the records that were there, but for the removed ones, in
      their order, and then those of the upserts that are new; an upsert replaces what has its id, and the last one wins. */
  lemma UpdateMeaning(file: Stored, section: nat, upserts: seq<Record>, removeIds: seq<string>, expected: Option<int>,
                      fits: Brief -> bool)
    requires Answer(file, Update(section, upserts, removeIds, expected), fits).Ok?
    ensures Load(file, fits).Some? && section < SECTIONS && AllHaveIds(upserts)
    ensures var before := Load(file, fits).value.sections[section];
            var after := Answer(file, Update(section, upserts, removeIds, expected), fits).value.sections[section];
            && AllHaveIds(before) && AllHaveIds(after) && DistinctIds(after)
            && (forall i :: 0 <= i < |after| ==> Settles(before, upserts, removeIds, section, after[i]))
            && (forall x :: x in IdsOf(after) <==> (x in IdsOf(before) && x !in removeIds) || x in IdsOf(upserts))
            && Staying(IdsOf(before), removeIds) <= IdsOf(after)
  {
    var call := Update(section, upserts, removeIds, expected);
    var current := Load(file, fits).value;
    LoadedIsSettled(file, fits);
    var before := current.sections[section];
    var asked := Asked(file, call, fits).value;
    var entries := PutAll(PopAll(Keyed(before), removeIds), upserts);
    assert asked.sections[section] == Values(entries);
    assert SectionNormal(before, section);
    ValidateSpec(asked, fits);
    var after := Answer(file, call, fits).value.sections[section];
    assert after == Section(asked, section);
    KeyedStart(before);
    PatchKeyed(Keyed(before), upserts, removeIds);
    NormalRecords(before, section);
    assert Identified(asked.sections) && DistinctIds(asked.sections[section]);
    hide *;
    StoredSection(asked, section, before, upserts, removeIds, entries, after);
  }

  lemma StoredSection(asked: Brief, section: nat, before: seq<Record>, upserts: seq<Record>, removeIds: seq<string>,
                      entries: Entries, after: seq<Record>)
    requires section < SECTIONS && Identified(asked.sections) && NormalizeAll(WithIds(asked.sections[ASSUMPTIONS])).Ok?
    requires AllHaveIds(before) && AllHaveIds(upserts) && AllNormal(before, section)
    requires entries == PutAll(PopAll(Keyed(before), removeIds), upserts) && ByOwnId(entries)
    requires asked.sections[section] == Values(entries) && after == Section(asked, section)
    ensures AllHaveIds(after) && DistinctIds(after)
    ensures forall i :: 0 <= i < |after| ==> Settles(before, upserts, removeIds, section, after[i])
    ensures forall x :: x in IdsOf(after) <==> (x in IdsOf(before) && x !in removeIds) || x in IdsOf(upserts)
    ensures Staying(IdsOf(before), removeIds) <= IdsOf(after)
  {
    SectionTidy(asked, section);
    assert AllHaveIds(asked.sections[section]) && DistinctIds(asked.sections[section]);
    SameIdsSpec(after, asked.sections[section]);
    EntriesOf(asked, section, entries, after);
    hide *;
    forall i: nat | i < |after|
      ensures Settles(before, upserts, removeIds, section, after[i])
    {
      SettlesAt(before, upserts, removeIds, section, entries, after, i);
    }
    forall x
      ensures x in IdsOf(after) <==> (x in IdsOf(before) && x !in removeIds) || x in IdsOf(upserts)
    {
      IdStays(before, upserts, removeIds, entries, x);
    }
    KeyedIds(before);
    PopAllKeys(Keyed(before), removeIds);
    PutAllKeys(PopAll(Keyed(before), removeIds), upserts);
  }

  /** The stored records are the forms of the entries, under their ids. */
  lemma EntriesOf(asked: Brief, section: nat, entries: Entries, after: seq<Record>)
    requires section < SECTIONS && Identified(asked.sections) && NormalizeAll(WithIds(asked.sections[ASSUMPTIONS])).Ok?
    requires ByOwnId(entries) && asked.sections[section] == Values(entries) && after == Section(asked, section)
    ensures AllHaveIds(after) && |after| == |entries| && IdsOf(after) == KeysOf(entries) && DistinctKeys(entries)
    ensures forall i :: 0 <= i < |after| ==> HasId(entries[i].1) && after[i] == RecordForm(entries[i].1, section)
  {
    SectionLength(asked, section);
    var records := asked.sections[section];
    assert DistinctIds(records);
    forall i: nat | i < |after|
      ensures records[i] == entries[i].1 && HasId(records[i]) && after[i] == RecordForm(records[i], section)
      ensures HasId(after[i]) && IdOf(after[i]) == IdOf(records[i]) && IdOf(records[i]) == entries[i].0
    {
      assert entries[i] in entries;
      SectionAt(asked, section, i);
    }
    hide HasId, IdOf, Identified, Section, RecordForm, ByOwnId, NormalizeAll, WithIds;
  }

  lemma SettlesAt(before: seq<Record>, upserts: seq<Record>, removeIds: seq<string>, section: nat, entries: Entries,
                  after: seq<Record>, i: nat)
    requires AllHaveIds(before) && AllHaveIds(upserts) && AllNormal(before, section)
    requires entries == PutAll(PopAll(Keyed(before), removeIds), upserts) && DistinctKeys(entries)
    requires AllHaveIds(after) && |after| == |entries| && IdsOf(after) == KeysOf(entries) && i < |after|
    requires HasId(entries[i].1) && after[i] == RecordForm(entries[i].1, section)
    ensures Settles(before, upserts, removeIds, section, after[i])
  {
    var x, r := entries[i].0, entries[i].1;
    assert IdsOf(after)[i] == KeysOf(entries)[i];
    assert HasId(after[i]) && IdOf(after[i]) == x;
    hide HasId, IdOf, RecordForm, PutAll, PopAll;
    PositionIs(entries, x, i);
    assert Lookup(entries, x) == Some(r);
    PatchMeaning(Keyed(before), upserts, removeIds, x);
    LastUpsertMeaning(upserts, x);
    if LastUpsert(upserts, x).None? {
      LookupKeyed(before, x);
      assert r in before && RecordNormal(r, section);
      FormStays(r, section);
    }
  }

  lemma {:induction false} LastUpsertMeaning(upserts: seq<Record>, x: string)
    requires AllHaveIds(upserts)
    ensures LastUpsert(upserts, x).None? <==> forall j :: 0 <= j < |upserts| ==> IdOf(upserts[j]) != x
    ensures forall j :: LastWith(upserts, j, x) ==> LastUpsert(upserts, x) == Some(upserts[j])
  {
    hide HasId, IdOf;
    if upserts != [] {
      var init, last := upserts[..|upserts| - 1], upserts[|upserts| - 1];
      LastUpsertMeaning(init, x);
      forall j | LastWith(upserts, j, x)
        ensures LastUpsert(upserts, x) == Some(upserts[j])
      {
        if j < |init| {
          assert IdOf(upserts[|init|]) != x;
          assert LastWith(init, j, x);
        }
      }
    }
  }

  lemma LookupKeyed(records: seq<Record>, x: string)
    requires AllHaveIds(records)
    ensures Lookup(Keyed(records), x).Some? <==> x in IdsOf(records)
    ensures Lookup(Keyed(records), x).Some? ==> Lookup(Keyed(records), x).value in records
  {
    hide HasId, IdOf;
    var entries := Keyed(records);
    var p := Position(entries, x);
    if x in IdsOf(records) {
      var i :| 0 <= i < |records| && IdOf(records[i]) == x;
      assert entries[i].0 == x;
    }
    if p < |entries| { assert IdsOf(records)[p] == x; }
  }

  lemma IdStays(before: seq<Record>, upserts: seq<Record>, removeIds: seq<string>, entries: Entries, x: string)
    requires AllHaveIds(before) && AllHaveIds(upserts)
    requires entries == PutAll(PopAll(Keyed(before), removeIds), upserts)
    ensures x in KeysOf(entries) <==> (x in IdsOf(before) && x !in removeIds) || x in IdsOf(upserts)
  {
    PatchMeaning(Keyed(before), upserts, removeIds, x);
    LookupKeyed(before, x);
    LastUpsertMeaning(upserts, x);
    hide PutAll, PopAll, HasId, IdOf, Keyed, LastUpsert, Lookup, LastWith;
    LookupKeys(entries, x);
    InIds(upserts, x);
    hide *;
  }

  lemma InIds(records: seq<Record>, x: string)
    requires AllHaveIds(records)
    ensures x in IdsOf(records) <==> exists j :: 0 <= j < |records| && IdOf(records[j]) == x
  {
    hide HasId, IdOf;
    forall j | 0 <= j < |records|
      ensures IdOf(records[j]) in IdsOf(records)
    {
      assert IdsOf(records)[j] == IdOf(records[j]);
    }
    if x in IdsOf(records) { var j :| 0 <= j < |records| && IdsOf(records)[j] == x; }
  }

  lemma LookupKeys(entries: Entries, x: string)
    ensures Lookup(entries, x).Some? <==> x in KeysOf(entries)
  {
    var p := Position(entries, x);
    if p < |entries| { assert KeysOf(entries)[p] == x; }
  }

  lemma KeyedIds(records: seq<Record>)
    requires AllHaveIds(records)
    ensures KeysOf(Keyed(records)) == IdsOf(records)
  {
  }

  // ---------------------------------------------------------------- acceptance

  /** A write is accepted exactly when it states the current revision and asks for a brief that is valid under the next one. */
  lemma WriteAccepted(file: Stored, b: Brief, expected: Option<int>, fits: Brief -> bool)
    ensures Answer(file, Write(b, expected), fits).Ok? <==>
              && b.schema == 2 && expected == Some(Revision(file, fits))
              && Validate(b.(revision := Revision(file, fits) + 1), fits).Ok?
  {
    NonNegative(file, fits);
    hide Validate, Load;
  }

  /** An update is accepted exactly when there is a brief, the update states its revision, names a section, is of moderate size
      and gives every upsert an id, and the brief is valid once its section is patched. */
  lemma UpdateAccepted(file: Stored, section: nat, upserts: seq<Record>, removeIds: seq<string>, expected: Option<int>,
                       fits: Brief -> bool)
    ensures Answer(file, Update(section, upserts, removeIds, expected), fits).Ok? <==>
              && Load(file, fits).Some? && expected == Some(Load(file, fits).value.revision)
              && section < 9 && |upserts| + |removeIds| <= 512 && "" !in removeIds && AllHaveIds(upserts)
              && AllHaveIds(Load(file, fits).value.sections[section])
              && Validate(Proposed(Load(file, fits).value, section, upserts, removeIds), fits).Ok?
  {
    assert "" !in removeIds <==> forall i :: 0 <= i < |removeIds| ==> removeIds[i] != "";
    LoadedRevision(file, fits);
    hide Validate, Load, Proposed, AllHaveIds, Asked;
    AskedUpdate(file, section, upserts, removeIds, expected, fits);
  }

  lemma LoadedRevision(file: Stored, fits: Brief -> bool)
    ensures Load(file, fits).Some? ==> Load(file, fits).value.revision >= 0
  {
    if Load(file, fits).Some? { LoadedIsSettled(file, fits); }
    hide Load;
  }

  lemma AskedUpdate(file: Stored, section: nat, upserts: seq<Record>, removeIds: seq<string>, expected: Option<int>,
                    fits: Brief -> bool)
    requires Load(file, fits).Some? ==> Load(file, fits).value.revision >= 0
    ensures var asked := Asked(file, Update(section, upserts, removeIds, expected), fits);
            && (asked.Some? <==>
                  && Load(file, fits).Some? && expected == Some(Load(file, fits).value.revision)
                  && UpdateGood(section, upserts, removeIds) && AllHaveIds(upserts)
                  && AllHaveIds(Load(file, fits).value.sections[section]))
            && (asked.Some? ==> asked.value == Proposed(Load(file, fits).value, section, upserts, removeIds))
  {
    hide Load, Proposed, AllHaveIds;
  }

  /** A valid v1 file within the limits reads as a brief of revision 0 exactly when every part name counts as true, and the file
      stays as it is until a call is accepted. */
  lemma LegacyLoads(raw: RawBrief, fits: Brief -> bool)
    requires ValidateV1(raw).Ok? && fits(Assemble(ValidateV1(raw).value, MigratedIds(ValidateV1(raw).value)))
    ensures Load(Legacy(raw), fits).Some? <==> forall i :: 0 <= i < |raw.parts| ==> Name in raw.parts[i] && Truthy(raw.parts[i][Name])
    ensures Load(Legacy(raw), fits).Some? ==> Load(Legacy(raw), fits).value.revision == 0
    ensures forall call :: Answer(Legacy(raw), call, fits).Rejected? ==> After(Legacy(raw), call, fits) == Legacy(raw)
  {
    var v := ValidateV1(raw).value;
    MigrationExact(raw, fits);
    assert Assemble(v, MigratedIds(v)).revision == 0;
    hide Migrate, ValidateV1, Assemble, MigratedIds, Truthy, Asked, Validate;
    assert Load(Legacy(raw), fits) == AsOption(Migrate(v, fits));
    hide Load;
    forall call | Answer(Legacy(raw), call, fits).Rejected?
      ensures After(Legacy(raw), call, fits) == Legacy(raw)
    {
    }
  }
}
