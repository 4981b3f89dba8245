/** The stored brief and its revision control. */
module BriefStore {
  import opened Wrappers
  import opened BriefText
  import opened BuildBrief
  import opened BriefMigration
  import BriefMigrator
  import BriefValidator
  import Assumptions

  // `load_build_brief`, `write_build_brief` and `update_build_brief` of build_brief.py, for schema 2.

  const MAX_UPDATE_ITEMS := 512

  /** What is on disk. */
  datatype Stored = Absent | Unreadable | Legacy(raw: RawBrief) | Current(brief: Brief)

  function AsOption(r: Result<Brief>): Option<Brief> { if r.Ok? then Some(r.value) else None }

  /** `load_build_brief` with target schema 2. */
  ghost function Load(file: Stored, fits: Brief -> bool): Option<Brief> {
    match file
    case Absent => None
    case Unreadable => None
    case Legacy(raw) => if ValidateV1(raw).Ok? then AsOption(Migrate(ValidateV1(raw).value, fits)) else None
    case Current(b) => AsOption(Validate(b, fits))
  }

  ghost function Revision(file: Stored, fits: Brief -> bool): int {
    var current := Load(file, fits);
    if current.Some? then current.value.revision else 0
  }

  // ---------------------------------------------------------------- section patches

  /** The ordered dictionary of records by id. */
  type Entries = seq<(string, Record)>

  function Keyed(records: seq<Record>): Entries
    requires AllHaveIds(records)
  {
    seq(|records|, i requires 0 <= i < |records| => (IdOf(records[i]), records[i]))
  }

  function Values(entries: Entries): seq<Record> {
    seq(|entries|, i requires 0 <= i < |entries| => entries[i].1)
  }

  function Pop(entries: Entries, id: string): Entries {
    if entries == [] then []
    else
      var before, last := Pop(entries[..|entries| - 1], id), entries[|entries| - 1];
      if last.0 == id then before else before + [last]
  }

  function Position(entries: Entries, id: string): (i: nat)
    ensures i <= |entries| && (i < |entries| ==> entries[i].0 == id)
    ensures forall j :: 0 <= j < i ==> entries[j].0 != id
  {
    if entries == [] || entries[0].0 == id then 0 else 1 + Position(entries[1..], id)
  }

  function Put(entries: Entries, id: string, r: Record): Entries {
    var i := Position(entries, id);
    if i < |entries| then entries[i := (id, r)] else entries + [(id, r)]
  }

  function PopAll(entries: Entries, ids: seq<string>): Entries {
    if ids == [] then entries else Pop(PopAll(entries, ids[..|ids| - 1]), ids[|ids| - 1])
  }

  function PutAll(entries: Entries, upserts: seq<Record>): Entries
    requires AllHaveIds(upserts)
  {
    if upserts == [] then entries
    else
      var last := upserts[|upserts| - 1];
      Put(PutAll(entries, upserts[..|upserts| - 1]), IdOf(last), last)
  }

  function Patched(records: seq<Record>, upserts: seq<Record>, removeIds: seq<string>): seq<Record>
    requires AllHaveIds(records) && AllHaveIds(upserts)
  {
    Values(PutAll(PopAll(Keyed(records), removeIds), upserts))
  }

  // ---------------------------------------------------------------- the calls

  datatype Call =
    | Write(brief: Brief, expected: Option<int>)
    | Update(section: nat, upserts: seq<Record>, removeIds: seq<string>, expected: Option<int>)

  /** `_required_expected_revision`. */
  predicate Stated(expected: Option<int>) { expected.Some? && expected.value >= 0 }

  /** `validate_update`. */
  predicate UpdateGood(section: nat, upserts: seq<Record>, removeIds: seq<string>) {
    section < SECTIONS && (forall i :: 0 <= i < |removeIds| ==> removeIds[i] != "") && |upserts| + |removeIds| <= MAX_UPDATE_ITEMS
  }

  /** The brief an update asks to store. */
  ghost function Proposed(current: Brief, section: nat, upserts: seq<Record>, removeIds: seq<string>): Brief
    requires section < SECTIONS && AllHaveIds(current.sections[section]) && AllHaveIds(upserts)
  {
    current.(revision := current.revision + 1,
             sections := current.sections[section := Patched(current.sections[section], upserts, removeIds)])
  }

  /** The brief a call asks to store, if it gets as far as validating one. */
  ghost function Asked(file: Stored, call: Call, fits: Brief -> bool): Option<Brief> {
    if !Stated(call.expected) then None
    else
      match call
      case Write(b, expected) =>
        if b.schema != 2 || expected.value != Revision(file, fits) then None
        else Some(b.(revision := expected.value + 1))
      case Update(section, upserts, removeIds, expected) =>
        var current := Load(file, fits);
        if !UpdateGood(section, upserts, removeIds) || current.None? || expected.value != current.value.revision then None
        else if !AllHaveIds(current.value.sections[section]) || !AllHaveIds(upserts) then None
        else Some(Proposed(current.value, section, upserts, removeIds))
  }

  /** The answer to a call. */
  ghost function Answer(file: Stored, call: Call, fits: Brief -> bool): Result<Brief> {
    var asked := Asked(file, call, fits);
    if asked.None? then Rejected else Validate(asked.value, fits)
  }

  /** The file after a call: only an accepted call changes it. */
  ghost function After(file: Stored, call: Call, fits: Brief -> bool): Stored {
    var answer := Answer(file, call, fits);
    if answer.Ok? then Current(answer.value) else file
  }

  // ---------------------------------------------------------------- what is loaded is normal

  /** A brief as validation leaves it. */
  ghost predicate Settled(b: Brief) {
    && Identified(b.sections) && b.schema == 2 && b.revision >= 0
    && forall s: nat :: s < SECTIONS ==> SectionNormal(b.sections[s], s)
  }

  lemma ValidatedIsSettled(b: Brief, fits: Brief -> bool)
    requires Validate(b, fits).Ok?
    ensures Settled(Validate(b, fits).value) && Validate(b, fits).value.revision == b.revision
  {
    ValidateSpec(b, fits);
    NormalizedIdentified(b);
    hide Section, NormalizeAll, WithIds, Identified, PartsAccepted, InterfacesGood, SectionNormal, Validate;
    var n := Normalized(b);
    forall s: nat | s < SECTIONS
      ensures SectionNormal(n.sections[s], s)
    {
      SectionIsNormal(b, s);
      assert n.sections[s] == Section(b, s);
    }
  }

  lemma LoadedIsSettled(file: Stored, fits: Brief -> bool)
    requires Load(file, fits).Some?
    ensures Settled(Load(file, fits).value)
    ensures forall s: nat :: s < SECTIONS ==> AllHaveIds(Load(file, fits).value.sections[s])
  {
    hide Validate, Settled, SectionNormal, Assemble, MigratedIds, ValidateV1;
    match file {
      case Legacy(raw) => ValidatedIsSettled(Assemble(ValidateV1(raw).value, MigratedIds(ValidateV1(raw).value)), fits);
      case Current(b) => ValidatedIsSettled(b, fits);
    }
    SettledHasIds(Load(file, fits).value);
  }

  lemma SettledHasIds(b: Brief)
    requires Settled(b)
    ensures forall s: nat :: s < SECTIONS ==> AllHaveIds(b.sections[s])
  {
  }

  // ---------------------------------------------------------------- no lost updates

  /** What validation makes of a brief it accepts. */
  ghost function NormalForm(b: Brief): Brief {
    if Identified(b.sections) && NormalizeAll(WithIds(b.sections[ASSUMPTIONS])).Ok? then Normalized(b) else b
  }

  lemma AcceptedForm(b: Brief, fits: Brief -> bool)
    requires Validate(b, fits).Ok?
    ensures fits(b) && Validate(b, fits).value == NormalForm(b)
  {
    ValidateSpec(b, fits);
    hide Validate, Normalized, NormalizeAll, Identified;
  }

  /** An accepted call carries the current revision and stores the normal form of what it asks for, under the next
      revision; a rejected call changes nothing. What is stored is read back as long as it fits the limits; if only the
      brief as asked fits them, the count starts over. */
  lemma StepRevision(file: Stored, call: Call, fits: Brief -> bool)
    ensures var answer, asked := Answer(file, call, fits), Asked(file, call, fits);
            if answer.Ok? then
              && call.expected == Some(Revision(file, fits))
              && asked.Some? && fits(asked.value) && asked.value.revision == Revision(file, fits) + 1
              && answer.value == NormalForm(asked.value) && answer.value.revision == Revision(file, fits) + 1
              && After(file, call, fits) == Current(answer.value)
              && Load(Current(answer.value), fits) == (if fits(NormalForm(asked.value)) then Some(answer.value) else None)
              && Revision(After(file, call, fits), fits) == if fits(NormalForm(asked.value)) then Revision(file, fits) + 1 else 0
            else After(file, call, fits) == file
  {
    if Answer(file, call, fits).Ok? {
      AskedRevision(file, call, fits);
      var asked := Asked(file, call, fits).value;
      hide Asked, Validate, NormalForm, Load;
      AcceptedForm(asked, fits);
      ValidatedIsSettled(asked, fits);
      ReadBack(asked, fits);
    }
  }

  lemma AskedRevision(file: Stored, call: Call, fits: Brief -> bool)
    requires Asked(file, call, fits).Some?
    ensures call.expected == Some(Revision(file, fits)) && Asked(file, call, fits).value.revision == Revision(file, fits) + 1
  {
    hide Load, Patched, AllHaveIds;
  }

  lemma ReadBack(asked: Brief, fits: Brief -> bool)
    requires Validate(asked, fits).Ok?
    ensures Load(Current(Validate(asked, fits).value), fits) ==
            if fits(Validate(asked, fits).value) then Some(Validate(asked, fits).value) else None
  {
    var n := Validate(asked, fits).value;
    LoadCurrent(n, fits);
    ValidateSpec(n, fits);
    hide *;
    if fits(n) { ValidateFixedPoint(asked, fits); }
  }

  lemma LoadCurrent(b: Brief, fits: Brief -> bool)
    ensures Load(Current(b), fits) == if Validate(b, fits).Ok? then Some(Validate(b, fits).value) else None
  {
    hide Validate, Migrate, ValidateV1;
  }

  /** The file after a run of calls. */
  ghost function FileAfter(file: Stored, calls: seq<Call>, fits: Brief -> bool): Stored {
    if calls == [] then file
    else After(FileAfter(file, calls[..|calls| - 1], fits), calls[|calls| - 1], fits)
  }

  /** Which calls of the run are accepted. */
  ghost function Accepted(file: Stored, calls: seq<Call>, fits: Brief -> bool): (log: seq<bool>)
    ensures |log| == |calls|
  {
    if calls == [] then []
    else
      var before, last := calls[..|calls| - 1], calls[|calls| - 1];
      Accepted(file, before, fits) + [Answer(FileAfter(file, before, fits), last, fits).Ok?]
  }

  /** Whatever is accepted along the run still fits the limits in its normal form. */
  ghost predicate StoredFits(file: Stored, calls: seq<Call>, fits: Brief -> bool) {
    calls == [] ||
    var before, last := calls[..|calls| - 1], calls[|calls| - 1];
    StoredFits(file, before, fits) && StepFits(FileAfter(file, before, fits), last, fits)
  }

  ghost predicate StepFits(file: Stored, call: Call, fits: Brief -> bool) {
    var asked := Asked(file, call, fits);
    asked.Some? && Validate(asked.value, fits).Ok? ==> fits(NormalForm(asked.value))
  }

  function Count(log: seq<bool>): nat {
    if log == [] then 0 else Count(log[..|log| - 1]) + if log[|log| - 1] then 1 else 0
  }

  function Expectations(calls: seq<Call>): (expected: seq<Option<int>>)
    ensures |expected| == |calls|
  {
    seq(|calls|, i requires 0 <= i < |calls| => calls[i].expected)
  }

  /** The accepted calls expected ever larger revisions, all below `revision`. */
  predicate InOrder(log: seq<bool>, expected: seq<Option<int>>, revision: int)
    requires |log| == |expected|
  {
    && (forall i :: 0 <= i < |log| && log[i] ==> expected[i].Some? && expected[i].value < revision)
    && (forall i, j :: 0 <= i < j < |log| && log[i] && log[j] ==>
          expected[i].Some? && expected[j].Some? && expected[i].value < expected[j].value)
  }

  lemma OneMore(log: seq<bool>, expected: seq<Option<int>>, revision: int, ok: bool, next: Option<int>)
    requires |log| == |expected| && InOrder(log, expected, revision) && (ok ==> next == Some(revision))
    ensures InOrder(log + [ok], expected + [next], revision + if ok then 1 else 0)
  {
  }

  /** After any run the revision has grown by the number of accepted calls exactly when everything accepted still fitted
      in its normal form; otherwise by less. When it has, accepted calls carry strictly increasing expected revisions: of
      the calls that expect the same one, at most one is accepted. */
  lemma {:induction false} NoLostUpdates(file: Stored, calls: seq<Call>, fits: Brief -> bool)
    ensures Revision(FileAfter(file, calls, fits), fits) <= Revision(file, fits) + Count(Accepted(file, calls, fits))
    ensures Revision(FileAfter(file, calls, fits), fits) == Revision(file, fits) + Count(Accepted(file, calls, fits))
       <==> StoredFits(file, calls, fits)
    ensures StoredFits(file, calls, fits) ==>
              InOrder(Accepted(file, calls, fits), Expectations(calls), Revision(FileAfter(file, calls, fits), fits))
  {
    hide *;
    if calls == [] {
      NoCalls(file, fits, Revision(file, fits));
    } else {
      var before, last := calls[..|calls| - 1], calls[|calls| - 1];
      var was := FileAfter(file, before, fits);
      LastCall(file, calls, fits);
      NoLostUpdates(file, before, fits);
      StepGrows(was, last, fits);
      NonNegative(file, fits);
      CountMore(Accepted(file, before, fits), Answer(was, last, fits).Ok?);
      if StoredFits(file, calls, fits) {
        OneMore(Accepted(file, before, fits), Expectations(before), Revision(was, fits), Answer(was, last, fits).Ok?, last.expected);
      }
    }
  }

  lemma NonNegative(file: Stored, fits: Brief -> bool)
    ensures Revision(file, fits) >= 0
  {
    if Load(file, fits).Some? { LoadedIsSettled(file, fits); }
    hide Load;
  }

  lemma CountMore(log: seq<bool>, ok: bool)
    ensures Count(log + [ok]) == Count(log) + if ok then 1 else 0
  {
  }

  lemma NoCalls(file: Stored, fits: Brief -> bool, revision: int)
    ensures FileAfter(file, [], fits) == file && Accepted(file, [], fits) == [] && Expectations([]) == []
    ensures Count([]) == 0 && InOrder([], [], revision) && StoredFits(file, [], fits)
  {
    hide Answer, After;
  }

  lemma LastCall(file: Stored, calls: seq<Call>, fits: Brief -> bool)
    requires calls != []
    ensures var before, last := calls[..|calls| - 1], calls[|calls| - 1];
            var was := FileAfter(file, before, fits);
            && (StoredFits(file, calls, fits) <==> StoredFits(file, before, fits) && StepFits(was, last, fits))
            && FileAfter(file, calls, fits) == After(was, last, fits)
            && Accepted(file, calls, fits) == Accepted(file, before, fits) + [Answer(was, last, fits).Ok?]
            && Expectations(calls) == Expectations(before) + [last.expected]
  {
    hide Answer, After, StepFits;
  }

  lemma StepGrows(file: Stored, call: Call, fits: Brief -> bool)
    ensures Answer(file, call, fits).Ok? ==> call.expected == Some(Revision(file, fits))
    ensures Revision(After(file, call, fits), fits) ==
            if !Answer(file, call, fits).Ok? then Revision(file, fits)
            else if StepFits(file, call, fits) then Revision(file, fits) + 1 else 0
    ensures !Answer(file, call, fits).Ok? ==> StepFits(file, call, fits)
  {
    StepRevision(file, call, fits);
    hide Asked, NormalForm, Validate, Load;
  }

  /** Where the limits fail: what is stored reads back as absent, so the next writer is asked for revision 0 and replaces
      it, and no update is possible. */
  lemma OversizedRestarts(file: Stored, call: Call, next: Call, fits: Brief -> bool)
    requires Answer(file, call, fits).Ok? && !fits(NormalForm(Asked(file, call, fits).value))
    ensures var after := After(file, call, fits);
            && Load(after, fits) == None
            && (Answer(after, next, fits).Ok? <==> next.Write? && next.expected == Some(0) && next.brief.schema == 2
                                                   && Validate(next.brief.(revision := 1), fits).Ok?)
  {
    StepRevision(file, call, fits);
    hide Validate, Load, Proposed, NormalForm;
  }

  /** A limit on the number of fields a part may have. */
  const NARROW: Brief -> bool := (b: Brief) => forall i :: 0 <= i < |b.sections[PARTS]| ==> |b.sections[PARTS][i]| <= 2

  /** A brief with one part, which names no children. */
  function OnePart(): Brief {
    Brief(2, 0, "skip", Text("s"), seq(SECTIONS, s => if s == PARTS then [map[Id := Text("a"), Name := Text("a")]] else []))
  }

  /** Both failures at once: under that limit the brief is accepted, and the children that validation adds make what is
      stored unreadable, so that the very same call is accepted again and the first update is lost. */
  lemma AcceptedTwice()
    ensures var call := Write(OnePart(), Some(0));
            var after := After(Absent, call, NARROW);
            && Answer(Absent, call, NARROW).Ok? && Load(after, NARROW) == None
            && Answer(after, call, NARROW) == Answer(Absent, call, NARROW)
  {
    var call := Write(OnePart(), Some(0));
    var asked := OnePart().(revision := 1);
    OnePartAccepted(asked);
    assert OnePart().schema == 2;
    FirstWrite(Absent, OnePart(), NARROW);
    AcceptedForm(asked, NARROW);
    StepRevision(Absent, call, NARROW);
    FirstWrite(After(Absent, call, NARROW), OnePart(), NARROW);
    hide *;
  }

  lemma FirstWrite(file: Stored, b: Brief, fits: Brief -> bool)
    requires b.schema == 2
    ensures Load(file, fits).None? ==>
              var asked := b.(revision := 1);
              Asked(file, Write(b, Some(0)), fits) == Some(asked) && Answer(file, Write(b, Some(0)), fits) == Validate(asked, fits)
  {
    hide Load, Validate;
  }

  lemma OnePartAccepted(asked: Brief)
    requires asked == OnePart().(revision := 1)
    ensures Validate(asked, NARROW).Ok? && !NARROW(NormalForm(asked))
  {
    var r := map[Id := Text("a"), Name := Text("a")];
    assert asked.sections[PARTS] == [r];
    assert forall s: nat :: 0 < s < SECTIONS ==> asked.sections[s] == [];
    OnePartGood(r);
    OnePartIdentified(asked.sections, r);
    assert HeadGood(asked) && NARROW(asked);
    OnePartNormal(asked, r);
    hide PartsAccepted, HeadGood, Identified, HasId, Normalized, Validate, OnePart, DistinctIds, AllHaveIds, IdSet,
      WithIds, NormalizeAll;
    ValidateSpec(asked, NARROW);
    assert |Normalized(asked).sections[PARTS][0]| == 3;
  }

  lemma OnePartGood(r: Record)
    requires r == map[Id := Text("a"), Name := Text("a")]
    ensures HasId(r) && AllHaveIds([r]) && DistinctIds([r]) && PartsAccepted([r])
  {
    assert !Blank("a") && ChildrenValue(r) == NO_ITEMS;
    hide Blank, Strip;
    assert PartGood(r, IdSet([r]), IdOf(r));
    NoChildren([r]);
  }

  lemma OnePartIdentified(sections: Sections, r: Record)
    requires HasId(r) && sections[PARTS] == [r] && forall s :: 0 < s < SECTIONS ==> sections[s] == []
    ensures Identified(sections)
  {
    hide HasId, IdOf;
  }

  lemma OnePartNormal(b: Brief, r: Record)
    requires HasId(r) && Id in r && Children !in r && |r| == 2 && b.sections[PARTS] == [r]
    requires Identified(b.sections) && b.sections[ASSUMPTIONS] == []
    ensures NormalizeAll(WithIds(b.sections[ASSUMPTIONS])).Ok?
    ensures var parts := Normalized(b).sections[PARTS]; |parts| == 1 && |parts[0]| == 3
  {
    hide Identified, HasId, IdOf;
    assert WithAllChildren(WithIds([r])) == [WithChildren(WithId(r))];
    MoreKeys(r, Text(IdOf(r)));
  }

  lemma MoreKeys(r: Record, id: Value)
    requires Id in r && Children !in r
    ensures |WithChildren(r[Id := id])| == |r| + 1
  {
    assert WithChildren(r[Id := id]).Keys == r.Keys + {Children};
    KeyCount(r);
    KeyCount(WithChildren(r[Id := id]));
  }

  lemma KeyCount(r: Record)
    ensures |r| == |r.Keys|
  {
  }

  // ---------------------------------------------------------------- calls that the limits cannot hurt

  /** A record that validation leaves alone. */
  predicate RecordNormal(r: Record, s: nat) {
    Tidy(r) && (s == PARTS ==> Children in r) && (s == ASSUMPTIONS ==> Assumptions.Normal(r))
  }

  predicate AllNormal(records: seq<Record>, s: nat) { forall r :: r in records ==> RecordNormal(r, s) }

  /** The caller hands in records as validation would leave them, and a trimmed summary. */
  predicate CallNormal(call: Call) {
    match call
    case Write(b, _) =>
      Text(Strip(TextOf(b.summary))) == b.summary && forall s: nat :: s < SECTIONS ==> AllNormal(b.sections[s], s)
    case Update(section, upserts, _, _) => AllNormal(upserts, section)
  }

  lemma NormalRecords(records: seq<Record>, s: nat)
    ensures AllNormal(records, s) <==> SectionNormal(records, s)
  {
    hide Tidy, Assumptions.Normal;
    if SectionNormal(records, s) {
      forall r | r in records
        ensures RecordNormal(r, s)
      {
        var i :| 0 <= i < |records| && records[i] == r;
      }
    } else if AllNormal(records, s) {
      forall i | 0 <= i < |records|
        ensures RecordNormal(records[i], s)
      {
        assert records[i] in records;
      }
      assert false;
    }
  }

  lemma PutEntries(entries: Entries, id: string, r: Record)
    ensures forall e :: e in Put(entries, id, r) ==> e in entries || e == (id, r)
  {
  }

  lemma {:induction false} PopEntries(entries: Entries, id: string)
    ensures forall e :: e in Pop(entries, id) ==> e in entries
  {
    if entries != [] { PopEntries(entries[..|entries| - 1], id); }
  }

  lemma {:induction false} PopAllEntries(entries: Entries, ids: seq<string>)
    ensures forall e :: e in PopAll(entries, ids) ==> e in entries
  {
    if ids != [] {
      PopAllEntries(entries, ids[..|ids| - 1]);
      PopEntries(PopAll(entries, ids[..|ids| - 1]), ids[|ids| - 1]);
      hide Pop;
    }
  }

  lemma {:induction false} PutAllEntries(entries: Entries, upserts: seq<Record>)
    requires AllHaveIds(upserts)
    ensures forall e :: e in PutAll(entries, upserts) ==> e in entries || e.1 in upserts
  {
    if upserts != [] {
      var last := upserts[|upserts| - 1];
      PutAllEntries(entries, upserts[..|upserts| - 1]);
      PutEntries(PutAll(entries, upserts[..|upserts| - 1]), IdOf(last), last);
      hide Put, HasId, IdOf;
    }
  }

  /** A patched section holds only records it held before and upserts. */
  lemma PatchedRecords(records: seq<Record>, upserts: seq<Record>, removeIds: seq<string>)
    requires AllHaveIds(records) && AllHaveIds(upserts)
    ensures forall r :: r in Patched(records, upserts, removeIds) ==> r in records || r in upserts
  {
    var entries := PutAll(PopAll(Keyed(records), removeIds), upserts);
    PopAllEntries(Keyed(records), removeIds);
    PutAllEntries(PopAll(Keyed(records), removeIds), upserts);
    hide PutAll, PopAll, HasId, IdOf;
    forall r | r in Values(entries)
      ensures r in records || r in upserts
    {
      var i :| 0 <= i < |entries| && entries[i].1 == r;
      assert entries[i] in entries;
    }
  }

  /** Such a call asks for a brief that is its own normal form. */
  lemma AskedStays(file: Stored, call: Call, fits: Brief -> bool)
    requires CallNormal(call) && Asked(file, call, fits).Some?
    ensures NormalForm(Asked(file, call, fits).value) == Asked(file, call, fits).value
  {
    var asked := Asked(file, call, fits).value;
    AskedNormal(file, call, fits);
    hide Asked, CallNormal, AllNormal, NormalizeAll, Identified, Section, WithIds;
    if Identified(asked.sections) && NormalizeAll(WithIds(asked.sections[ASSUMPTIONS])).Ok? {
      forall s: nat | s < SECTIONS
        ensures Section(asked, s) == asked.sections[s]
      {
        NormalRecords(asked.sections[s], s);
        hide SectionNormal;
        NormalSectionStays(asked, s);
      }
      hide *;
      NormalizedSame(asked);
    }
  }

  lemma NormalizedSame(b: Brief)
    requires Identified(b.sections) && NormalizeAll(WithIds(b.sections[ASSUMPTIONS])).Ok?
    requires Text(Strip(TextOf(b.summary))) == b.summary && forall s: nat :: s < SECTIONS ==> Section(b, s) == b.sections[s]
    ensures NormalForm(b) == b
  {
    hide Identified, NormalizeAll, WithIds, Section, Strip, TextOf;
    assert Normalized(b).sections == b.sections;
  }

  lemma AskedNormal(file: Stored, call: Call, fits: Brief -> bool)
    requires CallNormal(call) && Asked(file, call, fits).Some?
    ensures var asked := Asked(file, call, fits).value;
            Text(Strip(TextOf(asked.summary))) == asked.summary && forall s: nat :: s < SECTIONS ==> AllNormal(asked.sections[s], s)
  {
    if call.Update? {
      LoadedSummary(file, fits);
      LoadedIsSettled(file, fits);
      var current := Load(file, fits).value;
      PatchedRecords(current.sections[call.section], call.upserts, call.removeIds);
      hide Load, Patched, AllHaveIds, SectionNormal, Strip, TextOf;
      forall s: nat | s < SECTIONS
        ensures AllNormal(current.sections[s], s)
      {
        NormalRecords(current.sections[s], s);
      }
    }
  }

  /** However tight the limits, a run of such calls keeps the count. */
  lemma {:induction false} NormalRunCounts(file: Stored, calls: seq<Call>, fits: Brief -> bool)
    requires forall call :: call in calls ==> CallNormal(call)
    ensures StoredFits(file, calls, fits)
    ensures Revision(FileAfter(file, calls, fits), fits) == Revision(file, fits) + Count(Accepted(file, calls, fits))
  {
    NoLostUpdates(file, calls, fits);
    hide *;
    if calls == [] {
      NoCalls(file, fits, 0);
    } else {
      var before, last := calls[..|calls| - 1], calls[|calls| - 1];
      LastCall(file, calls, fits);
      NormalRunCounts(file, before, fits);
      assert last in calls;
      NormalStepFits(FileAfter(file, before, fits), last, fits);
    }
  }

  lemma NormalStepFits(file: Stored, call: Call, fits: Brief -> bool)
    requires CallNormal(call)
    ensures StepFits(file, call, fits)
  {
    if !StepFits(file, call, fits) {
      var asked := Asked(file, call, fits).value;
      AskedStays(file, call, fits);
      AcceptedForm(asked, fits);
      assert false;
    }
  }

  // ---------------------------------------------------------------- what a patch does

  /** A patch leaves every other section, the summary and the tier as they were. */
  lemma OtherSectionsUnchanged(file: Stored, section: nat, upserts: seq<Record>, removeIds: seq<string>, expected: Option<int>,
                               fits: Brief -> bool)
    requires Answer(file, Update(section, upserts, removeIds, expected), fits).Ok?
    ensures var payload, current := Answer(file, Update(section, upserts, removeIds, expected), fits).value, Load(file, fits);
            && current.Some? && payload.tier == current.value.tier && payload.summary == current.value.summary
            && forall s: nat :: s < SECTIONS && s != section ==> payload.sections[s] == current.value.sections[s]
  {
    var asked := UpdateAsks(file, section, upserts, removeIds, expected, fits);
    var current := Load(file, fits).value;
    LoadedIsSettled(file, fits);
    LoadedSummary(file, fits);
    assert forall s: nat :: s < SECTIONS ==> SectionNormal(current.sections[s], s);
    hide *;
    forall s: nat | s < SECTIONS && s != section
      ensures Normalized(asked).sections[s] == current.sections[s]
    {
      Untouched(asked, s);
    }
    NormalizedHead(asked);
  }

  lemma UpdateAsks(file: Stored, section: nat, upserts: seq<Record>, removeIds: seq<string>, expected: Option<int>,
                   fits: Brief -> bool) returns (asked: Brief)
    requires Answer(file, Update(section, upserts, removeIds, expected), fits).Ok?
    ensures SectionsAccepted(asked) && Answer(file, Update(section, upserts, removeIds, expected), fits).value == Normalized(asked)
    ensures var current := Load(file, fits);
            && current.Some? && asked.tier == current.value.tier && asked.summary == current.value.summary
            && forall s: nat :: s < SECTIONS && s != section ==> asked.sections[s] == current.value.sections[s]
  {
    asked := Asked(file, Update(section, upserts, removeIds, expected), fits).value;
    hide Validate, Load, Patched, AllHaveIds, SectionsAccepted, HeadGood;
    ValidateSpec(asked, fits);
  }

  lemma NormalizedHead(b: Brief)
    requires SectionsAccepted(b)
    ensures Normalized(b).tier == b.tier && Normalized(b).summary == Text(Strip(TextOf(b.summary)))
  {
  }

  lemma Untouched(b: Brief, s: nat)
    requires SectionsAccepted(b) && s < SECTIONS && SectionNormal(b.sections[s], s)
    ensures Normalized(b).sections[s] == b.sections[s]
  {
    NormalSectionStays(b, s);
    hide Section, SectionNormal, PartsAccepted, InterfacesGood, NormalizeAll, WithIds, Identified;
  }

  lemma LoadedSummary(file: Stored, fits: Brief -> bool)
    requires Load(file, fits).Some?
    ensures var summary := Load(file, fits).value.summary; Text(Strip(TextOf(summary))) == summary
  {
    hide Validate, Assemble, MigratedIds, ValidateV1;
    match file {
      case Legacy(raw) => TrimmedSummary(Assemble(ValidateV1(raw).value, MigratedIds(ValidateV1(raw).value)), fits);
      case Current(b) => TrimmedSummary(b, fits);
    }
  }

  lemma TrimmedSummary(b: Brief, fits: Brief -> bool)
    requires Validate(b, fits).Ok?
    ensures var summary := Validate(b, fits).value.summary; Text(Strip(TextOf(summary))) == summary
  {
  }

  function Lookup(entries: Entries, id: string): Option<Record> {
    var i := Position(entries, id);
    if i < |entries| then Some(entries[i].1) else None
  }

  predicate DistinctKeys(entries: Entries) { forall i, j :: 0 <= i < j < |entries| ==> entries[i].0 != entries[j].0 }

  lemma PositionIs(entries: Entries, id: string, i: nat)
    requires i < |entries| && entries[i].0 == id && forall j :: 0 <= j < i ==> entries[j].0 != id
    ensures Position(entries, id) == i
  {
  }

  lemma PutMeaning(entries: Entries, id: string, r: Record, x: string)
    ensures Lookup(Put(entries, id, r), x) == if x == id then Some(r) else Lookup(entries, x)
  {
    var after := Put(entries, id, r);
    var p := Position(entries, x);
    if x == id {
      PositionIs(after, id, Position(entries, id));
    } else if p < |entries| {
      PositionIs(after, x, p);
    } else {
      assert Position(after, x) == |after|;
    }
  }

  lemma {:induction false} PopMeaning(entries: Entries, id: string, x: string)
    ensures Lookup(Pop(entries, id), x) == if x == id then None else Lookup(entries, x)
  {
    if entries != [] {
      var before, last := entries[..|entries| - 1], entries[|entries| - 1];
      PopMeaning(before, id, x);
      LookupLast(before, last, x);
      assert entries == before + [last];
      LookupLast(Pop(before, id), last, x);
      hide Lookup;
    }
  }

  lemma LookupLast(entries: Entries, last: (string, Record), x: string)
    ensures Lookup(entries + [last], x) ==
            if Lookup(entries, x).Some? then Lookup(entries, x) else if last.0 == x then Some(last.1) else None
  {
    var more := entries + [last];
    var p, q := Position(entries, x), Position(more, x);
    if p < |entries| {
      PositionIs(more, x, p);
    } else if last.0 == x {
      PositionIs(more, x, |entries|);
    } else {
      assert q == |more|;
    }
  }

  /** The last upsert with that id, if any. */
  function LastUpsert(upserts: seq<Record>, x: string): Option<Record>
    requires AllHaveIds(upserts)
  {
    if upserts == [] then None
    else
      var last := upserts[|upserts| - 1];
      if IdOf(last) == x then Some(last) else LastUpsert(upserts[..|upserts| - 1], x)
  }

  /** After a patch an id stands for the last upsert that names it; failing that, for the record it had, unless removed. */
  lemma PatchMeaning(entries: Entries, upserts: seq<Record>, removeIds: seq<string>, x: string)
    requires AllHaveIds(upserts)
    ensures Lookup(PutAll(PopAll(entries, removeIds), upserts), x) ==
            if LastUpsert(upserts, x).Some? then LastUpsert(upserts, x)
            else if x in removeIds then None else Lookup(entries, x)
  {
    PopAllMeaning(entries, removeIds, x);
    PutAllMeaning(PopAll(entries, removeIds), upserts, x);
  }

  lemma {:induction false} PopAllMeaning(entries: Entries, ids: seq<string>, x: string)
    ensures Lookup(PopAll(entries, ids), x) == if x in ids then None else Lookup(entries, x)
  {
    if ids != [] {
      PopAllMeaning(entries, ids[..|ids| - 1], x);
      PopMeaning(PopAll(entries, ids[..|ids| - 1]), ids[|ids| - 1], x);
      hide Lookup, Pop;
    }
  }

  lemma {:induction false} PutAllMeaning(entries: Entries, upserts: seq<Record>, x: string)
    requires AllHaveIds(upserts)
    ensures Lookup(PutAll(entries, upserts), x) ==
            if LastUpsert(upserts, x).Some? then LastUpsert(upserts, x) else Lookup(entries, x)
  {
    if upserts != [] {
      var last := upserts[|upserts| - 1];
      PutAllMeaning(entries, upserts[..|upserts| - 1], x);
      PutMeaning(PutAll(entries, upserts[..|upserts| - 1]), IdOf(last), last, x);
      hide Lookup, Put, IdOf, HasId;
    }
  }

  // ---------------------------------------------------------------- the file

  /** The loops of `update_build_brief` over the ids to remove and the records to put in. */
  method PatchSection(records: seq<Record>, upserts: seq<Record>, removeIds: seq<string>) returns (result: Result<seq<Record>>)
    requires AllHaveIds(records)
    ensures result == if AllHaveIds(upserts) then Ok(Patched(records, upserts, removeIds)) else Rejected
  {
    hide HasId, IdOf, Pop, Put;
    var entries := Keyed(records);
    for i := 0 to |removeIds|
      invariant entries == PopAll(Keyed(records), removeIds[..i])
    {
      assert removeIds[..i + 1][..i] == removeIds[..i];
      entries := Pop(entries, removeIds[i]);
    }
    assert removeIds[..|removeIds|] == removeIds;
    for i := 0 to |upserts|
      invariant forall j :: 0 <= j < i ==> HasId(upserts[j])
      invariant entries == PutAll(PopAll(Keyed(records), removeIds), upserts[..i])
    {
      if !HasId(upserts[i]) { return Rejected; }
      assert upserts[..i + 1][..i] == upserts[..i];
      entries := Put(entries, IdOf(upserts[i]), upserts[i]);
    }
    assert upserts[..|upserts|] == upserts;
    return Ok(Values(entries));
  }

  class BriefFile {
    const fits: Brief -> bool
    var stored: Stored

    constructor (limits: Brief -> bool)
      ensures fits == limits && stored == Absent
    {
      fits, stored := limits, Absent;
    }

    /** `load_build_brief(root, target_schema=2)`. */
    method LoadBrief() returns (current: Option<Brief>)
      ensures current == Load(stored, fits)
    {
      hide Validate, Migrate;
      match stored {
        case Absent => current := None;
        case Unreadable => current := None;
        case Legacy(raw) =>
          var result := BriefMigrator.MigrateV1ToV2(raw, fits);
          current := AsOption(result);
        case Current(b) =>
          var result := BriefValidator.ValidateInPlace(b, fits);
          current := AsOption(result);
      }
    }

    /** `write_build_brief` for schema 2. */
    method WriteBrief(brief: Brief, expected: Option<int>) returns (result: Result<Brief>)
      modifies this`stored
      ensures result == Answer(old(stored), Write(brief, expected), fits)
      ensures stored == After(old(stored), Write(brief, expected), fits)
    {
      hide Validate, Load;
      if !Stated(expected) || brief.schema != 2 { return Rejected; }
      var current := LoadBrief();
      var revision := if current.Some? then current.value.revision else 0;
      if expected.value != revision { return Rejected; }
      result := BriefValidator.ValidateInPlace(brief.(revision := revision + 1), fits);
      if result.Ok? { stored := Current(result.value); }
    }

    /** `update_build_brief`. */
    method UpdateBrief(section: nat, upserts: seq<Record>, removeIds: seq<string>, expected: Option<int>)
      returns (result: Result<Brief>)
      modifies this`stored
      ensures result == Answer(old(stored), Update(section, upserts, removeIds, expected), fits)
      ensures stored == After(old(stored), Update(section, upserts, removeIds, expected), fits)
    {
      hide Validate, Load, Patched, HasId, AllHaveIds;
      if !Stated(expected) || !UpdateGood(section, upserts, removeIds) { return Rejected; }
      var current := LoadBrief();
      if current.None? || expected.value != current.value.revision { return Rejected; }
      LoadedIsSettled(stored, fits);
      var patched := PatchSection(current.value.sections[section], upserts, removeIds);
      if patched.Rejected? { return Rejected; }
      var updated := current.value.(revision := current.value.revision + 1,
                                    sections := current.value.sections[section := patched.value]);
      result := BriefValidator.ValidateInPlace(updated, fits);
      if result.Ok? { stored := Current(result.value); }
    }
  }
}
