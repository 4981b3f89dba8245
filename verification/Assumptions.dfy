/** `_normalize_assumption` of build_brief.py. */
module Assumptions {
  import opened Wrappers
  import opened BriefText

  const MAX_PROSE := 500
  /** The fields an assumption's contract speaks about. */
  predicate Governed(k: Field) {
    || k == KindField || k == TextField || k == Name || k == Statement || k == RiskField || k == Disposition
    || k == Source || k == Rationale || k == LegacyDisposition || k == Migration
  }

  const LEGACY := "legacy-v2"

  predicate IsRisk(s: string) { s == "low" || s == "functional" || s == "safety" || s == "compliance" }

  predicate Settled(s: string) { s == "delegated" || s == "confirmed" }

  predicate IsDisposition(s: string) { s == "implicit" || Settled(s) }

  /** `_required_assumption_text`. */
  function Required(v: Value): Result<string> {
    var text := CappedText(v, MAX_PROSE);
    if text.Ok? && text.value == "" then Rejected else text
  }

  predicate LegacyShape(r: Record) { RiskField !in r && KindField in r }

  function RiskOf(r: Record): string { Lower(Strip(TextOf(Or(Get(r, RiskField), Get(r, KindField))))) }

  function StatementOf(r: Record): Value {
    var given := Or(Or(Get(r, Statement), Get(r, TextField)), Get(r, Name));
    if !Truthy(given) && (LegacyShape(r) || RiskOf(r) == "high") then Get(r, Id) else given
  }

  function Restated(r: Record, statement: string): Record { r[Statement := Text(statement)] - {KindField, TextField, Name} }

  function SettledNote(was: string): string { "Migrated legacy high-risk disposition: " + was }

  function OpenNote(was: string): string { "Legacy high-risk disposition requires confirmation: " + was }

  function LegacyNote(was: string): string { "Migrated legacy disposition: " + was }

  function MissingNote(): string { "Legacy assumption has no disposition" }

  /** Records of the old high risk become functional, with the disposition they had or an open one. */
  function MigrateHigh(r: Record): Record {
    var value := Get(r, Disposition);
    var was := Strip(TextOf(value));
    var base := r[RiskField := Text("functional")][Source := Text(LEGACY)][LegacyDisposition := value];
    if Lower(was) in {"validated", "confirmed"}
    then base[Disposition := Text("confirmed")][Rationale := Text(SettledNote(was))]
    else if Lower(was) == "delegated"
    then base[Disposition := Text("delegated")][Rationale := Text(SettledNote(was))]
    else base[Disposition := Text("unknown")]
             [Rationale := Text(OpenNote(was))][Migration := Text(LEGACY)]
  }

  /** Records that still say `kind` and no `risk`. */
  function MigrateLegacy(r: Record): Record {
    var was := Strip(TextOf(Get(r, Disposition)));
    if was == "validated"
    then r[Disposition := Text("confirmed")][Source := Text(LEGACY)][Rationale := Text(LegacyNote(was))]
    else if was == ""
    then r[Disposition := Text("unknown")][Source := Text(LEGACY)]
          [Rationale := Text(MissingNote())][Migration := Text(LEGACY)]
    else r
  }

  predicate Waiting(r: Record, disposition: string) {
    disposition == "unknown" && Get(r, Migration) == Text(LEGACY)
  }

  predicate Allowed(r: Record, risk: string, disposition: string) {
    && (IsDisposition(disposition) || Waiting(r, disposition))
    && (risk == "low" || Settled(disposition) || Waiting(r, disposition))
  }

  /** The risk matrix, once old records are migrated. */
  function Check(r: Record, risk: string): Result<Record> {
    var given := Required(Get(r, Disposition));
    if !IsRisk(risk) || given.Rejected? || !Allowed(r, risk, Lower(given.value)) then Rejected
    else Explain(r[RiskField := Text(risk)][Disposition := Text(Lower(given.value))], risk)
  }

  /** Anything beyond low risk needs a source and a rationale. */
  function Explain(r: Record, risk: string): Result<Record> {
    if risk == "low" then Ok(r)
    else
      var source, rationale := Required(Get(r, Source)), Required(Get(r, Rationale));
      if source.Rejected? || rationale.Rejected? then Rejected
      else Ok(r[Source := Text(source.value)][Rationale := Text(rationale.value)])
  }

  function EffectiveRisk(r: Record): string { if RiskOf(r) == "high" then "functional" else RiskOf(r) }

  function Migrated(r: Record, statement: string): Record {
    var restated := Restated(r, statement);
    if RiskOf(r) == "high" then MigrateHigh(restated) else if LegacyShape(r) then MigrateLegacy(restated) else restated
  }

  function Normalize(r: Record): Result<Record> {
    var statement := Required(StatementOf(r));
    if statement.Rejected? then Rejected else Check(Migrated(r, statement.value), EffectiveRisk(r))
  }

  /** `_normalize_assumption`, which edits the record in place. */
  method NormalizeInPlace(given: Record) returns (result: Result<Record>)
    ensures result == Normalize(given)
  {
    hide Required, Lower, Strip, TextOf, Check;
    var record := given;
    var legacyShape := RiskField !in record && KindField in record;
    var risk := Lower(Strip(TextOf(Or(Get(record, RiskField), Get(record, KindField)))));
    var statement := Or(Or(Get(record, Statement), Get(record, TextField)), Get(record, Name));
    if !Truthy(statement) && (legacyShape || risk == "high") { statement := Get(record, Id); }
    var text := Required(statement);
    if text.Rejected? { return Rejected; }
    record := record[Statement := Text(text.value)];
    record := record - {KindField, TextField, Name};
    assert record == Restated(given, text.value);
    var value := Get(record, Disposition);
    var was := Strip(TextOf(value));
    if risk == "high" {
      record := record[RiskField := Text("functional")][Source := Text(LEGACY)][LegacyDisposition := value];
      if Lower(was) in {"validated", "confirmed"} {
        record := record[Disposition := Text("confirmed")][Rationale := Text(SettledNote(was))];
      } else if Lower(was) == "delegated" {
        record := record[Disposition := Text("delegated")][Rationale := Text(SettledNote(was))];
      } else {
        record := record[Disposition := Text("unknown")];
        record := record[Rationale := Text(OpenNote(was))];
        record := record[Migration := Text(LEGACY)];
      }
      risk := "functional";
    } else if legacyShape && was == "validated" {
      record := record[Disposition := Text("confirmed")][Source := Text(LEGACY)];
      record := record[Rationale := Text(LegacyNote(was))];
    } else if legacyShape && was == "" {
      record := record[Disposition := Text("unknown")][Source := Text(LEGACY)];
      record := record[Rationale := Text(MissingNote())][Migration := Text(LEGACY)];
    }
    assert record == Migrated(given, text.value) && risk == EffectiveRisk(given);
    hide Migrated, EffectiveRisk;
    result := CheckInPlace(record, risk);
  }

  /** The second half of `_normalize_assumption`. */
  method CheckInPlace(given: Record, risk: string) returns (result: Result<Record>)
    ensures result == Check(given, risk)
  {
    hide Required, Lower, IsRisk, IsDisposition, Settled;
    var record := given;
    if !IsRisk(risk) { return Rejected; }
    var required := Required(Get(record, Disposition));
    if required.Rejected? { return Rejected; }
    var disposition := Lower(required.value);
    var unresolved := disposition == "unknown" && Get(record, Migration) == Text(LEGACY);
    if !IsDisposition(disposition) && !unresolved { return Rejected; }
    if risk != "low" && !Settled(disposition) && !unresolved { return Rejected; }
    record := record[RiskField := Text(risk)];
    record := record[Disposition := Text(disposition)];
    if risk != "low" {
      var source := Required(Get(record, Source));
      if source.Rejected? { return Rejected; }
      record := record[Source := Text(source.value)];
      var rationale := Required(Get(record, Rationale));
      if rationale.Rejected? { return Rejected; }
      record := record[Rationale := Text(rationale.value)];
    }
    return Ok(record);
  }

  // ---------------------------------------------------------------- what a normalized assumption is

  /** Nonempty trimmed prose of bounded length. */
  predicate Good(v: Value) { Capped(v, MAX_PROSE) && v.text != "" }

  predicate Prose(r: Record, key: Field) { key in r && Good(r[key]) }

  /** The shape every accepted assumption has: anything beyond low risk has a source, a rationale, and a delegated
      or confirmed disposition, unless it is an old record still waiting for an answer. */
  predicate Normal(r: Record) {
    && KindField !in r && TextField !in r && Name !in r
    && Prose(r, Statement) && Prose(r, Disposition) && RiskField in r && r[RiskField].Text?
    && IsRisk(r[RiskField].text) && Allowed(r, r[RiskField].text, r[Disposition].text)
    && (r[RiskField].text == "low" || (Prose(r, Source) && Prose(r, Rationale)))
  }

  lemma RequiredSpec(v: Value)
    ensures Required(v).Ok? ==> Good(Text(Required(v).value)) && Good(Text(Lower(Required(v).value)))
    ensures Good(v) ==> v.Text? && Required(v) == Ok(v.text)
  {
    if Required(v).Ok? { LowerTrimmed(Required(v).value); }
  }

  predicate SmallLetters(s: string) { forall i :: 0 <= i < |s| ==> 'a' <= s[i] <= 'z' }

  lemma SmallStay(s: string)
    requires SmallLetters(s)
    ensures Lower(s) == s && Strip(s) == s
  {
  }

  /** The words of the contract are their own spelling, and "high" is not among them. */
  lemma Spelling(s: string)
    ensures IsRisk(s) ==> Lower(Strip(s)) == s && s != "high" && s != ""
    ensures IsDisposition(s) || s == "unknown" ==> Lower(s) == s
  {
    hide Lower, Strip;
    if IsRisk(s) || IsDisposition(s) || s == "unknown" {
      assert SmallLetters(s);
      SmallStay(s);
    }
    hide SmallLetters;
  }

  /** Accepted records are normal, and keep every field the contract does not speak about. */
  lemma NormalizedIsNormal(r: Record)
    requires Normalize(r).Ok?
    ensures Normal(Normalize(r).value)
    ensures forall k :: !Governed(k) ==> Get(Normalize(r).value, k) == Get(r, k)
  {
    RequiredSpec(StatementOf(r));
    MigratedKeeps(r, Required(StatementOf(r)).value);
    hide Required, Good, StatementOf, Check, Normal, Migrated, EffectiveRisk, Get, Lower;
    CheckedIsNormal(Migrated(r, Required(StatementOf(r)).value), EffectiveRisk(r));
  }

  lemma MigratedKeeps(r: Record, statement: string)
    ensures var m := Migrated(r, statement);
            KindField !in m && TextField !in m && Name !in m && Statement in m && m[Statement] == Text(statement)
    ensures forall k :: !Governed(k) ==> Get(Migrated(r, statement), k) == Get(r, k)
  {
    hide RiskOf, LegacyShape, MigrateHigh, MigrateLegacy;
    forall k: Field
      ensures Get(Migrated(r, statement), k) == Get(r, k) || Governed(k)
      ensures k in {KindField, TextField, Name} ==> k !in Migrated(r, statement)
    {
      MigrationKeeps(Restated(r, statement), k);
    }
    MigrationKeeps(Restated(r, statement), Statement);
  }

  lemma MigrationKeeps(r: Record, k: Field)
    ensures k !in {RiskField, Disposition, Source, Rationale, LegacyDisposition, Migration} ==>
              && (k in MigrateHigh(r) <==> k in r) && Get(MigrateHigh(r), k) == Get(r, k)
              && (k in MigrateLegacy(r) <==> k in r) && Get(MigrateLegacy(r), k) == Get(r, k)
  {
    hide Lower, Strip, TextOf, SettledNote, OpenNote, LegacyNote, MissingNote;
  }

  lemma CheckedIsNormal(r: Record, risk: string)
    requires Check(r, risk).Ok? && KindField !in r && TextField !in r && Name !in r && Prose(r, Statement)
    ensures Normal(Check(r, risk).value)
    ensures forall k :: k !in {RiskField, Disposition, Source, Rationale} ==> Get(Check(r, risk).value, k) == Get(r, k)
  {
    RequiredSpec(Get(r, Disposition));
    RequiredSpec(Get(r, Source));
    RequiredSpec(Get(r, Rationale));
    hide Required, Good, Lower, IsRisk, IsDisposition, Settled;
  }

  /** A normal record passes through unchanged. */
  lemma NormalStays(r: Record)
    requires Normal(r)
    ensures Normalize(r) == Ok(r)
  {
    RiskStays(r);
    CheckStays(r);
    StatementStays(r);
    UntouchedByMigration(r, r[Statement].text);
    hide Required, Check, RiskOf, Normal, Good, StatementOf, Migrated, LegacyShape;
  }

  lemma StatementStays(r: Record)
    requires Prose(r, Statement)
    ensures Required(StatementOf(r)) == Ok(r[Statement].text)
  {
    RequiredSpec(r[Statement]);
    hide Required, RiskOf;
    assert Truthy(r[Statement]);
  }

  lemma UntouchedByMigration(r: Record, statement: string)
    requires KindField !in r && TextField !in r && Name !in r && RiskOf(r) != "high"
    requires Statement in r && r[Statement] == Text(statement)
    ensures Migrated(r, statement) == r
  {
    hide RiskOf, MigrateHigh, MigrateLegacy;
    assert Restated(r, statement) == r;
  }

  lemma RiskStays(r: Record)
    requires RiskField in r && r[RiskField].Text? && IsRisk(r[RiskField].text)
    ensures RiskOf(r) == r[RiskField].text && RiskOf(r) != "high"
  {
    Spelling(r[RiskField].text);
    hide Lower, Strip, IsRisk;
  }

  lemma CheckStays(r: Record)
    requires Normal(r)
    ensures Check(r, r[RiskField].text) == Ok(r)
  {
    var risk, disposition := r[RiskField].text, r[Disposition].text;
    Spelling(disposition);
    RequiredSpec(r[Disposition]);
    ExplainStays(r, risk);
    hide Required, Good, Lower, IsRisk, IsDisposition, Settled, Explain, Waiting;
    assert r[RiskField := Text(risk)] == r;
    assert r[Disposition := Text(disposition)] == r;
  }

  lemma ExplainStays(r: Record, risk: string)
    requires risk == "low" || (Prose(r, Source) && Prose(r, Rationale))
    ensures Explain(r, risk) == Ok(r)
  {
    RequiredSpec(Get(r, Source));
    RequiredSpec(Get(r, Rationale));
    hide Required, Good;
    if risk != "low" {
      assert r[Source := r[Source]] == r;
      assert r[Rationale := r[Rationale]] == r;
    }
  }

  /** Normalizing twice is normalizing once. */
  lemma NormalizeFixedPoint(r: Record)
    requires Normalize(r).Ok?
    ensures Normalize(Normalize(r).value) == Normalize(r)
  {
    NormalizedIsNormal(r);
    hide Normalize, Normal;
    NormalStays(Normalize(r).value);
  }

  lemma NormalizeKeepsId(r: Record)
    requires Normalize(r).Ok?
    ensures Get(Normalize(r).value, Id) == Get(r, Id)
  {
    assert !Governed(Id);
    NormalizedIsNormal(r);
    hide *;
  }
}
