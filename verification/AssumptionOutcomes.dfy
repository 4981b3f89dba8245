/** What becomes of an assumption, by what it said (build_brief.py). */
module AssumptionOutcomes {
  import opened Wrappers
  import opened BriefText
  import opened Assumptions

  /** What Python's `str(v or "").strip()` gives. */
  function Plain(v: Value): string { Strip(TextOf(v)) }

  predicate Short(s: string) { 0 < |s| <= 500 }

  /** The risk an assumption names, in the new field or else in the old one. */
  function NamedRisk(r: Record): string { Lower(Plain(if Truthy(Get(r, RiskField)) then Get(r, RiskField) else Get(r, KindField))) }

  predicate IsHigh(r: Record) { NamedRisk(r) == "high" }

  /** A record from before risks had a field of their own. */
  predicate IsOld(r: Record) { RiskField !in r && KindField in r && !IsHigh(r) }

  /** The statement in its three spellings, the newest first; an old or high-risk record falls back to its id. */
  function Said(r: Record): string {
    Plain(if Truthy(Get(r, Statement)) then Get(r, Statement)
          else if Truthy(Get(r, TextField)) then Get(r, TextField)
          else if Truthy(Get(r, Name)) || !(IsHigh(r) || IsOld(r)) then Get(r, Name)
          else Get(r, Id))
  }

  predicate Known(risk: string) { risk == "low" || risk == "functional" || risk == "safety" || risk == "compliance" }

  /** Statement, and only in the one field. */
  predicate States(r: Record, n: Record) {
    && Get(n, Statement) == Text(Said(r)) && Short(Said(r))
    && KindField !in n && TextField !in n && Name !in n
  }

  predicate Shows(n: Record, risk: string, disposition: string) {
    Get(n, RiskField) == Text(risk) && Get(n, Disposition) == Text(disposition)
  }

  // ---------------------------------------------------------------- the pieces

  lemma RequiredMeaning(v: Value)
    ensures Required(v) == if Short(Plain(v)) then Ok(Plain(v)) else Rejected
  {
  }

  lemma SaidIs(r: Record)
    ensures Required(StatementOf(r)) == if Short(Said(r)) then Ok(Said(r)) else Rejected
    ensures RiskOf(r) == NamedRisk(r)
  {
    hide Required, Strip, TextOf, Lower;
    RequiredMeaning(StatementOf(r));
  }

  /** A record that passes the risk matrix as it is. */
  predicate Passes(m: Record, risk: string) {
    var word := Lower(Plain(Get(m, Disposition)));
    && Known(risk) && Short(Plain(Get(m, Disposition)))
    && ( || word == "delegated" || word == "confirmed" || (word == "implicit" && risk == "low")
         || (word == "unknown" && Get(m, Migration) == Text("legacy-v2")))
    && (risk != "low" ==> Short(Plain(Get(m, Source))) && Short(Plain(Get(m, Rationale))))
  }

  lemma CheckMeaning(m: Record, risk: string)
    ensures Check(m, risk).Ok? <==> Passes(m, risk)
    ensures Check(m, risk).Ok? ==>
              var n := Check(m, risk).value;
              && Shows(n, risk, Lower(Plain(Get(m, Disposition))))
              && Get(n, Source) == (if risk == "low" then Get(m, Source) else Text(Plain(Get(m, Source))))
              && Get(n, Rationale) == (if risk == "low" then Get(m, Rationale) else Text(Plain(Get(m, Rationale))))
  {
    RequiredMeaning(Get(m, Disposition));
    RequiredMeaning(Get(m, Source));
    RequiredMeaning(Get(m, Rationale));
    hide Required, Lower, Plain, Short;
  }

  /** Normalizing is stating, migrating and checking. */
  lemma NormalizeMeaning(r: Record)
    ensures var risk := if IsHigh(r) then "functional" else NamedRisk(r);
            var m := Migrated(r, Said(r));
            && (Normalize(r).Ok? <==> Short(Said(r)) && Passes(m, risk))
            && (Normalize(r).Ok? ==>
                  var n := Normalize(r).value;
                  && States(r, n) && Shows(n, risk, Lower(Plain(Get(m, Disposition))))
                  && Get(n, Source) == (if risk == "low" then Get(m, Source) else Text(Plain(Get(m, Source))))
                  && Get(n, Rationale) == (if risk == "low" then Get(m, Rationale) else Text(Plain(Get(m, Rationale))))
                  && Get(n, Migration) == Get(m, Migration) && Get(n, LegacyDisposition) == Get(m, LegacyDisposition))
  {
    SaidIs(r);
    var risk := if IsHigh(r) then "functional" else NamedRisk(r);
    assert EffectiveRisk(r) == risk;
    hide StatementOf, RiskOf, Said, Short, Required, Passes, EffectiveRisk, NamedRisk;
    if Short(Said(r)) {
      var m := Migrated(r, Said(r));
      MigratedKeeps(r, Said(r));
      CheckMeaning(m, risk);
      hide Check, Migrated;
      assert Normalize(r) == Check(m, risk);
      if Normalize(r).Ok? { CheckKeeps(m, risk); }
    }
  }

  lemma CheckKeeps(m: Record, risk: string)
    requires Check(m, risk).Ok?
    ensures var n := Check(m, risk).value;
            && Get(n, Statement) == Get(m, Statement) && Get(n, Migration) == Get(m, Migration)
            && Get(n, LegacyDisposition) == Get(m, LegacyDisposition)
            && forall k :: k in n && k !in {RiskField, Disposition, Source, Rationale} ==> k in m
  {
    hide Required, Lower;
  }

  // ---------------------------------------------------------------- the three kinds of record

  /** The disposition of a high-risk record in the new terms: settled as it was, or open. */
  function HighDisposition(word: string): string {
    if word == "validated" || word == "confirmed" then "confirmed" else if word == "delegated" then "delegated" else "unknown"
  }

  /** A high-risk record becomes functional. Unless it had been validated, confirmed or delegated, it is marked as open, to be
      answered; it keeps its old disposition aside, and the rationale says where it comes from. */
  lemma HighOutcome(r: Record)
    requires IsHigh(r)
    ensures var was := Plain(Get(r, Disposition));
            var disposition := HighDisposition(Lower(was));
            var note := Strip(if disposition == "unknown" then OpenNote(was) else SettledNote(was));
            && (Normalize(r).Ok? <==> Short(Said(r)) && Short(note))
            && (Normalize(r).Ok? ==>
                  var n := Normalize(r).value;
                  && States(r, n) && Shows(n, "functional", disposition)
                  && Get(n, Source) == Text("legacy-v2") && Get(n, Rationale) == Text(note)
                  && Get(n, LegacyDisposition) == Get(r, Disposition)
                  && Get(n, Migration) == (if disposition == "unknown" then Text("legacy-v2") else Get(r, Migration)))
  {
    var was := Plain(Get(r, Disposition));
    var disposition := HighDisposition(Lower(was));
    var note := if disposition == "unknown" then OpenNote(was) else SettledNote(was);
    var m := Migrated(r, Said(r));
    NormalizeMeaning(r);
    MigratedHigh(r, m);
    assert Known("functional") && "functional" != "low";
    assert disposition == "confirmed" || disposition == "delegated" || disposition == "unknown";
    hide Migrated, Normalize, Lower, Strip, TextOf, Plain, HighDisposition, OpenNote, SettledNote, IsHigh, Said, Short, States, NamedRisk, Known,
      Passes;
    HighPasses(m, disposition, note);
  }

  /** What migration makes of a high-risk record passes when its note is short. */
  lemma HighPasses(m: Record, disposition: string, note: string)
    requires Get(m, Disposition) == Text(disposition) && Get(m, Source) == Text("legacy-v2") && Get(m, Rationale) == Text(note)
    requires disposition == "confirmed" || disposition == "delegated"
             || (disposition == "unknown" && Get(m, Migration) == Text("legacy-v2"))
    ensures Passes(m, "functional") <==> Short(Strip(note))
    ensures Lower(Plain(Get(m, Disposition))) == disposition && Plain(Get(m, Source)) == "legacy-v2"
    ensures Plain(Get(m, Rationale)) == Strip(note)
  {
    LegacyWord();
    DispositionWord(disposition);
    PlainText(note);
    PlainText(disposition);
    PlainText("legacy-v2");
    assert Known("functional");
    hide Lower, Strip, TextOf, Plain, Short, Known;
  }

  lemma MigratedHigh(r: Record, m: Record)
    requires IsHigh(r) && m == Migrated(r, Said(r))
    ensures var was := Plain(Get(r, Disposition));
            var disposition := HighDisposition(Lower(was));
            && Get(m, Disposition) == Text(disposition) && Get(m, Source) == Text("legacy-v2")
            && Get(m, Rationale) == Text(if disposition == "unknown" then OpenNote(was) else SettledNote(was))
            && Get(m, LegacyDisposition) == Get(r, Disposition)
            && Get(m, Migration) == (if disposition == "unknown" then Text("legacy-v2") else Get(r, Migration))
  {
    SaidIs(r);
    var restated := Restated(r, Said(r));
    RestatedGrounds(r);
    assert m == MigrateHigh(restated);
    hide *;
    HighFields(restated, m);
  }

  lemma RestatedGrounds(r: Record)
    ensures SameGrounds(r, Restated(r, Said(r))) && Get(Restated(r, Said(r)), LegacyDisposition) == Get(r, LegacyDisposition)
  {
    hide Said;
  }

  lemma HighFields(t: Record, m: Record)
    requires m == MigrateHigh(t)
    ensures var was := Plain(Get(t, Disposition));
            var disposition := HighDisposition(Lower(was));
            && Get(m, Disposition) == Text(disposition) && Get(m, Source) == Text("legacy-v2")
            && Get(m, Rationale) == Text(if disposition == "unknown" then OpenNote(was) else SettledNote(was))
            && Get(m, LegacyDisposition) == Get(t, Disposition)
            && Get(m, Migration) == (if disposition == "unknown" then Text("legacy-v2") else Get(t, Migration))
  {
    hide Lower, Strip, TextOf, OpenNote, SettledNote;
  }

  lemma PlainText(s: string)
    ensures Plain(Text(s)) == Strip(s)
  {
  }

  lemma LegacyWord()
    ensures Strip("legacy-v2") == "legacy-v2" && Short("legacy-v2")
  {
    assert Trimmed("legacy-v2");
  }

  lemma DispositionWord(s: string)
    requires s == "confirmed" || s == "delegated" || s == "unknown" || s == "implicit"
    ensures Strip(s) == s && Lower(s) == s && Short(s)
  {
    assert SmallLetters(s);
    SmallStay(s);
    hide SmallLetters, Lower, Strip;
  }

  /** An old record that had been validated is confirmed, and the rationale says so. */
  lemma ValidatedOutcome(r: Record)
    requires IsOld(r) && Plain(Get(r, Disposition)) == "validated"
    ensures Normalize(r).Ok? <==> Short(Said(r)) && Known(NamedRisk(r))
    ensures Normalize(r).Ok? ==>
              var n := Normalize(r).value;
              && States(r, n) && Shows(n, NamedRisk(r), "confirmed") && Get(n, Source) == Text("legacy-v2")
              && Get(n, Rationale) == Text(LegacyNote("validated")) && Get(n, Migration) == Get(r, Migration)
  {
    OldPasses(r, "confirmed", LegacyNote("validated"));
  }

  /** An old record without a disposition is marked as open, to be answered. */
  lemma UnansweredOutcome(r: Record)
    requires IsOld(r) && Plain(Get(r, Disposition)) == ""
    ensures Normalize(r).Ok? <==> Short(Said(r)) && Known(NamedRisk(r))
    ensures Normalize(r).Ok? ==>
              var n := Normalize(r).value;
              && States(r, n) && Shows(n, NamedRisk(r), "unknown") && Get(n, Source) == Text("legacy-v2")
              && Get(n, Rationale) == Text(MissingNote()) && Get(n, Migration) == Text("legacy-v2")
  {
    OldPasses(r, "unknown", MissingNote());
  }

  /** Any other old record is held to the risk matrix as it is. */
  lemma OldOutcome(r: Record)
    requires IsOld(r) && Plain(Get(r, Disposition)) != "validated" && Plain(Get(r, Disposition)) != ""
    ensures Normalize(r).Ok? <==> Short(Said(r)) && Passes(r, NamedRisk(r))
    ensures Normalize(r).Ok? ==>
              var n := Normalize(r).value;
              States(r, n) && Shows(n, NamedRisk(r), Lower(Plain(Get(r, Disposition)))) && Justified(r, n)
  {
    NormalizeMeaning(r);
    var m := Migrated(r, Said(r));
    MigratedOld(r, m);
    hide Normalize, Migrated, Said, Lower, Plain, NamedRisk, States, Short, Passes, Shows;
    SamePasses(r, m, NamedRisk(r));
  }

  /** An old record that is given a disposition and a note passes when its risk is known. */
  lemma OldPasses(r: Record, disposition: string, note: string)
    requires IsOld(r)
    requires var was := Plain(Get(r, Disposition));
             || (was == "validated" && disposition == "confirmed" && note == LegacyNote(was))
             || (was == "" && disposition == "unknown" && note == MissingNote())
    ensures Normalize(r).Ok? <==> Short(Said(r)) && Known(NamedRisk(r))
    ensures Normalize(r).Ok? ==>
              var n := Normalize(r).value;
              && States(r, n) && Shows(n, NamedRisk(r), disposition) && Get(n, Source) == Text("legacy-v2")
              && Get(n, Rationale) == Text(note)
              && Get(n, Migration) == if disposition == "unknown" then Text("legacy-v2") else Get(r, Migration)
  {
    var m := Migrated(r, Said(r));
    NormalizeMeaning(r);
    MigratedOld(r, m);
    LegacyWord();
    DispositionWord(disposition);
    NotesShort();
    hide Migrated, Lower, Strip, TextOf, LegacyNote, MissingNote, IsHigh, Said, Short, States, NamedRisk, Known, Normalize;
    PlainText("legacy-v2");
    PlainText(disposition);
    PlainText(note);
  }

  lemma NotesShort()
    ensures Strip(LegacyNote("validated")) == LegacyNote("validated") && Short(LegacyNote("validated")) && Strip(MissingNote()) == MissingNote() && Short(MissingNote())
  {
    assert Trimmed(LegacyNote("validated")) && Trimmed(MissingNote());
  }

  lemma MigratedOld(r: Record, m: Record)
    requires IsOld(r) && m == Migrated(r, Said(r))
    ensures var was := Plain(Get(r, Disposition));
            if was == "validated" then
              && Get(m, Disposition) == Text("confirmed") && Get(m, Source) == Text("legacy-v2")
              && Get(m, Rationale) == Text(LegacyNote(was)) && Get(m, Migration) == Get(r, Migration)
            else if was == "" then
              && Get(m, Disposition) == Text("unknown") && Get(m, Source) == Text("legacy-v2")
              && Get(m, Rationale) == Text(MissingNote()) && Get(m, Migration) == Text("legacy-v2")
            else SameGrounds(r, m)
  {
    SaidIs(r);
    var restated := Restated(r, Said(r));
    RestatedGrounds(r);
    assert m == MigrateLegacy(restated) by { hide Lower, Strip, TextOf, MigrateLegacy, MigrateHigh, Restated; }
    hide *;
    OldFields(restated, m);
    OldSame(r, restated, m);
  }

  lemma OldSame(r: Record, t: Record, m: Record)
    requires SameGrounds(r, t)
    ensures m == t ==> SameGrounds(r, m)
    ensures Get(t, Disposition) == Get(r, Disposition) && Get(t, Migration) == Get(r, Migration)
  {
  }

  lemma OldFields(t: Record, m: Record)
    requires m == MigrateLegacy(t)
    ensures var was := Plain(Get(t, Disposition));
            if was == "validated" then
              && Get(m, Disposition) == Text("confirmed") && Get(m, Source) == Text("legacy-v2")
              && Get(m, Rationale) == Text(LegacyNote(was)) && Get(m, Migration) == Get(t, Migration)
            else if was == "" then
              && Get(m, Disposition) == Text("unknown") && Get(m, Source) == Text("legacy-v2")
              && Get(m, Rationale) == Text(MissingNote()) && Get(m, Migration) == Text("legacy-v2")
            else m == t
  {
    hide Lower, Strip, TextOf, LegacyNote, MissingNote;
  }

  /** Disposition, source, rationale and migration mark as in `r`. */
  predicate SameGrounds(r: Record, m: Record) {
    && Get(m, Disposition) == Get(r, Disposition) && Get(m, Source) == Get(r, Source)
    && Get(m, Rationale) == Get(r, Rationale) && Get(m, Migration) == Get(r, Migration)
  }

  /** Source, rationale and migration mark are those given; beyond low risk the first two are trimmed. */
  predicate Justified(r: Record, n: Record) {
    && Get(n, Migration) == Get(r, Migration)
    && if NamedRisk(r) == "low" then Get(n, Source) == Get(r, Source) && Get(n, Rationale) == Get(r, Rationale)
       else Get(n, Source) == Text(Plain(Get(r, Source))) && Get(n, Rationale) == Text(Plain(Get(r, Rationale)))
  }

  /** A current record is accepted exactly when it passes the risk matrix, and keeps what it says. */
  lemma CurrentOutcome(r: Record)
    requires !IsHigh(r) && !IsOld(r)
    ensures Normalize(r).Ok? <==> Short(Said(r)) && Passes(r, NamedRisk(r))
    ensures Normalize(r).Ok? ==>
              var n := Normalize(r).value;
              && States(r, n) && Shows(n, NamedRisk(r), Lower(Plain(Get(r, Disposition)))) && Justified(r, n)
              && Get(n, LegacyDisposition) == Get(r, LegacyDisposition)
  {
    NormalizeMeaning(r);
    MigratedCurrent(r);
    var m := Migrated(r, Said(r));
    hide Normalize, Migrated, Said, Lower, Plain, IsHigh, NamedRisk, States, Short, IsOld;
    SamePasses(r, m, NamedRisk(r));
  }

  lemma MigratedCurrent(r: Record)
    requires !IsHigh(r) && !IsOld(r)
    ensures var m := Migrated(r, Said(r)); SameGrounds(r, m) && Get(m, LegacyDisposition) == Get(r, LegacyDisposition)
  {
    SaidIs(r);
    RestatedGrounds(r);
    hide Restated, Said, Lower, Plain, NamedRisk, MigrateHigh, MigrateLegacy, RiskOf;
  }

  lemma SamePasses(r: Record, m: Record, risk: string)
    requires SameGrounds(r, m)
    ensures Passes(m, risk) <==> Passes(r, risk)
  {
  }

  /** An old or high-risk record without a disposition is never taken for a settled one: it waits for an answer. */
  lemma UnansweredStaysOpen(r: Record)
    requires (IsHigh(r) || IsOld(r)) && Plain(Get(r, Disposition)) == "" && Normalize(r).Ok?
    ensures var n := Normalize(r).value; Get(n, Disposition) == Text("unknown") && Get(n, Migration) == Text("legacy-v2")
  {
    if IsHigh(r) {
      HighOutcome(r);
      assert Lower("") == "";
    } else {
      UnansweredOutcome(r);
    }
    hide Normalize, IsHigh, IsOld, Plain;
  }

  /** Beyond low risk nothing is accepted on an implicit disposition, whatever it said before. */
  lemma SettledOrOpen(r: Record)
    requires Normalize(r).Ok?
    ensures var n := Normalize(r).value;
            Get(n, RiskField) == Text("low") || Get(n, Disposition) == Text("delegated") || Get(n, Disposition) == Text("confirmed")
            || (Get(n, Disposition) == Text("unknown") && Get(n, Migration) == Text("legacy-v2"))
  {
    NormalizeMeaning(r);
    hide Normalize, Migrated, Said, Plain, Lower, Short, IsHigh, NamedRisk;
  }
}
