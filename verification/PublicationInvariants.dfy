/** What every run of staging, commit, recovery and pruning keeps, whatever prefix of each reaches the disk. */
module PublicationInvariants {
  import opened Wrappers
  import opened PublicationDisk
  import opened CrashRecovery

  // ---------------------------------------------------------------- the invariant

  predicate Selectable(d: Disk, p: Publication) {
    p.id in d.generations && Sound(d.generations[p.id], p.id)
  }

  /** Finished staging directories and surviving generations are sound; the pointer and the journalled
      predecessor name sound generations; a journal past the pointer move has a pointer. */
  ghost predicate Healthy(d: Disk) {
    && d.staging.Keys !! d.generations.Keys
    && (forall id :: id in d.staging && d.staging[id].manifest.Some? ==> Sound(d.staging[id], id))
    && (forall id :: id in d.generations ==> d.generations[id] == EMPTY_DIR || Sound(d.generations[id], id))
    && (d.pointer.Some? ==> Selectable(d, d.pointer.value))
    && (d.journal.Some? ==>
          && (d.journal.value.prior.Some? ==> Selectable(d, d.journal.value.prior.value))
          && (d.journal.value.phase == Pointer ==> d.pointer.Some?))
  }

  ghost predicate HealthyAlong(d: Disk, es: seq<Effect>)
    decreases |es|
  {
    Healthy(d) && (es != [] ==> HealthyAlong(Apply(d, es[0]), es[1..]))
  }

  lemma {:induction false} HealthyPrefix(d: Disk, es: seq<Effect>, k: nat)
    requires HealthyAlong(d, es) && k <= |es|
    ensures Healthy(Run(d, es[..k]))
    decreases |es|
  {
    if k > 0 {
      assert es[..k][0] == es[0] && es[..k][1..] == es[1..][..k - 1];
      HealthyPrefix(Apply(d, es[0]), es[1..], k - 1);
    }
  }

  lemma {:induction false} HealthyAppend(d: Disk, es: seq<Effect>, fs: seq<Effect>)
    requires HealthyAlong(d, es) && HealthyAlong(Run(d, es), fs)
    ensures HealthyAlong(d, es + fs)
    decreases |es|
  {
    if es == [] {
      assert es + fs == fs;
    } else {
      assert (es + fs)[0] == es[0] && (es + fs)[1..] == es[1..] + fs;
      HealthyAppend(Apply(d, es[0]), es[1..], fs);
    }
  }

  lemma HealthyCons(d: Disk, e: Effect, es: seq<Effect>)
    requires Healthy(d) && HealthyAlong(Apply(d, e), es)
    ensures HealthyAlong(d, [e] + es)
  {
  }

  // ---------------------------------------------------------------- materialization never hurts

  predicate OnlyLive(es: seq<Effect>) {
    forall e :: e in es ==> e.CopyInput? || e.DeleteInput? || e.PutGlb? || e.PutJson?
  }

  lemma {:induction false} CopiesLive(dir: Dir, inputs: seq<(Path, Hash)>)
    ensures OnlyLive(Copies(dir, inputs).0)
  {
    if inputs != [] { CopiesLive(dir, inputs[1..]); }
  }

  lemma {:induction false} DeletionsLive(paths: seq<Path>)
    ensures OnlyLive(Deletions(paths).0)
  {
    if paths != [] { DeletionsLive(paths[1..]); }
  }

  lemma MaterializationLive(dir: Dir, m: Manifest)
    ensures OnlyLive(Materialization(dir, m).0)
  {
    CopiesLive(dir, m.inputs);
    DeletionsLive(m.deletions);
  }

  lemma {:induction false} LiveAlong(d: Disk, es: seq<Effect>)
    requires Healthy(d) && OnlyLive(es)
    ensures HealthyAlong(d, es)
    ensures var d' := Run(d, es); d' == d.(workspace := d'.workspace, glb := d'.glb, json := d'.json)
    decreases |es|
  {
    if es != [] {
      assert es[0] in es;
      LiveStep(d, es[0]);
      hide Healthy;
      LiveAlong(Apply(d, es[0]), es[1..]);
    } else {
      HealthyNil(d);
    }
  }

  lemma LiveStep(d: Disk, e: Effect)
    requires Healthy(d) && (e.CopyInput? || e.DeleteInput? || e.PutGlb? || e.PutJson?)
    ensures Healthy(Apply(d, e))
    ensures var d' := Apply(d, e); d' == d.(workspace := d'.workspace, glb := d'.glb, json := d'.json)
  {
    hide Sound;
  }

  // ---------------------------------------------------------------- commit, recovery, pruning

  predicate NoRepeat(ids: seq<Id>) {
    ids == [] || (ids[0] !in ids[1..] && NoRepeat(ids[1..]))
  }

  lemma {:induction false} RemovalRun(d: Disk, ids: seq<Id>)
    ensures Run(d, RemovalEffects(ids)) == d.(generations := d.generations - (set id | id in ids))
    decreases |ids|
  {
    if ids == [] {
      assert d.generations - (set id | id in ids) == d.generations;
    } else {
      var d2 := Apply(Apply(d, EmptyGeneration(ids[0])), RemoveGeneration(ids[0]));
      var es := RemovalEffects(ids);
      assert es[0] == EmptyGeneration(ids[0]) && es[1..][0] == RemoveGeneration(ids[0]) && es[1..][1..] == RemovalEffects(ids[1..]);
      RemovalRun(d2, ids[1..]);
      assert d2.generations - (set x | x in ids[1..]) == d.generations - (set x | x in ids);
    }
  }

  lemma {:induction false} RemovalAlong(d: Disk, ids: seq<Id>)
    requires Healthy(d) && NoRepeat(ids) && forall id :: id in ids ==> id !in Protected(d) && id in d.generations
    ensures HealthyAlong(d, RemovalEffects(ids))
    decreases |ids|
  {
    if ids == [] {
      HealthyNil(d);
    } else {
      var id := ids[0];
      assert id in ids && NoRepeat(ids[1..]);
      var e1, e2 := EmptyGeneration(id), RemoveGeneration(id);
      RemovalHealthy(d, id);
      RemovalLeaves(d, ids);
      assert RemovalEffects(ids) == [e1, e2] + RemovalEffects(ids[1..]);
      hide *;
      var d1 := Apply(d, e1);
      RemovalAlong(Apply(d1, e2), ids[1..]);
      HealthyCons(d1, e2, RemovalEffects(ids[1..]));
      HealthyCons(d, e1, [e2] + RemovalEffects(ids[1..]));
      assert [e1, e2] + RemovalEffects(ids[1..]) == [e1] + ([e2] + RemovalEffects(ids[1..]));
    }
  }

  /** What is left to remove after the first. */
  lemma RemovalLeaves(d: Disk, ids: seq<Id>)
    requires ids != [] && NoRepeat(ids) && forall id :: id in ids ==> id !in Protected(d) && id in d.generations
    ensures var d2 := Apply(Apply(d, EmptyGeneration(ids[0])), RemoveGeneration(ids[0]));
            forall x :: x in ids[1..] ==> x !in Protected(d2) && x in d2.generations
  {
    var d2 := Apply(Apply(d, EmptyGeneration(ids[0])), RemoveGeneration(ids[0]));
    assert Protected(d2) == Protected(d);
    hide Protected;
    forall x | x in ids[1..]
      ensures x in d2.generations
    {
      assert x in ids;
    }
  }

  lemma RemovalHealthy(d: Disk, id: Id)
    requires Healthy(d) && id !in Protected(d) && id in d.generations
    ensures var d1 := Apply(d, EmptyGeneration(id));
            Healthy(d1) && Healthy(Apply(d1, RemoveGeneration(id)))
  {
    hide Sound;
  }

  lemma {:induction false} StaleDistinct(entries: seq<Id>, kept: set<Id>)
    requires forall i, j :: 0 <= i < j < |entries| ==> entries[i] != entries[j]
    ensures NoRepeat(Stale(entries, kept))
  {
    if entries != [] {
      StaleDistinct(entries[1..], kept);
    }
  }

  lemma PruneAlong(d: Disk, entries: seq<Id>, keep: nat)
    requires Healthy(d) && IsListing(d, entries)
    ensures HealthyAlong(d, PruneEffects(d, entries, keep))
    ensures Run(d, PruneEffects(d, entries, keep))
         == d.(generations := map id | id in d.generations && id in Kept(d, entries, keep) :: d.generations[id])
  {
    var ids := Stale(entries, Kept(d, entries, keep));
    StaleIds(d, entries, keep);
    StaleDistinct(entries, Kept(d, entries, keep));
    RemovalRun(d, ids);
    Survivors(d, entries, keep);
    hide Healthy, HealthyAlong, Kept, Stale, RemovalEffects, IsListing, NoRepeat, Run;
    RemovalAlong(d, ids);
  }

  lemma StaleIds(d: Disk, entries: seq<Id>, keep: nat)
    requires IsListing(d, entries)
    ensures forall id :: id in Stale(entries, Kept(d, entries, keep)) ==> id !in Protected(d) && id in d.generations
  {
    forall id | id in entries
      ensures id in d.generations
    {
      assert id in (set x | x in entries);
    }
  }

  lemma Survivors(d: Disk, entries: seq<Id>, keep: nat)
    requires IsListing(d, entries)
    ensures d.generations - (set id | id in Stale(entries, Kept(d, entries, keep)))
         == map id | id in d.generations && id in Kept(d, entries, keep) :: d.generations[id]
  {
    forall id | id in d.generations
      ensures id in entries
    {
      assert id in (set x | x in entries);
    }
    hide Kept, IsListing;
  }

  /** Materializing a sound generation, clearing the journal, and pruning for some listing. */
  lemma FinishHealthy(d: Disk, dir: Dir, id: Id, tail: seq<Effect>)
    requires Healthy(d) && Load(dir).Some? && Sound(dir, id)
    requires var d' := Run(d, Materialization(dir, Load(dir).value).0 + [DropJournal]);
             tail == [] || exists entries :: IsListing(d', entries) && tail == PruneEffects(d', entries, KEEP)
    ensures HealthyAlong(d, Materialization(dir, Load(dir).value).0 + [DropJournal] + tail)
  {
    hide *;
    var body := Materialization(dir, Load(dir).value).0;
    var es := body + [DropJournal];
    BodyHealthy(d, body, dir, Load(dir).value);
    var d1 := Run(d, body);
    var d2 := Apply(d1, DropJournal);
    DropKeepsHealth(d1);
    RunSnoc(d, body, DropJournal);
    if tail == [] {
      HealthyNil(d2);
    } else {
      var entries :| IsListing(d2, entries) && tail == PruneEffects(d2, entries, KEEP);
      PruneAlong(d2, entries, KEEP);
    }
    HealthyCons(d1, DropJournal, tail);
    HealthyAppend(d, body, [DropJournal] + tail);
    assert body + ([DropJournal] + tail) == es + tail;
  }

  lemma BodyHealthy(d: Disk, body: seq<Effect>, dir: Dir, m: Manifest)
    requires Healthy(d) && body == Materialization(dir, m).0
    ensures HealthyAlong(d, body) && Healthy(Run(d, body))
  {
    hide Materialization, Healthy;
    MaterializationLive(dir, m);
    LiveAlong(d, body);
    HealthyPrefix(d, body, |body|);
    assert body[..|body|] == body;
  }

  lemma DropKeepsHealth(d: Disk)
    requires Healthy(d)
    ensures Healthy(Apply(d, DropJournal))
  {
  }

  lemma PruningTail(d: Disk, head: seq<Effect>, rest: seq<Effect>, es: seq<Effect>) returns (tail: seq<Effect>)
    requires WithPruning(d, (head + rest, true), es)
    ensures es == head + (rest + tail)
    ensures exists entries :: IsListing(Run(Run(d, head), rest), entries)
                           && tail == PruneEffects(Run(Run(d, head), rest), entries, KEEP)
  {
    hide PruneEffects, IsListing;
    RunAppend(d, head, rest);
    var entries :| IsListing(Run(d, head + rest), entries)
                && es == head + rest + PruneEffects(Run(d, head + rest), entries, KEEP);
    tail := PruneEffects(Run(d, head + rest), entries, KEEP);
  }

  /** Commit, of any directory, on any healthy disk, even one with a journal pending. */
  lemma CommitHealthy(d: Disk, id: Id, es: seq<Effect>)
    requires Healthy(d) && CommitRun(d, id, es)
    ensures HealthyAlong(d, es)
  {
    var dir := Staged(d, id);
    if Load(dir).Some? {
      var m := Load(dir).value;
      var j := Journal(Some(id), m.publication, d.pointer, Intent);
      var head := CommitHead(j, [Promote(id, id)]);
      MaterializationSucceeds(dir, id);
      var rest := Materialization(dir, m).0 + [DropJournal];
      assert CommitEffects(d, id) == (head + rest, true) by {
        assert head + Materialization(dir, m).0 + [DropJournal] == head + rest;
      }
      CommitHeadHealthy(d, id, dir, j, head);
      hide *;
      var tail := PruningTail(d, head, rest, es);
      FinishHealthy(Run(d, head), dir, id, tail);
      HealthyAppend(d, head, rest + tail);
    }
  }

  lemma CommitHeadHealthy(d: Disk, id: Id, dir: Dir, j: Journal, head: seq<Effect>)
    requires Healthy(d) && id in d.staging && dir == d.staging[id] && Sound(dir, id)
    requires j == Journal(Some(id), Load(dir).value.publication, d.pointer, Intent) && head == CommitHead(j, [Promote(id, id)])
    ensures HealthyAlong(d, head) && Healthy(Run(d, head))
  {
    var e1, e2 := PutJournal(j), Promote(id, id);
    var e3, e4, e5 := PutJournal(j.(phase := Generation)), PutPointer(j.publication), PutJournal(j.(phase := Pointer));
    var d1 := Apply(d, e1);
    var d2 := Apply(d1, e2);
    var d3 := Apply(d2, e3);
    var d4 := Apply(d3, e4);
    var d5 := Apply(d4, e5);
    JournalHealthy(d, j);
    PromoteHealthy(d1, id, id, dir);
    JournalHealthy(d2, j.(phase := Generation));
    PointerHealthy(d3, j.publication);
    JournalHealthy(d4, j.(phase := Pointer));
    hide *;
    FiveHealthy(d, e1, e2, e3, e4, e5);
    HeadIs(j, e2, head);
    AlongTake(d, head, |head|);
    assert head[..|head|] == head;
  }

  lemma FiveHealthy(d: Disk, e1: Effect, e2: Effect, e3: Effect, e4: Effect, e5: Effect)
    requires Healthy(d) && Healthy(Apply(d, e1)) && Healthy(Apply(Apply(d, e1), e2))
    requires Healthy(Apply(Apply(Apply(d, e1), e2), e3)) && Healthy(Apply(Apply(Apply(Apply(d, e1), e2), e3), e4))
    requires Healthy(Apply(Apply(Apply(Apply(Apply(d, e1), e2), e3), e4), e5))
    ensures HealthyAlong(d, [e1] + ([e2] + ([e3] + ([e4] + ([e5] + [])))))
  {
    hide *;
    var d1 := Apply(d, e1);
    var d2 := Apply(d1, e2);
    var d3 := Apply(d2, e3);
    var d4 := Apply(d3, e4);
    HealthyNil(Apply(d4, e5));
    HealthyCons(d4, e5, []);
    HealthyCons(d3, e4, [e5] + []);
    HealthyCons(d2, e3, [e4] + ([e5] + []));
    HealthyCons(d1, e2, [e3] + ([e4] + ([e5] + [])));
    HealthyCons(d, e1, [e2] + ([e3] + ([e4] + ([e5] + []))));
  }

  lemma JournalHealthy(d: Disk, j: Journal)
    requires Healthy(d) && (j.phase == Pointer ==> d.pointer.Some?)
    requires j.prior.Some? ==> Selectable(d, j.prior.value)
    ensures Healthy(Apply(d, PutJournal(j)))
  {
  }

  lemma PromoteHealthy(d: Disk, from: Id, id: Id, dir: Dir)
    requires Healthy(d) && from in d.staging && d.staging[from] == dir && Sound(dir, id) && from == id
    ensures Healthy(Apply(d, Promote(from, id))) && Apply(d, Promote(from, id)).generations == d.generations[id := dir]
  {
    hide Sound;
  }

  lemma PointerHealthy(d: Disk, p: PublicationDisk.Publication)
    requires Healthy(d) && Selectable(d, p)
    ensures Healthy(Apply(d, PutPointer(p)))
  {
  }

  lemma HeadIs(j: Journal, e2: Effect, head: seq<Effect>)
    requires head == CommitHead(j, [e2])
    ensures head == [PutJournal(j)] + ([e2] + ([PutJournal(j.(phase := Generation))]
                    + ([PutPointer(j.publication)] + ([PutJournal(j.(phase := Pointer))] + []))))
  {
  }

  lemma HealthyNil(d: Disk)
    requires Healthy(d)
    ensures HealthyAlong(d, [])
  {
  }

  /** Recovery from any healthy disk, whatever I/O errors strike it and its fallback. */
  lemma RecoverHealthy(d: Disk, es: seq<Effect>, io: Option<nat>, back: Option<nat>)
    requires Healthy(d) && WithPruning(d, RecoverEffects(d, io, back), es)
    ensures HealthyAlong(d, es)
  {
    if d.pointer.Some? {
      SelectedHealthy(d, es, io, back);
    } else if d.journal.None? {
      HealthyNil(d);
    } else {
      var j := d.journal.value;
      if j.staged.None? || Load(RollForwardSource(d, j)).None? {
        assert es == [DropJournal];
        DropHealthy(d);
      } else {
        RollForwardHealthy(d, j, es, io);
      }
    }
  }

  /** Recovery of a selected publication: materialize and clear, or fall back from where an error struck. */
  lemma SelectedHealthy(d: Disk, es: seq<Effect>, io: Option<nat>, back: Option<nat>)
    requires Healthy(d) && d.pointer.Some? && es == RecoverEffects(d, io, back).0
    ensures HealthyAlong(d, es)
  {
    var id := d.pointer.value.id;
    var dir := d.generations[id];
    var body := Materialization(dir, Load(dir).value).0;
    var prior := if d.journal.Some? then d.journal.value.prior else None;
    SelectedShape(d, body, prior, io, back);
    MaterializationLive(dir, Load(dir).value);
    assert prior.Some? ==> Selectable(d, prior.value);
    hide *;
    if io.Some? && io.value <= |body| {
      CutHealthy(d, body, io.value, prior, back);
    } else {
      FinishHealthy(d, dir, id, []);
      assert body + [DropJournal] + [] == body + [DropJournal];
    }
  }

  /** The two ways a recovery of a healthy disk with a pointer can go. */
  lemma SelectedShape(d: Disk, body: seq<Effect>, prior: Option<PublicationDisk.Publication>, io: Option<nat>, back: Option<nat>)
    requires Healthy(d) && d.pointer.Some? && prior == if d.journal.Some? then d.journal.value.prior else None
    requires var dir := d.generations[d.pointer.value.id]; body == Materialization(dir, Load(dir).value).0
    ensures RecoverEffects(d, io, back) ==
            (if io.Some? && io.value <= |body| then body[..io.value] + FallbackEffects(Run(d, body[..io.value]), prior, back).0
             else body + [DropJournal], false)
  {
    MaterializationSucceeds(d.generations[d.pointer.value.id], d.pointer.value.id);
    hide Materialization, FallbackEffects, Run;
    var plan := (body + [DropJournal], true);
    if io.Some? && io.value <= |body| {
      assert plan.0[..io.value] == body[..io.value];
      assert Within(plan, io) == (body[..io.value], false);
    } else {
      assert Within(plan, io) == plan;
    }
  }

  /** Materialization up to an error, and the fallback from there. */
  lemma CutHealthy(d: Disk, body: seq<Effect>, k: nat, prior: Option<PublicationDisk.Publication>, back: Option<nat>)
    requires Healthy(d) && OnlyLive(body) && k <= |body| && (prior.Some? ==> Selectable(d, prior.value))
    ensures HealthyAlong(d, body[..k] + FallbackEffects(Run(d, body[..k]), prior, back).0)
  {
    assert OnlyLive(body[..k]);
    LiveAlong(d, body[..k]);
    var failed := Run(d, body[..k]);
    HealthyPrefix(d, body[..k], k);
    assert body[..k][..k] == body[..k];
    assert prior.Some? ==> Selectable(failed, prior.value);
    hide *;
    FallbackHealthy(failed, prior, back);
    HealthyAppend(d, body[..k], FallbackEffects(failed, prior, back).0);
  }

  lemma {:induction false} AlongTake(d: Disk, es: seq<Effect>, k: nat)
    requires HealthyAlong(d, es) && k <= |es|
    ensures HealthyAlong(d, es[..k]) && Healthy(Run(d, es[..k]))
    decreases |es|
  {
    HealthyPrefix(d, es, k);
    if k > 0 {
      AlongTake(Apply(d, es[0]), es[1..], k - 1);
      assert es[..k][0] == es[0] && es[..k][1..] == es[1..][..k - 1];
    }
  }

  /** The fallback to the journalled predecessor, cut anywhere by an error of its own. */
  lemma FallbackHealthy(d: Disk, prior: Option<PublicationDisk.Publication>, io: Option<nat>)
    requires Healthy(d) && (prior.Some? ==> Selectable(d, prior.value))
    ensures HealthyAlong(d, FallbackEffects(d, prior, io).0)
  {
    if prior.None? {
      HealthyNil(d);
    } else {
      var dir := d.generations[prior.value.id];
      var m := Load(dir).value;
      var body, tail := Materialization(dir, m).0, [PutPointer(m.publication), DropJournal];
      MaterializationSucceeds(dir, prior.value.id);
      MaterializationLive(dir, m);
      LiveAlong(d, body);
      BodyHealthy(d, body, dir, m);
      PointBack(Run(d, body), m.publication);
      assert FallbackEffects(d, prior, io) == Within((body + tail, true), io);
      hide *;
      HealthyAppend(d, body, tail);
      WithinTakes(d, body + tail, io);
    }
  }

  lemma WithinTakes(d: Disk, es: seq<Effect>, io: Option<nat>)
    requires HealthyAlong(d, es)
    ensures HealthyAlong(d, Within((es, true), io).0)
  {
    hide HealthyAlong;
    if io.Some? && io.value < |es| { AlongTake(d, es, io.value); }
  }

  lemma PointBack(d: Disk, p: PublicationDisk.Publication)
    requires Healthy(d) && Selectable(d, p)
    ensures HealthyAlong(d, [PutPointer(p), DropJournal])
  {
    var d1 := Apply(d, PutPointer(p));
    PointerHealthy(d, p);
    DropHealthy(d1);
    hide *;
    HealthyCons(d, PutPointer(p), [DropJournal]);
    assert [PutPointer(p)] + [DropJournal] == [PutPointer(p), DropJournal];
  }

  lemma DropHealthy(d: Disk)
    requires Healthy(d)
    ensures HealthyAlong(d, [DropJournal])
  {
  }

  lemma RollForwardHealthy(d: Disk, j: Journal, es: seq<Effect>, io: Option<nat>)
    requires Healthy(d) && d.journal == Some(j) && j.staged.Some? && Load(RollForwardSource(d, j)).Some?
    requires WithPruning(d, RollForwardEffects(d, j, io), es)
    ensures HealthyAlong(d, es)
  {
    var dir := RollForwardSource(d, j);
    var m := Load(dir).value;
    var head := RollForwardStart(d, j.staged.value, m.publication);
    var body := Materialization(dir, m).0;
    var d1 := Run(d, head);
    RollForwardHeadHealthy(d, j, dir, m, head);
    RollForwardShape(d, j, dir, m, io);
    assert Sound(dir, m.publication.id);
    hide *;
    if io.Some? && io.value < |head| {
      AlongTake(d, head, io.value);
      ThenDrop(d, head[..io.value]);
    } else if Rest(io, |head|).Some? && Rest(io, |head|).value < |body| {
      var k := Rest(io, |head|).value;
      BodyHealthy(d1, body, dir, m);
      AlongTake(d1, body, k);
      HealthyAppend(d, head, body[..k]);
    } else {
      var tail := PruningTail(d, head, body + [DropJournal], es);
      FinishHealthy(d1, dir, m.publication.id, tail);
      HealthyAppend(d, head, body + [DropJournal] + tail);
    }
  }

  lemma ThenDrop(d: Disk, es: seq<Effect>)
    requires HealthyAlong(d, es)
    ensures HealthyAlong(d, es + [DropJournal])
  {
    HealthyPrefix(d, es, |es|);
    assert es[..|es|] == es;
    DropHealthy(Run(d, es));
    hide HealthyAlong, Healthy;
    HealthyAppend(d, es, [DropJournal]);
  }

  /** The three ways a roll-forward of a healthy disk can go. */
  lemma RollForwardShape(d: Disk, j: Journal, dir: Dir, m: Manifest, io: Option<nat>)
    requires Healthy(d) && j.staged.Some? && dir == RollForwardSource(d, j) && Load(dir) == Some(m)
    ensures var head, body := RollForwardStart(d, j.staged.value, m.publication), Materialization(dir, m).0;
            RollForwardEffects(d, j, io) ==
            if io.Some? && io.value < |head| then (head[..io.value] + [DropJournal], false)
            else if Rest(io, |head|).Some? && Rest(io, |head|).value < |body| then (head + body[..Rest(io, |head|).value], false)
            else (head + (body + [DropJournal]), true)
  {
    hide Materialization;
    MaterializationSucceeds(dir, m.publication.id);
    var head, body := RollForwardStart(d, j.staged.value, m.publication), Materialization(dir, m).0;
    assert head + body + [DropJournal] == head + (body + [DropJournal]);
    assert forall es: seq<Effect> :: es + [] == es;
  }

  lemma RollForwardHeadHealthy(d: Disk, j: Journal, dir: Dir, m: Manifest, head: seq<Effect>)
    requires Healthy(d) && d.journal == Some(j) && j.staged.Some?
    requires dir == RollForwardSource(d, j) && Load(dir) == Some(m)
    requires head == RollForwardStart(d, j.staged.value, m.publication)
    ensures HealthyAlong(d, head) && Healthy(Run(d, head))
  {
    var id, from := m.publication.id, j.staged.value;
    var point := PutPointer(m.publication);
    var d1 := if id in d.generations then d else Apply(d, Promote(from, id));
    if id !in d.generations {
      assert from in d.staging && Sound(dir, from) && from == id;
      PromoteHealthy(d, from, id, dir);
    }
    PointerHealthy(d1, m.publication);
    assert head == if id in d.generations then [] + [point] else [Promote(from, id)] + [point];
    hide *;
    HealthyNil(Apply(d1, point));
    HealthyCons(d1, point, []);
    assert [point] + [] == [point] && [] + [point] == [point];
    if id !in d.generations { HealthyCons(d, Promote(from, id), [point]); }
    HealthyPrefix(d, head, |head|);
    assert head[..|head|] == head;
  }

  // ---------------------------------------------------------------- staging

  lemma KeysCons(e: (Path, Bytes), rest: seq<(Path, Bytes)>)
    ensures Keys([e] + rest) == {e.0} + Keys(rest)
    ensures DistinctKeys([e] + rest) <==> e.0 !in Keys(rest) && DistinctKeys(rest)
  {
    KeysOfCons(e, rest);
    KeyIndex(e.0, rest);
    hide Keys;
    var entries := [e] + rest;
    assert forall i :: 0 <= i < |rest| ==> entries[i + 1] == rest[i];
    if DistinctKeys(entries) {
      forall i, j | 0 <= i < j < |rest|
        ensures rest[i].0 != rest[j].0
      {
        assert entries[i + 1].0 != entries[j + 1].0;
      }
    }
    if e.0 in Keys(rest) {
      var i :| 0 <= i < |rest| && rest[i].0 == e.0;
      assert entries[i + 1].0 == entries[0].0;
    }
  }

  lemma KeysOfCons(e: (Path, Bytes), rest: seq<(Path, Bytes)>)
    ensures Keys([e] + rest) == {e.0} + Keys(rest)
  {
  }

  lemma KeyIndex(key: Path, entries: seq<(Path, Bytes)>)
    ensures key in Keys(entries) <==> exists i :: 0 <= i < |entries| && entries[i].0 == key
  {
  }

  lemma {:induction false} DictPutKeys(entries: seq<(Path, Bytes)>, key: Path, value: Bytes)
    requires DistinctKeys(entries)
    ensures DistinctKeys(DictPut(entries, key, value))
    ensures Keys(DictPut(entries, key, value)) == Keys(entries) + {key}
    decreases |entries|
  {
    if entries == [] {
      KeysCons((key, value), []);
      assert [(key, value)] + [] == [(key, value)];
    } else {
      var rest := entries[1..];
      assert entries == [entries[0]] + rest;
      KeysCons(entries[0], rest);
      hide Keys, DistinctKeys;
      if entries[0].0 == key {
        KeysCons((key, value), rest);
      } else {
        DictPutKeys(rest, key, value);
        KeysCons(entries[0], DictPut(rest, key, value));
      }
    }
  }

  lemma {:induction false} DigestsOf(entries: seq<(Path, Bytes)>)
    ensures |Digests(entries)| == |entries|
    ensures forall i :: 0 <= i < |entries| ==> Digests(entries)[i] == (entries[i].0, Sha256(entries[i].1))
  {
    if entries != [] {
      DigestsOf(entries[1..]);
    }
  }

  lemma DigestKeys(entries: seq<(Path, Bytes)>)
    ensures Keys(Digests(entries)) == Keys(entries)
  {
    DigestsOf(entries);
    forall e | e in entries
      ensures e.0 in Keys(Digests(entries))
    {
      var i :| 0 <= i < |entries| && entries[i] == e;
      assert Digests(entries)[i] in Digests(entries);
    }
    forall e | e in Digests(entries)
      ensures e.0 in Keys(entries)
    {
      var i :| 0 <= i < |entries| && Digests(entries)[i] == e;
      assert entries[i] in entries;
    }
  }

  lemma StageInputHealthy(d: Disk, id: Id, path: Path, data: Bytes)
    requires Healthy(d) && id in d.staging && d.staging[id].manifest.None?
    ensures var d' := Apply(d, StageInput(id, path, data));
            && Healthy(d') && id in d'.staging
            && d' == Stage(d, id, d.staging[id].(inputs := d.staging[id].inputs[path := data]))
  {
  }

  /** Writing the input files: only the staging directory grows, and it receives every entry. */
  lemma {:induction false} StageInputsRun(d: Disk, id: Id, entries: seq<(Path, Bytes)>)
    requires Healthy(d) && id in d.staging && d.staging[id].manifest.None? && DistinctKeys(entries)
    ensures var (es, ok) := StageInputs(id, entries);
            var d' := Run(d, es);
            && HealthyAlong(d, es) && Healthy(d')
            && id in d'.staging && d' == Stage(d, id, d'.staging[id])
            && d'.staging[id] == d.staging[id].(inputs := d'.staging[id].inputs)
            && (forall p :: p in d.staging[id].inputs && p !in Keys(entries) ==>
                  p in d'.staging[id].inputs && d'.staging[id].inputs[p] == d.staging[id].inputs[p])
            && (ok ==> forall e :: e in entries ==>
                  SafeRelative(e.0) && e.0 in d'.staging[id].inputs && d'.staging[id].inputs[e.0] == e.1)
    decreases |entries|
  {
    hide SafeRelative;
    var (es, ok) := StageInputs(id, entries);
    if es == [] {
      HealthyNil(d);
      assert d.staging[id := d.staging[id]] == d.staging;
    } else {
      var first, rest := entries[0], entries[1..];
      var e := StageInput(id, first.0, first.1);
      assert entries == [first] + rest;
      KeysCons(first, rest);
      StageInputHealthy(d, id, first.0, first.1);
      var d1 := Apply(d, e);
      var dir1 := d1.staging[id];
      hide Healthy, Apply, DistinctKeys, Keys;
      StageInputsRun(d1, id, rest);
      var es1 := StageInputs(id, rest).0;
      HealthyCons(d, e, es1);
      RunCons(d, e, es1);
      assert es == [e] + es1;
      StageTwice(d, id, dir1, Run(d1, es1).staging[id]);
    }
  }

  lemma StageTwice(d: Disk, id: Id, dir1: Dir, dir2: Dir)
    ensures Stage(Stage(d, id, dir1), id, dir2) == Stage(d, id, dir2)
  {
  }

  /** A directory that is still being staged may hold anything. */
  predicate Fresh(d: Disk, id: Id) { id !in d.staging && id !in d.generations }

  lemma StageHeadHealthy(d: Disk, r: Request)
    requires Healthy(d) && Fresh(d, r.publication.id)
    ensures var id := r.publication.id;
            var head := [MakeStaging(id), StageJson(id, r.json), StageGlb(id, r.glb)];
            && HealthyAlong(d, head) && Healthy(Run(d, head))
            && Run(d, head) == Stage(d, id, Dir(Some(r.json), Some(r.glb), map[], None))
  {
    var id := r.publication.id;
    var e1, e2, e3 := MakeStaging(id), StageJson(id, r.json), StageGlb(id, r.glb);
    var d1 := Apply(d, e1);
    var d2 := Apply(d1, e2);
    var d3 := Apply(d2, e3);
    UnfinishedHealthy(d, id, EMPTY_DIR);
    UnfinishedHealthy(d, id, EMPTY_DIR.(json := Some(r.json)));
    UnfinishedHealthy(d, id, Dir(Some(r.json), Some(r.glb), map[], None));
    StageTwice(d, id, EMPTY_DIR, EMPTY_DIR.(json := Some(r.json)));
    StageTwice(d, id, EMPTY_DIR.(json := Some(r.json)), Dir(Some(r.json), Some(r.glb), map[], None));
    assert d1 == Stage(d, id, EMPTY_DIR);
    assert d2 == Stage(d, id, EMPTY_DIR.(json := Some(r.json)));
    assert d3 == Stage(d, id, Dir(Some(r.json), Some(r.glb), map[], None));
    hide *;
    HealthyNil(d3);
    HealthyCons(d2, e3, []);
    HealthyCons(d1, e2, [e3] + []);
    HealthyCons(d, e1, [e2] + ([e3] + []));
    RunCons(d2, e3, []);
    RunCons(d1, e2, [e3] + []);
    RunCons(d, e1, [e2] + ([e3] + []));
    assert [e1, e2, e3] == [e1] + ([e2] + ([e3] + []));
    RunNil(d3);
  }

  lemma UnfinishedHealthy(d: Disk, id: Id, dir: Dir)
    requires Healthy(d) && id !in d.generations && dir.manifest.None?
    ensures Healthy(Stage(d, id, dir))
  {
    hide Sound;
  }

  lemma RunNil(d: Disk)
    ensures Run(d, []) == d
  {
  }

  /** The staging directory of a request, complete. */
  predicate StagedAs(d: Disk, r: Request, deletions: seq<Path>) {
    && r.publication.id in d.staging
    && var dir := d.staging[r.publication.id];
       && Sound(dir, r.publication.id) && Load(dir).value.publication == r.publication
       && dir.json == Some(r.json) && dir.glb == Some(r.glb)
       && Load(dir).value.inputs == Digests(FullWriteSet(r))
       && Load(dir).value.deletions == deletions
  }

  /** Staging touches nothing but its own directory, at any crash point, and when it completes that
      directory is sound, holds the request, and deletes exactly what the selected generation tracked
      and the request does not. */
  lemma StageHealthy(d: Disk, r: Request, deletions: seq<Path>)
    requires Healthy(d) && Fresh(d, r.publication.id) && DistinctKeys(r.writeSet) && ListsDeletions(d, r, deletions)
    ensures var (es, ok) := StageEffects(d, r, deletions);
            && HealthyAlong(d, es)
            && Run(d, es) == d.(staging := Run(d, es).staging)
            && (ok ==> StagedAs(Run(d, es), r, deletions))
  {
    var id := r.publication.id;
    if (r.source.Some? && r.publication.sourceHash != Sha256(r.source.value)) {
      HealthyNil(d);
    } else {
      var entries := FullWriteSet(r);
      var head := [MakeStaging(id), StageJson(id, r.json), StageGlb(id, r.glb)];
      var (inputs, ok) := StageInputs(id, entries);
      var d1 := Run(d, head);
      StageHeadHealthy(d, r);
      FullWriteSetDistinct(r);
      StageInputsRun(d1, id, entries);
      var d2 := Run(d1, inputs);
      RunAppend(d, head, inputs);
      HealthyAppend(d, head, inputs);
      assert d2 == d.(staging := d2.staging);
      if ok {
        var m := Manifest(r.publication, Sha256(r.json), Sha256(r.glb), Digests(entries), deletions);
        StageManifestHealthy(d, r, deletions, d2);
        StageSnoc(d, head + inputs, StageManifest(id, m));
        assert StageEffects(d, r, deletions) == (head + inputs + [StageManifest(id, m)], true);
      } else {
        assert StageEffects(d, r, deletions) == (head + inputs, false);
      }
    }
  }

  lemma StageSnoc(d: Disk, es: seq<Effect>, e: Effect)
    requires HealthyAlong(d, es) && Healthy(Apply(Run(d, es), e))
    ensures HealthyAlong(d, es + [e]) && Run(d, es + [e]) == Apply(Run(d, es), e)
  {
    hide Healthy, HealthyAlong, Apply;
    RunSnoc(d, es, e);
    HealthyPrefix(d, es, |es|);
    assert es[..|es|] == es;
    HealthyNil(Apply(Run(d, es), e));
    HealthyCons(Run(d, es), e, []);
    assert [e] + [] == [e];
    HealthyAppend(d, es, [e]);
  }

  lemma FullWriteSetDistinct(r: Request)
    requires DistinctKeys(r.writeSet)
    ensures DistinctKeys(FullWriteSet(r))
  {
    if r.modelPath.Some? {
      DictPutKeys(r.writeSet, r.modelPath.value, if r.source.Some? then r.source.value else "");
    }
  }

  lemma ListedDeletion(d: Disk, r: Request, deletions: seq<Path>, p: Path)
    requires ListsDeletions(d, r, deletions) && p in deletions
    ensures p in PublicationInputs(d) && p !in Keys(FullWriteSet(r))
  {
  }

  lemma TrackedSafe(d: Disk, p: Path)
    requires Healthy(d) && p in PublicationInputs(d)
    ensures SafeRelative(p)
  {
  }

  lemma StageManifestHealthy(d: Disk, r: Request, deletions: seq<Path>, d2: Disk)
    requires Healthy(d) && Healthy(d2) && Fresh(d, r.publication.id) && ListsDeletions(d, r, deletions)
    requires DistinctKeys(FullWriteSet(r))
    requires r.publication.id in d2.staging && r.publication.id !in d2.generations
    requires d2.staging[r.publication.id] == Dir(Some(r.json), Some(r.glb), d2.staging[r.publication.id].inputs, None)
    requires forall e :: e in FullWriteSet(r) ==>
               SafeRelative(e.0) && e.0 in d2.staging[r.publication.id].inputs
               && d2.staging[r.publication.id].inputs[e.0] == e.1
    ensures var m := Manifest(r.publication, Sha256(r.json), Sha256(r.glb), Digests(FullWriteSet(r)), deletions);
            var d3 := Apply(d2, StageManifest(r.publication.id, m));
            Healthy(d3) && d3 == d2.(staging := d3.staging) && StagedAs(d3, r, deletions)
  {
    var id := r.publication.id;
    var entries := FullWriteSet(r);
    var m := Manifest(r.publication, Sha256(r.json), Sha256(r.glb), Digests(entries), deletions);
    ManifestSound(d, r, deletions, d2.staging[id].(manifest := Some(m)));
    hide Sound, ListsDeletions, SafeRelative, Digests, FullWriteSet;
  }

  lemma ManifestSound(d: Disk, r: Request, deletions: seq<Path>, dir: Dir)
    requires Healthy(d) && ListsDeletions(d, r, deletions) && DistinctKeys(FullWriteSet(r))
    requires var m := Manifest(r.publication, Sha256(r.json), Sha256(r.glb), Digests(FullWriteSet(r)), deletions);
             dir == Dir(Some(r.json), Some(r.glb), dir.inputs, Some(m))
    requires forall e :: e in FullWriteSet(r) ==> SafeRelative(e.0) && e.0 in dir.inputs && dir.inputs[e.0] == e.1
    ensures Sound(dir, r.publication.id) && Load(dir) == dir.manifest
  {
    DigestsOf(FullWriteSet(r));
    DigestKeys(FullWriteSet(r));
    forall p | p in dir.manifest.value.deletions
      ensures SafeRelative(p) && p !in Keys(dir.manifest.value.inputs)
    {
      ListedDeletion(d, r, deletions, p);
      TrackedSafe(d, p);
    }
    hide Healthy;
  }

  // ---------------------------------------------------------------- every run

  /** The effects of one call: a staging, a commit, a recovery under any I/O errors, or a pruning. */
  ghost predicate Operation(d: Disk, es: seq<Effect>) {
    || (exists r: Request, deletions :: Fresh(d, r.publication.id) && DistinctKeys(r.writeSet) && ListsDeletions(d, r, deletions)
                            && es == StageEffects(d, r, deletions).0)
    || (exists id :: CommitRun(d, id, es))
    || (exists io, back :: WithPruning(d, RecoverEffects(d, io, back), es))
    || (exists entries, keep: nat :: IsListing(d, entries) && es == PruneEffects(d, entries, keep))
  }

  lemma OperationHealthy(d: Disk, es: seq<Effect>)
    requires Healthy(d) && Operation(d, es)
    ensures HealthyAlong(d, es)
  {
    hide Healthy, HealthyAlong, StageEffects, PruneEffects, IsListing, ListsDeletions, DistinctKeys, CommitRun, RecoverEffects, WithPruning, Fresh;
    if exists id :: CommitRun(d, id, es) {
      var id :| CommitRun(d, id, es);
      CommitHealthy(d, id, es);
    } else if exists io, back :: WithPruning(d, RecoverEffects(d, io, back), es) {
      var io, back :| WithPruning(d, RecoverEffects(d, io, back), es);
      RecoverHealthy(d, es, io, back);
    } else if exists entries, keep: nat :: IsListing(d, entries) && es == PruneEffects(d, entries, keep) {
      var entries, keep: nat :| IsListing(d, entries) && es == PruneEffects(d, entries, keep);
      PruneAlong(d, entries, keep);
    } else {
      var r: Request, deletions :| Fresh(d, r.publication.id) && DistinctKeys(r.writeSet) && ListsDeletions(d, r, deletions)
                       && es == StageEffects(d, r, deletions).0;
      StageHealthy(d, r, deletions);
    }
  }

  const EMPTY_DISK := Disk(map[], map[], None, None, map[], None, None)

  /** A run: each call performs some prefix of its effects, all of them or up to a crash. */
  ghost predicate Calls(d: Disk, calls: seq<(seq<Effect>, nat)>)
    decreases |calls|
  {
    calls == [] ||
    (var (es, k) := calls[0];
     Operation(d, es) && k <= |es| && Calls(Run(d, es[..k]), calls[1..]))
  }

  /** Every reachable disk: whatever was called and wherever it crashed, the pointer and the journalled
      predecessor, when present, name existing generations whose model files match their digests. */
  lemma {:induction false} ReachableHealthy(d: Disk, calls: seq<(seq<Effect>, nat)>)
    requires Healthy(d) && Calls(d, calls) && forall a :: a in calls ==> a.1 <= |a.0|
    ensures Healthy(AfterAttempts(d, calls))
    decreases |calls|
  {
    if calls != [] {
      var (es, k) := calls[0];
      OperationHealthy(d, es);
      HealthyPrefix(d, es, k);
      ReachableHealthy(Run(d, es[..k]), calls[1..]);
    }
  }

  lemma EmptyDiskHealthy()
    ensures Healthy(EMPTY_DISK) && Quiescent(EMPTY_DISK)
  {
  }

  /** On a healthy disk with a pointer, a recovery that completes needs no fallback: the pointer stays,
      the journal goes, and workspace and mirrors show the selected generation. */
  lemma RecoveryShowsSelected(d: Disk, es: seq<Effect>)
    requires Healthy(d) && d.pointer.Some? && RecoverRun(d, es)
    ensures var d' := Run(d, es);
            && d'.pointer == d.pointer && d'.journal.None? && d'.generations == d.generations
            && Shows(d', d'.generations[d.pointer.value.id])
  {
    var id := d.pointer.value.id;
    var dir := d.generations[id];
    MaterializationSucceeds(dir, id);
    MaterializationReachesTarget(d, dir, id);
    var body := Materialization(dir, Load(dir).value).0;
    assert es == body + [DropJournal];
    RunSnoc(d, body, DropJournal);
    TargetMatches(d.workspace, dir, id);
    hide RecoverRun, Healthy, Materialization, Target, MatchesWorkspace, Sound;
  }

  /** A completed staging against a quiescent disk can be committed, and crash atomicity applies to it. */
  lemma StagedIsCommittable(d: Disk, r: Request, deletions: seq<Path>)
    requires Healthy(d) && Quiescent(d) && Fresh(d, r.publication.id)
    requires DistinctKeys(r.writeSet) && ListsDeletions(d, r, deletions) && StageEffects(d, r, deletions).1
    ensures var d' := Run(d, StageEffects(d, r, deletions).0);
            && StagedAs(d', r, deletions)
            && Commit(d', r.publication.id, d'.staging[r.publication.id]).Valid()
  {
    StageHealthy(d, r, deletions);
  }

  // ---------------------------------------------------------------- pruning

  lemma {:induction false} AtMost(ids: set<Id>, entries: seq<Id>)
    requires forall id :: id in ids ==> id in entries
    ensures |ids| <= |entries|
    decreases |entries|
  {
    if entries != [] {
      var last := entries[|entries| - 1];
      var rest := entries[..|entries| - 1];
      AtMost(ids - {last}, rest);
      assert last in ids ==> |ids| == |ids - {last}| + 1;
      if last !in ids { assert ids - {last} == ids; }
    } else {
      assert ids == {};
    }
  }

  /** A completed pruning keeps the selected generation, the journalled predecessor and the `keep`
      newest untouched, removes every other one, changes nothing else, and leaves at most `keep + 2`. */
  lemma PruneBound(d: Disk, entries: seq<Id>, keep: nat)
    requires Healthy(d) && IsListing(d, entries)
    ensures var d' := Run(d, PruneEffects(d, entries, keep));
            && d' == d.(generations := d'.generations) && |d'.generations| <= keep + 2
            && forall id :: (id in d'.generations <==>
                               id in d.generations && (id in Protected(d) || id in entries[..Min(keep, |entries|)]))
                         && (id in d'.generations ==> d'.generations[id] == d.generations[id])
  {
    PruneAlong(d, entries, keep);
    var d' := Run(d, PruneEffects(d, entries, keep));
    var newest := entries[..Min(keep, |entries|)];
    var listed := (if d.pointer.Some? then [d.pointer.value.id] else [])
                  + (if d.journal.Some? && d.journal.value.prior.Some? then [d.journal.value.prior.value.id] else [])
                  + newest;
    forall id | id in d'.generations.Keys
      ensures id in listed
    {
    }
    AtMost(d'.generations.Keys, listed);
  }
}
