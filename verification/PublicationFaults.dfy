/** The set_params guard and the fallback of recovery, on the disks a commit leaves (paths.py, session.py). */
module PublicationFaults {
  import opened Wrappers
  import opened PublicationDisk
  import opened CrashRecovery
  import opened PublicationInvariants

  // ---------------------------------------------------------------- the stale-mirror guard

  /** `stale_mirror_matches_prior_source`. */
  predicate StaleMirrorMatchesPriorSource(d: Disk, relative: Path, diskHash: Hash, sourceHash: Hash) {
    && d.pointer.Some? && d.pointer.value.sourceHash == sourceHash && d.journal.Some?
    && d.journal.value.phase == Pointer
    && d.journal.value.publication.id == d.pointer.value.id
    && d.journal.value.prior.Some?
    && var m := GenerationDir(d, d.journal.value.prior.value.id).manifest;
       m.Some? && (relative, diskHash) in m.value.inputs
  }

  /** `_check_model_unchanged`: whether `set_params` may go ahead. */
  predicate CheckModelUnchanged(d: Disk, modelPath: Option<Path>, modelHash: Option<Hash>) {
    || modelHash.None? || modelPath.None? || modelPath.value !in d.workspace
    || Sha256(d.workspace[modelPath.value]) == modelHash.value
    || StaleMirrorMatchesPriorSource(d, modelPath.value, Sha256(d.workspace[modelPath.value]), modelHash.value)
  }

  /** The journal says that the selected publication may not have reached the workspace yet. */
  predicate MirrorsPending(d: Disk) {
    && d.pointer.Some? && d.journal.Some? && d.journal.value.phase == Pointer
    && d.journal.value.publication.id == d.pointer.value.id && d.journal.value.prior.Some?
  }

  /** Asked with the source hash of the selected publication, the guard rejects exactly the bytes that are not the
      selected ones, nor, while the mirrors are pending, those of the prior publication. */
  lemma GuardExact(d: Disk, path: Path)
    requires Healthy(d) && d.pointer.Some? && path in d.workspace
    requires (path, d.pointer.value.sourceHash) in Load(d.generations[d.pointer.value.id]).value.inputs
    ensures CheckModelUnchanged(d, Some(path), Some(d.pointer.value.sourceHash)) <==>
              || d.workspace[path] == d.generations[d.pointer.value.id].inputs[path]
              || (MirrorsPending(d)
                  && var previous := d.generations[d.journal.value.prior.value.id];
                     path in Keys(Load(previous).value.inputs) && d.workspace[path] == previous.inputs[path])
  {
    if MirrorsPending(d) {
      var prior := d.journal.value.prior.value.id;
      StaleEntry(d.generations[prior], prior, path, d.workspace[path]);
    }
  }

  /** The guard looks the bytes up in the manifest of the prior generation, whose digests are those of its files. */
  lemma StaleEntry(dir: Dir, id: Id, path: Path, data: Bytes)
    requires Sound(dir, id)
    ensures (path, Sha256(data)) in Load(dir).value.inputs <==>
              path in Keys(Load(dir).value.inputs) && data == dir.inputs[path]
  {
    if path in Keys(Load(dir).value.inputs) { TrackedInput(dir, id, path); }
    if (path, Sha256(data)) in Load(dir).value.inputs {
      assert (path, Sha256(data)).0 in Keys(Load(dir).value.inputs);
    }
  }

  // ---------------------------------------------------------------- the guard during a commit

  function OldDir(c: CrashRecovery.Commit): Dir
    requires c.Valid() && c.start.pointer.Some?
  {
    c.start.generations[c.start.pointer.value.id]
  }

  function Body(c: CrashRecovery.Commit): seq<Effect>
    requires c.Valid()
  {
    Materialization(c.dir, Load(c.dir).value).0
  }

  /** The new publication is selected and its files are on their way; the journal knows the old one, which is kept. */
  ghost predicate Pending(c: CrashRecovery.Commit, d: Disk)
    requires c.Valid()
  {
    && After(c, d) && c.start.pointer.Some? && d.journal.Some?
    && d.journal.value.(phase := Pointer) == Journal(Some(c.id), c.Publication(), c.start.pointer, Pointer)
    && c.start.pointer.value.id in d.generations && d.generations[c.start.pointer.value.id] == OldDir(c)
  }

  function Head(c: CrashRecovery.Commit): seq<Effect>
    requires c.Valid()
  {
    CommitHead(Journal(Some(c.id), c.Publication(), c.start.pointer, Intent), [Promote(c.id, c.id)])
  }

  /** The first five effects of a commit. Only after the fourth does the pointer move, and only after the fifth does
      the journal say so. */
  lemma HeadStates(c: CrashRecovery.Commit, k: nat)
    requires c.Valid() && c.start.pointer.Some? && k <= 5
    ensures |Head(c)| == 5
    ensures var d := Run(c.start, Head(c)[..k]);
            && d.workspace == c.start.workspace
            && (k <= 3 ==> d.pointer == c.start.pointer)
            && (k >= 4 ==> Pending(c, d))
            && (k == 4 ==> d.journal.value.phase == Generation) && (k == 5 ==> d.journal.value.phase == Pointer)
  {
    var j := Journal(Some(c.id), c.Publication(), c.start.pointer, Intent);
    var e1, e2 := PutJournal(j), Promote(c.id, c.id);
    var e3, e4, e5 := PutJournal(j.(phase := Generation)), PutPointer(c.Publication()), PutJournal(j.(phase := Pointer));
    assert Head(c) == [e1, e2, e3, e4, e5];
    var d1 := Apply(c.start, e1);
    var d2 := Apply(d1, e2);
    var d3 := Apply(d2, e3);
    var d4 := Apply(d3, e4);
    var d5 := Apply(d4, e5);
    assert Pending(c, d4) && Pending(c, d5);
    assert d3.pointer == c.start.pointer && d3.workspace == c.start.workspace;
    assert d2.pointer == c.start.pointer && d2.workspace == c.start.workspace;
    assert d4.journal.value.phase == Generation && d5.journal.value.phase == Pointer;
    hide *;
    FirstFive(c.start, e1, e2, e3, e4, e5);
    assert k in {0, 1, 2, 3, 4, 5};
  }

  lemma FirstFive(d: Disk, e1: Effect, e2: Effect, e3: Effect, e4: Effect, e5: Effect)
    ensures var es := [e1, e2, e3, e4, e5];
            && Run(d, es[..0]) == d && Run(d, es[..1]) == Apply(d, e1)
            && Run(d, es[..2]) == Apply(Apply(d, e1), e2)
            && Run(d, es[..3]) == Apply(Apply(Apply(d, e1), e2), e3)
            && Run(d, es[..4]) == Apply(Apply(Apply(Apply(d, e1), e2), e3), e4)
            && Run(d, es[..5]) == Apply(Apply(Apply(Apply(Apply(d, e1), e2), e3), e4), e5)
  {
    hide Apply;
    var es := [e1, e2, e3, e4, e5];
    RunNil(d);
    forall i: nat | i < 5
      ensures Run(d, es[..i + 1]) == Apply(Run(d, es[..i]), es[i])
    {
      assert es[..i + 1] == es[..i] + [es[i]];
      RunSnoc(d, es[..i], es[i]);
    }
  }

  /** Copying the files of a pending publication leaves it pending, and its journal alone. */
  lemma PendingWhileCopying(c: CrashRecovery.Commit, d: Disk, k: nat)
    requires c.Valid() && Pending(c, d) && k <= |Body(c)|
    ensures var d' := Run(d, Body(c)[..k]); Pending(c, d') && d'.journal == d.journal
  {
    var es := Body(c)[..k];
    MaterializationSucceeds(c.dir, c.id);
    assert AllRestore(es, c.dir);
    AlongNewMaterialization(c, d, es);
    RestoringRun(d, c.dir, es);
  }

  /** A commit is its head, the copies, and once the journal is cleared only removals. */
  lemma CommitSplit(c: CrashRecovery.Commit, es: seq<Effect>) returns (ids: seq<Id>)
    requires c.Valid() && CommitRun(c.start, c.id, es)
    ensures es == Head(c) + (Body(c) + ([DropJournal] + RemovalEffects(ids)))
  {
    CommitCore(c);
    var core := Head(c) + (Body(c) + [DropJournal]);
    assert CommitEffects(c.start, c.id) == (core, true);
    hide *;
    ids := RemovalsOf(c.start, c.id, core, es);
    Regroup(Head(c), Body(c), [DropJournal], RemovalEffects(ids));
  }

  lemma RemovalsOf(d: Disk, id: Id, core: seq<Effect>, es: seq<Effect>) returns (ids: seq<Id>)
    requires CommitRun(d, id, es) && CommitEffects(d, id) == (core, true)
    ensures es == core + RemovalEffects(ids)
  {
    hide CommitEffects, IsListing, Kept, Stale, Run;
    var entries :| IsListing(Run(d, core), entries) && es == core + PruneEffects(Run(d, core), entries, KEEP);
    ids := Stale(entries, Kept(Run(d, core), entries, KEEP));
  }

  lemma Regroup(a: seq<Effect>, b: seq<Effect>, c: seq<Effect>, d: seq<Effect>)
    ensures a + (b + c) + d == a + (b + (c + d))
  {
  }

  lemma RunSplit(d: Disk, es: seq<Effect>, fs: seq<Effect>, k: nat)
    requires |es| <= k <= |es| + |fs|
    ensures Run(d, (es + fs)[..k]) == Run(Run(d, es), fs[..k - |es|])
  {
    assert (es + fs)[..k] == es + fs[..k - |es|];
    RunAppend(d, es, fs[..k - |es|]);
  }

  lemma RunCut(d: Disk, head: seq<Effect>, body: seq<Effect>, rest: seq<Effect>, k: nat)
    requires |head| <= k <= |head| + |body|
    ensures Run(d, (head + (body + rest))[..k]) == Run(Run(d, head), body[..k - |head|])
  {
    hide Run;
    RunSplit(d, head, body + rest, k);
    assert (body + rest)[..k - |head|] == body[..k - |head|];
  }

  lemma RunPast(d: Disk, head: seq<Effect>, body: seq<Effect>, e: Effect, rest: seq<Effect>, k: nat)
    requires |head| + |body| < k <= |head| + |body| + 1 + |rest|
    ensures Run(d, (head + (body + ([e] + rest)))[..k])
         == Run(Run(Run(Run(d, head), body), [e]), rest[..k - |head| - |body| - 1])
  {
    hide Run;
    RunSplit(d, head, body + ([e] + rest), k);
    RunSplit(Run(d, head), body, [e] + rest, k - |head|);
    RunSplit(Run(Run(d, head), body), [e], rest, k - |head| - |body|);
  }

  /** From the pointer move to the clearing of the journal a commit's disk is pending, with the journal one write
      behind at first. */
  lemma PendingDuringCommit(c: CrashRecovery.Commit, es: seq<Effect>, k: nat)
    requires c.Valid() && c.start.pointer.Some? && CommitRun(c.start, c.id, es) && 4 <= k <= 5 + |Body(c)|
    ensures k <= |es|
    ensures var d := Run(c.start, es[..k]);
            Pending(c, d) && (d.journal.value.phase == Pointer <==> k >= 5) && (k == 4 ==> d.workspace == c.start.workspace)
  {
    var ids := CommitSplit(c, es);
    HeadStates(c, if k == 4 then 4 else 5);
    var head, body, rest := Head(c), Body(c), [DropJournal] + RemovalEffects(ids);
    assert |es| >= 5 + |body| && es[..4] == head[..4] && head[..5] == head;
    hide *;
    if k > 4 {
      RunCut(c.start, head, body, rest, k);
      PendingWhileCopying(c, Run(c.start, head), k - 5);
    }
  }

  /** So it is during a recovery, until that clears the journal. */
  lemma PendingDuringRecovery(c: CrashRecovery.Commit, d: Disk, es: seq<Effect>, k: nat)
    requires c.Valid() && Pending(c, d) && RecoverRun(d, es) && k < |es|
    ensures Pending(c, Run(d, es[..k])) && Run(d, es[..k]).journal == d.journal
  {
    MaterializationSucceeds(c.dir, c.id);
    assert es == Body(c) + [DropJournal];
    assert es[..k] == Body(c)[..k];
    PendingWhileCopying(c, d, k);
  }

  /** A model file that both publications track, asked for on a pending disk. */
  lemma GuardPending(c: CrashRecovery.Commit, d: Disk, path: Path)
    requires c.Valid() && Pending(c, d) && path in Keys(Load(OldDir(c)).value.inputs)
    requires (path, c.Publication().sourceHash) in Load(c.dir).value.inputs
    ensures path in d.workspace
    ensures CheckModelUnchanged(d, Some(path), Some(c.Publication().sourceHash)) <==>
              d.journal.value.phase == Pointer || d.workspace[path] == c.dir.inputs[path]
  {
    var prior := c.start.pointer.value.id;
    TrackedInput(OldDir(c), prior, path);
    InInputs(c.dir, c.id, path, c.Publication().sourceHash);
    assert Same(d.workspace, c.start.workspace, path) || Same(d.workspace, c.Published(), path);
    StaleEntry(OldDir(c), prior, path, d.workspace[path]);
  }

  lemma InInputs(dir: Dir, id: Id, path: Path, hash: Hash)
    requires Sound(dir, id) && (path, hash) in Load(dir).value.inputs
    ensures path in Keys(Load(dir).value.inputs) && path in dir.inputs && hash == Sha256(dir.inputs[path])
  {
    assert (path, hash).0 in Keys(Load(dir).value.inputs);
  }

  /** The guard throughout a commit: asked with the source hash of whatever is selected after `k` effects, it lets a model
      file of both publications through at every point but one. Between the pointer move and the journal write after
      it, the guard does so exactly when the commit leaves the file as it is. */
  lemma GuardDuringCommit(c: CrashRecovery.Commit, es: seq<Effect>, k: nat, path: Path)
    requires c.Valid() && c.start.pointer.Some? && CommitRun(c.start, c.id, es) && k <= |es|
    requires (path, c.start.pointer.value.sourceHash) in Load(OldDir(c)).value.inputs
    requires (path, c.Publication().sourceHash) in Load(c.dir).value.inputs
    ensures var d := Run(c.start, es[..k]);
            && d.pointer.Some? && path in d.workspace
            && (CheckModelUnchanged(d, Some(path), Some(d.pointer.value.sourceHash)) <==>
                  k != 4 || c.start.workspace[path] == c.dir.inputs[path])
  {
    InInputs(OldDir(c), c.start.pointer.value.id, path, c.start.pointer.value.sourceHash);
    if k <= 3 {
      var ids := CommitSplit(c, es);
      HeadStates(c, k);
      assert es[..k] == Head(c)[..k];
    } else if k <= 5 + |Body(c)| {
      PendingDuringCommit(c, es, k);
      GuardPending(c, Run(c.start, es[..k]), path);
    } else {
      DoneDuringCommit(c, es, k);
      InInputs(c.dir, c.id, path, c.Publication().sourceHash);
    }
  }

  /** Once its journal is cleared, a commit changes neither pointer nor workspace. */
  lemma DoneDuringCommit(c: CrashRecovery.Commit, es: seq<Effect>, k: nat)
    requires c.Valid() && c.start.pointer.Some? && CommitRun(c.start, c.id, es) && 5 + |Body(c)| < k <= |es|
    ensures var d := Run(c.start, es[..k]); d.pointer == Some(c.Publication()) && d.workspace == c.Published()
  {
    var ids := CommitSplit(c, es);
    HeadStates(c, 5);
    var d5 := Run(c.start, Head(c));
    assert Head(c)[..5] == Head(c);
    PublishedThen(c, d5);
    var head, body, tail := Head(c), Body(c), RemovalEffects(ids);
    hide *;
    RunPast(c.start, head, body, DropJournal, tail, k);
    OnlyRemovals(ids);
    RemovalsKeep(Run(Run(d5, body), [DropJournal]), tail[..k - 6 - |body|]);
  }

  lemma PublishedThen(c: CrashRecovery.Commit, d: Disk)
    requires c.Valid() && Pending(c, d)
    ensures var d' := Run(Run(d, Body(c)), [DropJournal]); d'.pointer == Some(c.Publication()) && d'.workspace == c.Published()
  {
    MaterializationReachesTarget(d, c.dir, c.id);
  }

  lemma {:induction false} OnlyRemovals(ids: seq<Id>)
    ensures forall e :: e in RemovalEffects(ids) ==> e.EmptyGeneration? || e.RemoveGeneration?
  {
    if ids != [] { OnlyRemovals(ids[1..]); }
  }

  lemma {:induction false} RemovalsKeep(d: Disk, es: seq<Effect>)
    requires forall e :: e in es ==> e.EmptyGeneration? || e.RemoveGeneration?
    ensures Run(d, es) == d.(generations := Run(d, es).generations)
    decreases |es|
  {
    if es != [] {
      assert es[0] in es;
      RemovalsKeep(Apply(d, es[0]), es[1..]);
    }
  }

  // ---------------------------------------------------------------- I/O errors during recovery

  /** The deletions of a commit come from the inputs of the publication it was staged against. */
  ghost predicate StagedAgainst(c: CrashRecovery.Commit)
    requires c.Valid() && c.start.pointer.Some?
  {
    forall q :: q in Load(c.dir).value.deletions ==> q in Keys(Load(OldDir(c)).value.inputs)
  }

  /** What only the new publication tracks, and the old one does not delete either. */
  ghost predicate Added(c: CrashRecovery.Commit, p: Path)
    requires c.Valid() && c.start.pointer.Some?
  {
    && p in Keys(Load(c.dir).value.inputs)
    && p !in Keys(Load(OldDir(c)).value.inputs) && p !in Load(OldDir(c)).value.deletions
  }

  /** A recovery of the selected publication that meets an I/O error after `j` file operations, or in clearing the
      journal, turns to the prior one. */
  lemma RecoverCut(d: Disk, dir: Dir, id: Id, j: nat)
    requires d.pointer.Some? && d.pointer.value.id == id && GenerationDir(d, id) == dir && Sound(dir, id) && d.journal.Some?
    requires j <= |Materialization(dir, Load(dir).value).0|
    ensures var done := Materialization(dir, Load(dir).value).0[..j];
            RecoverEffects(d, Some(j)).0 == done + FallbackEffects(Run(d, done), d.journal.value.prior).0
  {
    MaterializationSucceeds(dir, id);
    var body := Materialization(dir, Load(dir).value).0;
    hide Materialization, FallbackEffects, Sound;
    var plan := (body + [DropJournal], true);
    assert Chain(Materialization(dir, Load(dir).value), ([DropJournal], true)) == plan;
    assert plan.0[..j] == body[..j];
    assert Within(plan, Some(j)) == (body[..j], false);
  }

  /** Where the fallback ends when the error strikes after `j` operations. */
  lemma FallbackAt(c: CrashRecovery.Commit, d: Disk, j: nat)
    requires c.Valid() && Healthy(d) && Pending(c, d) && StagedAgainst(c) && j <= |Body(c)|
    ensures var failed := Run(d, Body(c)[..j]);
            var end := Run(d, RecoverEffects(d, Some(j)).0);
            && OldOrNew(c, failed.workspace)
            && end.pointer == c.start.pointer && end.journal.None?
            && end.glb == c.start.glb && end.json == c.start.json
            && (end.workspace == c.start.workspace <==>
                  forall p :: Added(c, p) ==> Same(failed.workspace, c.start.workspace, p))
  {
    var p0 := c.start.pointer.value;
    var done := Body(c)[..j];
    var failed := Run(d, done);
    PendingWhileCopying(c, d, j);
    RecoverCut(d, c.dir, c.id, j);
    FallbackEnd(failed, p0, OldDir(c));
    FallbackFiles(c, failed);
    OldShown(c);
    assert OldOrNew(c, failed.workspace);
    hide *;
    RunAppend(d, done, FallbackEffects(failed, Some(p0)).0);
  }

  lemma OldShown(c: CrashRecovery.Commit)
    requires c.Valid() && c.start.pointer.Some?
    ensures var p := c.start.pointer.value;
            && Sound(OldDir(c), p.id) && Load(OldDir(c)).value.publication == p
            && c.start.glb == OldDir(c).glb && c.start.json == OldDir(c).json
  {
  }

  function AfterFallback(d: Disk, j: nat): Disk { Run(d, RecoverEffects(d, Some(j)).0) }

  /** A recovery that fails with an I/O error goes back to the prior publication. Wherever the error strikes, pointer
      and mirrors are the old ones again. The workspace is the old one, wherever the error strikes, exactly when
      every file the commit adds was there before with the bytes the commit gives it. */
  lemma FallbackExact(c: CrashRecovery.Commit, d: Disk)
    requires c.Valid() && Healthy(d) && Pending(c, d) && StagedAgainst(c)
    ensures forall j: nat :: j <= |Body(c)| ==>
              var end := AfterFallback(d, j);
              && end.pointer == c.start.pointer && end.journal.None? && end.glb == c.start.glb && end.json == c.start.json
    ensures (forall j: nat :: j <= |Body(c)| ==> AfterFallback(d, j).workspace == c.start.workspace)
       <==> forall p :: Added(c, p) ==> Same(c.start.workspace, c.Published(), p)
  {
    forall j: nat | j <= |Body(c)|
      ensures var end := AfterFallback(d, j);
              && end.pointer == c.start.pointer && end.journal.None? && end.glb == c.start.glb && end.json == c.start.json
      ensures (forall p :: Added(c, p) ==> Same(c.start.workspace, c.Published(), p)) ==>
                AfterFallback(d, j).workspace == c.start.workspace
    {
      FallbackAt(c, d, j);
      hide Added, Pending, RecoverEffects;
    }
    var whole := |Body(c)|;
    FallbackAt(c, d, whole);
    AllCopied(c, d);
    hide Added, Pending, RecoverEffects;
    if AfterFallback(d, whole).workspace == c.start.workspace {
      forall p | Added(c, p)
        ensures Same(c.start.workspace, c.Published(), p)
      {
        assert Same(c.Published(), c.start.workspace, p);
      }
    }
  }

  lemma AllCopied(c: CrashRecovery.Commit, d: Disk)
    requires c.Valid() && Pending(c, d)
    ensures Run(d, Body(c)[..|Body(c)|]).workspace == c.Published()
  {
    assert Body(c)[..|Body(c)|] == Body(c);
    MaterializationReachesTarget(d, c.dir, c.id);
  }

  /** A fallback that runs to its end materializes the prior publication and selects it. */
  lemma PriorComesBack(d: Disk, p: PublicationDisk.Publication, dir: Dir)
    requires p.id in d.generations && d.generations[p.id] == dir && Sound(dir, p.id)
    ensures Run(d, FallbackEffects(d, Some(p)).0)
         == d.(workspace := Target(d.workspace, dir), glb := dir.glb, json := dir.json,
               pointer := Some(Load(dir).value.publication), journal := None)
  {
    var q := Load(dir).value.publication;
    MaterializationSucceeds(dir, p.id);
    MaterializationReachesTarget(d, dir, p.id);
    var back := Materialization(dir, Load(dir).value).0;
    var shown := Run(d, back);
    assert FallbackEffects(d, Some(p)) == (back + [PutPointer(q), DropJournal], true);
    PointAndDrop(shown, q);
    hide *;
    RunAppend(d, back, [PutPointer(q), DropJournal]);
  }

  lemma PointAndDrop(d: Disk, q: PublicationDisk.Publication)
    ensures Run(d, [PutPointer(q), DropJournal]) == d.(pointer := Some(q), journal := None)
  {
    RunCons(d, PutPointer(q), [DropJournal]);
    RunCons(Apply(d, PutPointer(q)), DropJournal, []);
    assert [PutPointer(q), DropJournal] == [PutPointer(q)] + [DropJournal] && [DropJournal] + [] == [DropJournal];
  }

  lemma FallbackEnd(d: Disk, p: PublicationDisk.Publication, dir: Dir)
    requires p.id in d.generations && d.generations[p.id] == dir && Sound(dir, p.id) && Load(dir).value.publication == p
    ensures var (es, ok) := FallbackEffects(d, Some(p));
            ok && Run(d, es) == d.(workspace := Target(d.workspace, dir), glb := dir.glb, json := dir.json,
                                   pointer := Some(p), journal := None)
  {
    MaterializationSucceeds(dir, p.id);
    assert FallbackEffects(d, Some(p)).1;
    hide FallbackEffects, Materialization, Sound, Load, Target;
    PriorComesBack(d, p, dir);
  }

  lemma FallbackFiles(c: CrashRecovery.Commit, failed: Disk)
    requires c.Valid() && c.start.pointer.Some? && StagedAgainst(c) && OldOrNew(c, failed.workspace)
    ensures Target(failed.workspace, OldDir(c)) == c.start.workspace <==>
              forall p :: Added(c, p) ==> Same(failed.workspace, c.start.workspace, p)
  {
    var end := Target(failed.workspace, OldDir(c));
    forall p
      ensures if Added(c, p) then Same(end, failed.workspace, p) else Same(end, c.start.workspace, p)
    {
      FallbackFileAt(c, failed, p);
    }
    hide Added, Target, StagedAgainst, OldOrNew;
    if forall p :: Added(c, p) ==> Same(failed.workspace, c.start.workspace, p) {
      forall p
        ensures Same(end, c.start.workspace, p)
      {
      }
      MapsAgree(end, c.start.workspace);
    }
  }

  lemma FallbackFileAt(c: CrashRecovery.Commit, failed: Disk, p: Path)
    requires c.Valid() && c.start.pointer.Some? && StagedAgainst(c) && OldOrNew(c, failed.workspace)
    ensures var end := Target(failed.workspace, OldDir(c));
            if Added(c, p) then Same(end, failed.workspace, p) else Same(end, c.start.workspace, p)
  {
    var prior := Load(OldDir(c)).value;
    if p in Keys(prior.inputs) {
      TrackedInput(OldDir(c), c.start.pointer.value.id, p);
      assert p !in prior.deletions;
    }
    assert Same(failed.workspace, c.start.workspace, p) || Same(failed.workspace, c.Published(), p);
  }

  /** An I/O error while a commit materializes leaves what a crash at that point leaves, so crash
      atomicity covers it. */
  lemma CommitErrorIsCrash(d: Disk, id: Id, n: nat)
    ensures CommitEffects(d, id, Some(n)).0 <= CommitEffects(d, id).0
  {
    hide Materialization, CommitHead;
    if Load(Staged(d, id)).Some? {
      var m := Load(Staged(d, id)).value;
      var dir := if m.publication.id in d.generations then d.generations[m.publication.id] else d.staging[id];
      var body := Materialization(dir, m).0;
      var head := CommitHead(Journal(Some(id), m.publication, d.pointer, Intent),
                             if m.publication.id in d.generations then [] else [Promote(id, m.publication.id)]);
      if n < |body| {
        assert CommitEffects(d, id, Some(n)).0 == head + body[..n] + [];
        assert head + body[..n] + [] <= head + body;
      }
    }
  }

  /** An I/O error while a first publication rolls forward leaves what a crash at that point leaves, once the pointer has moved. */
  lemma RollForwardErrorIsCrash(d: Disk, n: nat)
    requires Healthy(d) && d.pointer.None? && d.journal.Some? && d.journal.value.staged.Some?
    requires Load(RollForwardSource(d, d.journal.value)).Some?
    requires var head := RollForwardStart(d, d.journal.value.staged.value, Load(RollForwardSource(d, d.journal.value)).value.publication);
             |head| <= n
    ensures RecoverEffects(d, Some(n)).0 <= RecoverEffects(d).0
  {
    var j := d.journal.value;
    var dir := RollForwardSource(d, j);
    RollForwardShape(d, j, dir, Load(dir).value, Some(n));
    RollForwardShape(d, j, dir, Load(dir).value, None);
    assert RecoverEffects(d, Some(n)) == RollForwardEffects(d, j, Some(n)) && RecoverEffects(d) == RollForwardEffects(d, j, None);
    hide RollForwardEffects, RollForwardStart, RollForwardSource, Materialization, Healthy, RecoverEffects;
  }

  /** Before the pointer has moved, an error gives the publication up: the journal goes, and pointer, workspace and mirrors are
      as they were. */
  lemma RollForwardGivesUp(d: Disk, n: nat)
    requires Healthy(d) && d.pointer.None? && d.journal.Some? && d.journal.value.staged.Some?
    requires Load(RollForwardSource(d, d.journal.value)).Some? ==>
               n < |RollForwardStart(d, d.journal.value.staged.value, Load(RollForwardSource(d, d.journal.value)).value.publication)|
    ensures var d' := Run(d, RecoverEffects(d, Some(n)).0);
            d'.pointer.None? && d'.journal.None? && d'.workspace == d.workspace && d'.glb == d.glb && d'.json == d.json
  {
    var j := d.journal.value;
    var dir := RollForwardSource(d, j);
    assert RecoverEffects(d, Some(n)) == RollForwardEffects(d, j, Some(n));
    if Load(dir).Some? {
      var pub := Load(dir).value.publication;
      RollForwardShape(d, j, dir, Load(dir).value, Some(n));
      var head := RollForwardStart(d, j.staged.value, pub);
      assert RecoverEffects(d, Some(n)).0 == head[..n] + [DropJournal];
      assert head[..n] == [] || head[..n] == [Promote(j.staged.value, pub.id)];
      hide RollForwardEffects, RollForwardStart, RollForwardSource, Materialization, Healthy, RecoverEffects, Load;
      RunSnoc(d, head[..n], DropJournal);
      OneRename(d, head[..n], j.staged.value, pub.id);
    } else {
      RunSnoc(d, [], DropJournal);
      assert [] + [DropJournal] == [DropJournal];
    }
  }

  lemma OneRename(d: Disk, es: seq<Effect>, from: Id, id: Id)
    requires es == [] || es == [Promote(from, id)]
    ensures var d' := Run(d, es);
            d' == d.(staging := d'.staging, generations := d'.generations)
  {
    RunNil(d);
    if es != [] {
      RunCons(d, Promote(from, id), []);
      RunNil(Apply(d, Promote(from, id)));
      assert [Promote(from, id)] + [] == [Promote(from, id)];
    }
  }

  /** A journal without a pointer that names no staged directory is dropped; one that claims the pointer has moved brings its
      predecessor back, or without one is left alone. */
  lemma JournalWithoutPointer(d: Disk)
    requires d.pointer.None? && d.journal.Some?
    ensures d.journal.value.phase != Pointer && d.journal.value.staged.None? ==> Run(d, RecoverEffects(d).0) == d.(journal := None)
    ensures d.journal.value.phase == Pointer && d.journal.value.prior.None? ==> RecoverEffects(d).0 == []
    ensures d.journal.value.phase == Pointer && d.journal.value.prior.Some? && Selectable(d, d.journal.value.prior.value) ==>
              var dir := d.generations[d.journal.value.prior.value.id];
              var d' := Run(d, RecoverEffects(d).0);
              && d'.pointer == Some(Load(dir).value.publication) && d'.journal.None? && Shows(d', dir)
  {
    RunCons(d, DropJournal, []);
    RunNil(Apply(d, DropJournal));
    assert [DropJournal] + [] == [DropJournal];
    if d.journal.value.phase == Pointer && d.journal.value.prior.Some? && Selectable(d, d.journal.value.prior.value) {
      var prior := d.journal.value.prior.value;
      PriorComesBack(d, prior, d.generations[prior.id]);
      TargetMatches(d.workspace, d.generations[prior.id], prior.id);
    }
    hide FallbackEffects, RollForwardEffects;
  }

  // A first publication tracking one file and a second one adding another.
  const OLD_PUB := PublicationDisk.Publication("p", 1, NoHash)
  const NEW_PUB := PublicationDisk.Publication("q", 2, NoHash)
  const OLD_DIR := Dir(Some("j"), Some("g"), map["a" := "1"],
                       Some(Manifest(OLD_PUB, Sha256("j"), Sha256("g"), [("a", Sha256("1"))], [])))
  const NEW_DIR := Dir(Some("J"), Some("G"), map["a" := "2", "b" := "3"],
                       Some(Manifest(NEW_PUB, Sha256("J"), Sha256("G"), [("a", Sha256("2")), ("b", Sha256("3"))], [])))

  /** The second publication has just been selected; nothing has been copied yet. */
  const SELECTED := Disk(map[], map["p" := OLD_DIR, "q" := NEW_DIR], Some(NEW_PUB),
                         Some(Journal(Some("q"), NEW_PUB, Some(OLD_PUB), Pointer)),
                         map["a" := "1"], Some("g"), Some("j"))

  /** The fallback is not exact: an I/O error after the two copies goes back to the old publication and
      leaves the new file behind. */
  lemma FallbackLeavesNewFile()
    ensures Healthy(SELECTED)
    ensures var end := Run(SELECTED, RecoverEffects(SELECTED, Some(2)).0);
            && end.pointer == Some(OLD_PUB) && end.journal == None
            && end.workspace == map["a" := "1", "b" := "3"]
  {
    SampleHealthy();
    SampleSound();
    MaterializationSucceeds(NEW_DIR, "q");
    var done := Materialization(NEW_DIR, Load(NEW_DIR).value).0[..2];
    var failed := Run(SELECTED, done);
    SampleFailed(done, failed);
    RecoverCut(SELECTED, NEW_DIR, "q", 2);
    FallbackEnd(failed, OLD_PUB, OLD_DIR);
    SampleTarget();
    hide *;
    RunAppend(SELECTED, done, FallbackEffects(failed, Some(OLD_PUB)).0);
  }

  lemma SampleHealthy()
    ensures Healthy(SELECTED)
  {
    SampleSound();
    hide Sound;
  }

  lemma SampleSound()
    ensures Sound(OLD_DIR, "p") && Sound(NEW_DIR, "q")
  {
    PlainPaths();
  }

  lemma SampleCopies()
    ensures Copies(NEW_DIR, Load(NEW_DIR).value.inputs) == ([CopyInput("a", "2"), CopyInput("b", "3")], true)
  {
    PlainPaths();
    var entries := Load(NEW_DIR).value.inputs;
    assert entries[1..] == [("b", Sha256("3"))] && entries[1..][1..] == [];
    OneCopy(NEW_DIR, entries[1..], "b");
    OneCopy(NEW_DIR, entries, "a");
    assert Copies(NEW_DIR, []) == ([], true);
    assert [CopyInput("b", "3")] + [] == [CopyInput("b", "3")];
    assert [CopyInput("a", "2")] + [CopyInput("b", "3")] == [CopyInput("a", "2"), CopyInput("b", "3")];
  }

  lemma SampleFailed(done: seq<Effect>, failed: Disk)
    requires |Materialization(NEW_DIR, Load(NEW_DIR).value).0| >= 2
    requires done == Materialization(NEW_DIR, Load(NEW_DIR).value).0[..2] && failed == Run(SELECTED, done)
    ensures failed == SELECTED.(workspace := map["a" := "2", "b" := "3"])
  {
    SampleCopies();
    assert done == [CopyInput("a", "2"), CopyInput("b", "3")];
  }

  lemma SampleTarget()
    ensures Target(map["a" := "2", "b" := "3"], OLD_DIR) == map["a" := "1", "b" := "3"]
  {
  }

  lemma OneCopy(dir: Dir, inputs: seq<(Path, Hash)>, path: Path)
    requires inputs != [] && SafeRelative(path) && path in dir.inputs && inputs[0] == (path, Sha256(dir.inputs[path]))
    ensures var (rest, ok) := Copies(dir, inputs[1..]);
            Copies(dir, inputs) == ([CopyInput(path, dir.inputs[path])] + rest, ok)
  {
  }

  lemma PlainPaths()
    ensures SafeRelative("a") && SafeRelative("b")
  {
    OneCharacter('a');
    OneCharacter('b');
    assert "a" == ['a'] && "b" == ['b'];
  }

  lemma OneCharacter(c: char)
    requires c != '/'
    ensures Split([c], '/') == [[c]]
  {
    assert [c][1..] == "";
    assert [c] + "" == [c];
  }
}
