/** Crash atomicity of publication (paths.py). */
module CrashRecovery {
  import opened Wrappers
  import opened PublicationDisk

  // Whatever prefix of a commit reaches the disk, and however often recovery itself is cut short, a recovery that
  // completes leaves exactly the old publication or exactly the new one.

  // ---------------------------------------------------------------- what a publication means on disk

  /** The workspace after materializing `dir` over `ws`. */
  function Target(ws: map<Path, Bytes>, dir: Dir): map<Path, Bytes>
    requires Load(dir).Some?
  {
    var m := Load(dir).value;
    map p | p in ws.Keys + (Keys(m.inputs) * dir.inputs.Keys) && p !in m.deletions ::
      if p in Keys(m.inputs) && p in dir.inputs then dir.inputs[p] else ws[p]
  }

  /** `publication_matches_workspace`, without its source clause: inputs present, deletions absent. */
  predicate MatchesWorkspace(ws: map<Path, Bytes>, m: Manifest) {
    && (forall e :: e in m.inputs ==> e.0 in ws && Sha256(ws[e.0]) == e.1)
    && (forall p :: p in m.deletions ==> p !in ws)
  }

  /** Workspace and mirrors show the sound generation `dir`. */
  predicate Shows(d: Disk, dir: Dir) {
    && Load(dir).Some? && MatchesWorkspace(d.workspace, Load(dir).value)
    && d.glb == dir.glb && d.json == dir.json
  }

  predicate Selects(d: Disk, p: Publication) {
    && d.pointer == Some(p) && p.id in d.generations && Sound(d.generations[p.id], p.id)
    && Load(d.generations[p.id]).value.publication == p
  }

  /** No journal, and the selected publication, if any, is what workspace and mirrors show. */
  predicate Quiescent(d: Disk) {
    && d.journal.None?
    && (d.pointer.Some? ==> Selects(d, d.pointer.value) && Shows(d, d.generations[d.pointer.value.id]))
  }

  // ---------------------------------------------------------------- materialization, one effect at a time

  /** An effect that moves workspace or mirrors to what `dir` prescribes. */
  predicate Restores(e: Effect, dir: Dir)
    requires Load(dir).Some?
  {
    var m := Load(dir).value;
    match e
    case CopyInput(p, data) => p in Keys(m.inputs) && p !in m.deletions && p in dir.inputs && data == dir.inputs[p]
    case DeleteInput(p) => p in m.deletions
    case PutGlb(data) => dir.glb == Some(data)
    case PutJson(data) => dir.json == Some(data)
    case _ => false
  }

  predicate AllRestore(es: seq<Effect>, dir: Dir)
    requires Load(dir).Some?
  {
    forall e :: e in es ==> Restores(e, dir)
  }

  lemma {:induction false} CopiesSucceed(dir: Dir, id: Id, inputs: seq<(Path, Hash)>)
    requires Sound(dir, id) && forall e :: e in inputs ==> e in Load(dir).value.inputs
    ensures var (es, ok) := Copies(dir, inputs);
            && ok && AllRestore(es, dir)
            && (forall e :: e in inputs ==> CopyInput(e.0, dir.inputs[e.0]) in es)
  {
    if inputs != [] {
      CopiesSucceed(dir, id, inputs[1..]);
      var (rest, ok) := Copies(dir, inputs[1..]);
      assert Copies(dir, inputs) == ([CopyInput(inputs[0].0, dir.inputs[inputs[0].0])] + rest, ok);
      assert inputs[0].0 in Keys(Load(dir).value.inputs);
    }
  }

  lemma {:induction false} DeletionsSucceed(dir: Dir, id: Id, paths: seq<Path>)
    requires Sound(dir, id) && forall p :: p in paths ==> p in Load(dir).value.deletions
    ensures var (es, ok) := Deletions(paths);
            ok && AllRestore(es, dir) && (forall p :: p in paths ==> DeleteInput(p) in es)
  {
    if paths != [] {
      DeletionsSucceed(dir, id, paths[1..]);
    }
  }

  /** A sound directory materializes completely, and touches only what it prescribes. */
  lemma MaterializationSucceeds(dir: Dir, id: Id)
    requires Sound(dir, id)
    ensures var m := Load(dir).value;
            var (es, ok) := Materialization(dir, m);
            && ok && AllRestore(es, dir) && |es| >= 2
            && (forall e :: e in m.inputs ==> CopyInput(e.0, dir.inputs[e.0]) in es)
            && (forall p :: p in m.deletions ==> DeleteInput(p) in es)
            && PutGlb(dir.glb.value) in es && PutJson(dir.json.value) in es
  {
    var m := Load(dir).value;
    CopiesSucceed(dir, id, m.inputs);
    DeletionsSucceed(dir, id, m.deletions);
    var copies, deletions, mirrors := Copies(dir, m.inputs).0, Deletions(m.deletions).0, Mirrors(dir).0;
    assert mirrors == [PutGlb(dir.glb.value), PutJson(dir.json.value)] && AllRestore(mirrors, dir);
    assert Materialization(dir, m) == (copies + deletions + mirrors, true);
    hide Materialization, Copies, Deletions, Mirrors, AllRestore, Load;
    Concatenation(dir, copies, deletions, mirrors);
  }

  lemma Concatenation(dir: Dir, es: seq<Effect>, fs: seq<Effect>, gs: seq<Effect>)
    requires Load(dir).Some? && AllRestore(es, dir) && AllRestore(fs, dir) && AllRestore(gs, dir)
    ensures AllRestore(es + fs + gs, dir)
    ensures forall e :: e in es || e in fs || e in gs ==> e in es + fs + gs
  {
  }

  predicate Same(ws: map<Path, Bytes>, ws': map<Path, Bytes>, p: Path) {
    (p in ws <==> p in ws') && (p in ws ==> ws[p] == ws'[p])
  }

  lemma RestoringStep(d: Disk, dir: Dir, e: Effect)
    requires Load(dir).Some? && Restores(e, dir)
    ensures var d' := Apply(d, e);
            && d' == d.(workspace := d'.workspace, glb := d'.glb, json := d'.json)
            && Target(d'.workspace, dir) == Target(d.workspace, dir)
            && (d'.glb == d.glb || d'.glb == dir.glb) && (d'.json == d.json || d'.json == dir.json)
            && (forall p :: Same(d'.workspace, d.workspace, p) || Same(d'.workspace, Target(d.workspace, dir), p))
  {
  }

  lemma MapsAgree(ws: map<Path, Bytes>, ws': map<Path, Bytes>)
    requires forall p :: Same(ws, ws', p)
    ensures ws == ws'
  {
    forall p
      ensures p in ws <==> p in ws'
      ensures p in ws ==> ws[p] == ws'[p]
    {
      assert Same(ws, ws', p);
    }
  }

  /** A run of such effects moves nothing but workspace and mirrors, and not what they are to become. */
  lemma {:induction false} RestoringRun(d: Disk, dir: Dir, es: seq<Effect>)
    requires Load(dir).Some? && AllRestore(es, dir)
    ensures var d' := Run(d, es);
            && d' == d.(workspace := d'.workspace, glb := d'.glb, json := d'.json)
            && Target(d'.workspace, dir) == Target(d.workspace, dir)
            && (d'.glb == d.glb || d'.glb == dir.glb) && (d'.json == d.json || d'.json == dir.json)
    decreases |es|
  {
    if es != [] {
      assert Restores(es[0], dir);
      RestoringStep(d, dir, es[0]);
      RestoringRun(Apply(d, es[0]), dir, es[1..]);
    }
  }

  /** Old or new: after any such run each path is as before or as prescribed, and as prescribed once
      the effect for it has happened. */
  lemma {:induction false} RestoredPath(d: Disk, dir: Dir, es: seq<Effect>, p: Path)
    requires Load(dir).Some? && AllRestore(es, dir)
    ensures Same(Run(d, es).workspace, d.workspace, p) || Same(Run(d, es).workspace, Target(d.workspace, dir), p)
    ensures (Same(d.workspace, Target(d.workspace, dir), p)
             || DeleteInput(p) in es || (exists data :: CopyInput(p, data) in es))
            ==> Same(Run(d, es).workspace, Target(d.workspace, dir), p)
    decreases |es|
  {
    if es != [] {
      assert Restores(es[0], dir);
      RestoringStep(d, dir, es[0]);
      RestoredPath(Apply(d, es[0]), dir, es[1..], p);
    }
  }

  lemma {:induction false} RestoredMirrors(d: Disk, dir: Dir, es: seq<Effect>)
    requires Load(dir).Some? && AllRestore(es, dir)
    ensures d.glb == dir.glb || PutGlb(dir.glb.value) in es ==> Run(d, es).glb == dir.glb
    ensures d.json == dir.json || PutJson(dir.json.value) in es ==> Run(d, es).json == dir.json
    decreases |es|
  {
    if es != [] {
      assert Restores(es[0], dir);
      RestoredMirrors(Apply(d, es[0]), dir, es[1..]);
    }
  }

  /** The complete materialization reaches the prescribed workspace exactly. */
  lemma MaterializationReachesTarget(d: Disk, dir: Dir, id: Id)
    requires Sound(dir, id)
    ensures Run(d, Materialization(dir, Load(dir).value).0)
         == d.(workspace := Target(d.workspace, dir), glb := dir.glb, json := dir.json)
  {
    var m := Load(dir).value;
    var es := Materialization(dir, m).0;
    MaterializationSucceeds(dir, id);
    RestoringRun(d, dir, es);
    RestoredMirrors(d, dir, es);
    forall p
      ensures Same(Run(d, es).workspace, Target(d.workspace, dir), p)
    {
      ReachesTargetAt(d, dir, id, es, p);
    }
    MapsAgree(Run(d, es).workspace, Target(d.workspace, dir));
  }

  lemma ReachesTargetAt(d: Disk, dir: Dir, id: Id, es: seq<Effect>, p: Path)
    requires Sound(dir, id) && AllRestore(es, dir)
    requires forall e :: e in Load(dir).value.inputs ==> CopyInput(e.0, dir.inputs[e.0]) in es
    requires forall q :: q in Load(dir).value.deletions ==> DeleteInput(q) in es
    ensures Same(Run(d, es).workspace, Target(d.workspace, dir), p)
  {
    var m := Load(dir).value;
    if p in Keys(m.inputs) {
      var e :| e in m.inputs && e.0 == p;
      assert CopyInput(p, dir.inputs[p]) in es;
    }
    RestoredPath(d, dir, es, p);
  }

  lemma TargetMatches(ws: map<Path, Bytes>, dir: Dir, id: Id)
    requires Sound(dir, id)
    ensures MatchesWorkspace(Target(ws, dir), Load(dir).value)
  {
  }

  lemma MatchingIsTarget(ws: map<Path, Bytes>, dir: Dir, id: Id)
    requires Sound(dir, id) && MatchesWorkspace(ws, Load(dir).value)
    ensures Target(ws, dir) == ws
  {
  }

  // ---------------------------------------------------------------- the states of one interrupted commit

  /** One commit: the disk it starts on and the staged directory it publishes. */
  datatype Commit = Commit(start: Disk, id: Id, dir: Dir) {
    ghost predicate Valid() {
      && Quiescent(start) && Sound(dir, id)
      && id in start.staging && start.staging[id] == dir && id !in start.generations
    }

    function Publication(): Publication
      requires Sound(dir, id)
    {
      Load(dir).value.publication
    }

    /** The new publication on disk: where the old one was, only what `dir` prescribes has changed. */
    function Published(): map<Path, Bytes>
      requires Sound(dir, id)
    {
      Target(start.workspace, dir)
    }
  }

  /** Nothing visible has happened yet; the new directory is waiting, staged or promoted. */
  ghost predicate Before(c: Commit, d: Disk)
    requires c.Valid()
  {
    && d.pointer == c.start.pointer
    && d.workspace == c.start.workspace && d.glb == c.start.glb && d.json == c.start.json
    && (c.start.pointer.Some? ==>
          var p := c.start.pointer.value.id;
          p in d.generations && d.generations[p] == c.start.generations[p])
    && (if c.id in d.staging then d.staging[c.id] == c.dir && c.id !in d.generations
        else c.id in d.generations && d.generations[c.id] == c.dir)
    && (d.journal.Some? ==>
          d.journal.value.(phase := Intent) == Journal(Some(c.id), c.Publication(), c.start.pointer, Intent)
          && d.journal.value.phase != Pointer)
  }

  /** Every file is as it was before the commit, or as it will be after it. */
  ghost predicate OldOrNew(c: Commit, ws: map<Path, Bytes>)
    requires c.Valid()
  {
    forall p :: Same(ws, c.start.workspace, p) || Same(ws, c.Published(), p)
  }

  /** The new publication is selected; the workspace is on its way to it, and there once the journal is gone. */
  ghost predicate After(c: Commit, d: Disk)
    requires c.Valid()
  {
    && d.pointer == Some(c.Publication())
    && c.id in d.generations && d.generations[c.id] == c.dir
    && Target(d.workspace, c.dir) == c.Published() && OldOrNew(c, d.workspace)
    && (d.journal.None? ==> d.workspace == c.Published() && d.glb == c.dir.glb && d.json == c.dir.json)
  }

  /** Which publication a crash at this state will end with: the new one exactly when the pointer has
      moved, or there was none and the journal announces one. */
  ghost predicate Wins(c: Commit, d: Disk)
    requires c.Valid()
  {
    d.pointer == Some(c.Publication()) || (c.start.pointer.None? && d.journal.Some?)
  }

  ghost predicate Inv(c: Commit, d: Disk)
    requires c.Valid()
  {
    Before(c, d) || After(c, d)
  }

  /** Every state along a run satisfies the invariant; with `fixed`, the winner never changes either. */
  ghost predicate Along(c: Commit, d: Disk, es: seq<Effect>, fixed: bool)
    requires c.Valid()
    decreases |es|
  {
    && Inv(c, d)
    && (es != [] ==> (fixed ==> Wins(c, Apply(d, es[0])) == Wins(c, d)) && Along(c, Apply(d, es[0]), es[1..], fixed))
  }

  lemma {:induction false} AlongPrefix(c: Commit, d: Disk, es: seq<Effect>, fixed: bool, k: nat)
    requires c.Valid() && Along(c, d, es, fixed) && k <= |es|
    ensures Inv(c, Run(d, es[..k])) && (fixed ==> Wins(c, Run(d, es[..k])) == Wins(c, d))
    decreases |es|
  {
    if k > 0 {
      assert es[..k][0] == es[0] && es[..k][1..] == es[1..][..k - 1];
      AlongPrefix(c, Apply(d, es[0]), es[1..], fixed, k - 1);
    }
  }

  lemma {:induction false} AlongAppend(c: Commit, d: Disk, es: seq<Effect>, fs: seq<Effect>, fixed: bool)
    requires c.Valid() && Along(c, d, es, fixed) && Along(c, Run(d, es), fs, fixed)
    ensures Along(c, d, es + fs, fixed)
    decreases |es|
  {
    if es == [] {
      assert es + fs == fs;
    } else {
      assert (es + fs)[0] == es[0] && (es + fs)[1..] == es[1..] + fs;
      AlongAppend(c, Apply(d, es[0]), es[1..], fs, fixed);
    }
  }

  lemma {:induction false} AlongLoosen(c: Commit, d: Disk, es: seq<Effect>)
    requires c.Valid() && Along(c, d, es, true)
    ensures Along(c, d, es, false)
    decreases |es|
  {
    if es != [] { AlongLoosen(c, Apply(d, es[0]), es[1..]); }
  }

  lemma PublishedMatches(c: Commit)
    requires c.Valid()
    ensures Target(c.Published(), c.dir) == c.Published()
  {
  }

  lemma {:induction false} AlongNewMaterialization(c: Commit, d: Disk, es: seq<Effect>)
    requires c.Valid() && After(c, d) && AllRestore(es, c.dir)
    ensures Along(c, d, es, true) && After(c, Run(d, es))
    decreases |es|
  {
    if es != [] {
      var d1 := Apply(d, es[0]);
      assert Restores(es[0], c.dir);
      RestoringStep(d, c.dir, es[0]);
      forall p
        ensures Same(d1.workspace, c.start.workspace, p) || Same(d1.workspace, c.Published(), p)
      {
        assert Same(d.workspace, c.start.workspace, p) || Same(d.workspace, c.Published(), p);
      }
      if d.journal.None? {
        PublishedMatches(c);
        AlreadyRestored(d, c.dir, es[0]);
      }
      AlongNewMaterialization(c, d1, es[1..]);
    }
  }

  /** On a disk that already shows `dir`, its effects change nothing. */
  lemma AlreadyRestored(d: Disk, dir: Dir, e: Effect)
    requires Load(dir).Some? && Restores(e, dir)
    requires Target(d.workspace, dir) == d.workspace && d.glb == dir.glb && d.json == dir.json
    ensures Apply(d, e) == d
  {
  }

  lemma {:induction false} AlongOldMaterialization(c: Commit, d: Disk, es: seq<Effect>)
    requires c.Valid() && Before(c, d) && c.start.pointer.Some?
    requires var dir := c.start.generations[c.start.pointer.value.id]; AllRestore(es, dir)
    ensures Along(c, d, es, true) && Run(d, es) == d
    decreases |es|
  {
    var p := c.start.pointer.value.id;
    var dir := c.start.generations[p];
    if es != [] {
      MatchingIsTarget(d.workspace, dir, p);
      assert Restores(es[0], dir);
      AlreadyRestored(d, dir, es[0]);
      AlongOldMaterialization(c, d, es[1..]);
    }
  }

  /** Removing other generations does not disturb a finished publication. */
  lemma {:induction false} AlongPruning(c: Commit, d: Disk, ids: seq<Id>)
    requires c.Valid() && After(c, d) && d.journal.None? && c.id !in ids
    ensures Along(c, d, RemovalEffects(ids), true)
    ensures After(c, Run(d, RemovalEffects(ids))) && Run(d, RemovalEffects(ids)).journal.None?
    decreases |ids|
  {
    if ids != [] {
      var es := RemovalEffects(ids);
      var d1 := Apply(d, EmptyGeneration(ids[0]));
      var d2 := Apply(d1, RemoveGeneration(ids[0]));
      assert es[0] == EmptyGeneration(ids[0]) && es[1..][0] == RemoveGeneration(ids[0]);
      assert es[1..][1..] == RemovalEffects(ids[1..]);
      AlongPruning(c, d2, ids[1..]);
      assert Along(c, d1, es[1..], true);
    }
  }

  // ---------------------------------------------------------------- the runs of commit and recovery

  /** Materializing the selected new publication and clearing the journal. */
  lemma AlongClearing(c: Commit, d: Disk)
    requires c.Valid() && After(c, d)
    ensures var es := Materialization(c.dir, Load(c.dir).value).0 + [DropJournal];
            Along(c, d, es, true) && After(c, Run(d, es)) && Run(d, es).journal.None?
  {
    var body := Materialization(c.dir, Load(c.dir).value).0;
    MaterializationSucceeds(c.dir, c.id);
    MaterializationReachesTarget(d, c.dir, c.id);
    AlongNewMaterialization(c, d, body);
    var d1 := Run(d, body);
    var d2 := Apply(d1, DropJournal);
    assert After(c, d2);
    AfterIsInv(c, d1);
    AfterIsInv(c, d2);
    AlongNil(c, d2);
    PointerWins(c, d1);
    PointerWins(c, d2);
    hide *;
    AlongCons(c, d1, DropJournal, [], true);
    assert [DropJournal] + [] == [DropJournal];
    AlongAppend(c, d, body, [DropJournal], true);
    RunSnoc(d, body, DropJournal);
  }

  lemma AlongNil(c: Commit, d: Disk)
    requires c.Valid() && Inv(c, d)
    ensures Along(c, d, [], true)
  {
  }

  lemma AlongPruned(c: Commit, d: Disk, entries: seq<Id>)
    requires c.Valid() && After(c, d) && d.journal.None?
    ensures var tail := PruneEffects(d, entries, KEEP);
            Along(c, d, tail, true) && After(c, Run(d, tail)) && Run(d, tail).journal.None?
  {
    AlongPruning(c, d, Stale(entries, Kept(d, entries, KEEP)));
  }

  /** The same, and pruning. */
  lemma AlongFinish(c: Commit, d: Disk, tail: seq<Effect>)
    requires c.Valid() && After(c, d)
    requires tail == [] || exists entries ::
               var d' := Run(d, Materialization(c.dir, Load(c.dir).value).0 + [DropJournal]);
               IsListing(d', entries) && tail == PruneEffects(d', entries, KEEP)
    ensures var es := Materialization(c.dir, Load(c.dir).value).0 + [DropJournal];
            && Along(c, d, es + tail, true)
            && After(c, Run(d, es + tail)) && Run(d, es + tail).journal.None?
  {
    var es := Materialization(c.dir, Load(c.dir).value).0 + [DropJournal];
    hide *;
    AlongClearing(c, d);
    if tail == [] {
      assert es + tail == es;
    } else {
      var entries :| IsListing(Run(d, es), entries) && tail == PruneEffects(Run(d, es), entries, KEEP);
      AlongPruned(c, Run(d, es), entries);
      AlongAppend(c, d, es, tail, true);
      RunAppend(d, es, tail);
    }
  }

  lemma AlongCons(c: Commit, d: Disk, e: Effect, es: seq<Effect>, fixed: bool)
    requires c.Valid() && Inv(c, d) && Along(c, Apply(d, e), es, fixed)
    requires fixed ==> Wins(c, Apply(d, e)) == Wins(c, d)
    ensures Along(c, d, [e] + es, fixed) && Run(d, [e] + es) == Run(Apply(d, e), es)
  {
  }

  /** The journal writes, the rename and the pointer move of a commit. */
  lemma CommitHeadAlong(c: Commit, head: seq<Effect>)
    requires c.Valid() && head == CommitHead(Journal(Some(c.id), c.Publication(), c.start.pointer, Intent), [Promote(c.id, c.id)])
    ensures Along(c, c.start, head, false) && After(c, Run(c.start, head))
  {
    var j := Journal(Some(c.id), c.Publication(), c.start.pointer, Intent);
    var e1, e2 := PutJournal(j), Promote(c.id, c.id);
    var e3, e4, e5 := PutJournal(j.(phase := Generation)), PutPointer(c.Publication()), PutJournal(j.(phase := Pointer));
    var d1 := Apply(c.start, e1);
    var d2 := Apply(d1, e2);
    var d3 := Apply(d2, e3);
    var d4 := Apply(d3, e4);
    var d5 := Apply(d4, e5);
    assert Before(c, c.start) && Before(c, d1) && Before(c, d2) && Before(c, d3) && After(c, d4) && After(c, d5);
    hide Before, After, Apply;
    AlongCons(c, d4, e5, [], false);
    AlongCons(c, d3, e4, [e5] + [], false);
    AlongCons(c, d2, e3, [e4] + ([e5] + []), false);
    AlongCons(c, d1, e2, [e3] + ([e4] + ([e5] + [])), false);
    AlongCons(c, c.start, e1, [e2] + ([e3] + ([e4] + ([e5] + []))), false);
    assert head == [e1] + ([e2] + ([e3] + ([e4] + ([e5] + []))));
  }

  /** A commit keeps the invariant at every step, and ends selected and shown. */
  lemma CommitAlong(c: Commit, es: seq<Effect>)
    requires c.Valid() && CommitRun(c.start, c.id, es)
    ensures Along(c, c.start, es, false)
    ensures After(c, Run(c.start, es)) && Run(c.start, es).journal.None?
  {
    var head := CommitHead(Journal(Some(c.id), c.Publication(), c.start.pointer, Intent), [Promote(c.id, c.id)]);
    var rest := Materialization(c.dir, Load(c.dir).value).0 + [DropJournal];
    CommitCore(c);
    CommitHeadAlong(c, head);
    hide *;
    CommitAlongFrom(c, head, rest, es);
  }

  lemma CommitAlongFrom(c: Commit, head: seq<Effect>, rest: seq<Effect>, es: seq<Effect>)
    requires c.Valid() && CommitRun(c.start, c.id, es) && CommitEffects(c.start, c.id) == (head + rest, true)
    requires Along(c, c.start, head, false) && After(c, Run(c.start, head))
    requires rest == Materialization(c.dir, Load(c.dir).value).0 + [DropJournal]
    ensures Along(c, c.start, es, false)
    ensures After(c, Run(c.start, es)) && Run(c.start, es).journal.None?
  {
    hide *;
    var d5 := Run(c.start, head);
    RunAppend(c.start, head, rest);
    var tail := CommitTail(c.start, c.id, head + rest, es);
    AlongFinish(c, d5, tail);
    AlongLoosen(c, d5, rest + tail);
    AlongAppend(c, c.start, head, rest + tail, false);
    RunAppend(c.start, head, rest + tail);
    assert es == head + (rest + tail);
  }

  lemma CommitTail(d: Disk, id: Id, core: seq<Effect>, es: seq<Effect>) returns (tail: seq<Effect>)
    requires CommitRun(d, id, es) && CommitEffects(d, id) == (core, true)
    ensures es == core + tail
    ensures exists entries :: IsListing(Run(d, core), entries) && tail == PruneEffects(Run(d, core), entries, KEEP)
  {
    hide CommitEffects, PruneEffects, IsListing;
    var entries :| IsListing(Run(d, core), entries) && es == core + PruneEffects(Run(d, core), entries, KEEP);
    tail := PruneEffects(Run(d, core), entries, KEEP);
  }

  lemma CommitCore(c: Commit)
    requires c.Valid()
    ensures var head := CommitHead(Journal(Some(c.id), c.Publication(), c.start.pointer, Intent), [Promote(c.id, c.id)]);
            CommitEffects(c.start, c.id) == (head + (Materialization(c.dir, Load(c.dir).value).0 + [DropJournal]), true)
  {
    hide CommitHead, Materialization;
    MaterializationSucceeds(c.dir, c.id);
    var head := CommitHead(Journal(Some(c.id), c.Publication(), c.start.pointer, Intent), [Promote(c.id, c.id)]);
    var body := Materialization(c.dir, Load(c.dir).value).0;
    assert head + body + [DropJournal] == head + (body + [DropJournal]);
  }

  // recovery

  lemma RecoverAfter(c: Commit, d: Disk, es: seq<Effect>)
    requires c.Valid() && After(c, d) && RecoverRun(d, es)
    ensures Along(c, d, es, true) && After(c, Run(d, es)) && Run(d, es).journal.None?
  {
    MaterializationSucceeds(c.dir, c.id);
    AlongFinish(c, d, []);
    var body := Materialization(c.dir, Load(c.dir).value).0;
    assert es == body + [DropJournal];
    assert body + [DropJournal] + [] == es;
  }

  lemma RecoverBeforeWithPrior(c: Commit, d: Disk, es: seq<Effect>)
    requires c.Valid() && Before(c, d) && c.start.pointer.Some? && RecoverRun(d, es)
    ensures Along(c, d, es, true) && Before(c, Run(d, es)) && Run(d, es).journal.None?
  {
    var p := c.start.pointer.value.id;
    var dir := c.start.generations[p];
    MaterializationSucceeds(dir, p);
    var body := Materialization(dir, Load(dir).value).0;
    assert es == body + [DropJournal];
    AlongOldMaterialization(c, d, body);
    DropBefore(c, d);
    hide *;
    AlongAppend(c, d, body, [DropJournal], true);
    RunAppend(d, body, [DropJournal]);
  }

  lemma DropBefore(c: Commit, d: Disk)
    requires c.Valid() && Before(c, d) && c.start.pointer.Some?
    ensures Along(c, d, [DropJournal], true) && Before(c, Run(d, [DropJournal])) && Run(d, [DropJournal]).journal.None?
  {
    var d' := Apply(d, DropJournal);
    assert Along(c, d', [], true) && Before(c, d');
    AlongCons(c, d, DropJournal, [], true);
    assert [DropJournal] + [] == [DropJournal];
  }

  lemma RollForwardCore(c: Commit, d: Disk, promote: seq<Effect>)
    requires c.Valid() && Before(c, d) && c.start.pointer.None? && d.journal.Some?
    requires promote == if c.id in d.generations then [] else [Promote(c.id, c.id)]
    ensures var rest := Materialization(c.dir, Load(c.dir).value).0 + [DropJournal];
            RecoverEffects(d) == (promote + ([PutPointer(c.Publication())] + rest), true)
  {
    hide Materialization;
    MaterializationSucceeds(c.dir, c.id);
    var body := Materialization(c.dir, Load(c.dir).value).0;
    assert RollForwardSource(d, d.journal.value) == c.dir;
    assert promote + [PutPointer(c.Publication())] + body + [DropJournal]
        == promote + ([PutPointer(c.Publication())] + (body + [DropJournal]));
  }

  lemma RollForwardHead(c: Commit, d: Disk, promote: seq<Effect>)
    requires c.Valid() && Before(c, d) && c.start.pointer.None? && d.journal.Some?
    requires promote == if c.id in d.generations then [] else [Promote(c.id, c.id)]
    ensures var d1 := Run(d, promote);
            && Along(c, d, promote, true) && Before(c, d1) && Wins(c, d1)
            && After(c, Apply(d1, PutPointer(c.Publication())))
  {
  }

  lemma RecoverRollForward(c: Commit, d: Disk, es: seq<Effect>)
    requires c.Valid() && Before(c, d) && c.start.pointer.None? && d.journal.Some? && RecoverRun(d, es)
    ensures Along(c, d, es, true) && After(c, Run(d, es)) && Run(d, es).journal.None?
  {
    var promote := if c.id in d.generations then [] else [Promote(c.id, c.id)];
    var point := PutPointer(c.Publication());
    RollForwardCore(c, d, promote);
    RollForwardHead(c, d, promote);
    hide *;
    var rest := Materialization(c.dir, Load(c.dir).value).0 + [DropJournal];
    var core := promote + ([point] + rest);
    var d1 := Run(d, promote);
    var d2 := Apply(d1, point);
    RunAppend(d, promote, [point] + rest);
    RunCons(d1, point, rest);
    var tail := PruningOf(d, core, es);
    AlongFinish(c, d2, tail);
    PointerWins(c, d2);
    AfterIsInv(c, d2);
    AlongCons(c, d1, point, rest + tail, true);
    AlongAppend(c, d, promote, [point] + (rest + tail), true);
    RunAppend(d, promote, [point] + (rest + tail));
    Reassociate(promote, [point], rest, tail);
  }

  lemma PruningOf(d: Disk, core: seq<Effect>, es: seq<Effect>) returns (tail: seq<Effect>)
    requires RecoverRun(d, es) && RecoverEffects(d) == (core, true)
    ensures es == core + tail
    ensures exists entries :: IsListing(Run(d, core), entries) && tail == PruneEffects(Run(d, core), entries, KEEP)
  {
    hide RecoverEffects, PruneEffects, IsListing;
    var entries :| IsListing(Run(d, core), entries) && es == core + PruneEffects(Run(d, core), entries, KEEP);
    tail := PruneEffects(Run(d, core), entries, KEEP);
  }

  lemma Reassociate(a: seq<Effect>, b: seq<Effect>, c: seq<Effect>, d: seq<Effect>)
    ensures a + (b + c) + d == a + (b + (c + d))
  {
  }

  lemma AfterIsInv(c: Commit, d: Disk)
    requires c.Valid() && After(c, d)
    ensures Inv(c, d)
  {
  }

  lemma PointerWins(c: Commit, d: Disk)
    requires c.Valid() && After(c, d)
    ensures Wins(c, d)
  {
  }

  /** Recovery from any crash state keeps the invariant and the winner at every step; completed, it has
      cleared the journal. */
  lemma RecoverAlong(c: Commit, d: Disk, es: seq<Effect>)
    requires c.Valid() && Inv(c, d) && RecoverRun(d, es)
    ensures Along(c, d, es, true)
    ensures Inv(c, Run(d, es)) && Run(d, es).journal.None? && Wins(c, Run(d, es)) == Wins(c, d)
  {
    if After(c, d) {
      RecoverAfter(c, d, es);
    } else if c.start.pointer.Some? {
      RecoverBeforeWithPrior(c, d, es);
    } else if d.journal.Some? {
      RecoverRollForward(c, d, es);
    } else {
      assert es == [];
    }
    assert es[..|es|] == es;
    AlongPrefix(c, d, es, true, |es|);
  }

  // ---------------------------------------------------------------- main result

  /** The states after interrupted recoveries: attempt i runs `attempts[i].0` and dies after `attempts[i].1` effects. */
  ghost predicate Attempts(d: Disk, attempts: seq<(seq<Effect>, nat)>)
    decreases |attempts|
  {
    attempts == [] ||
    (var (es, k) := attempts[0];
     RecoverRun(d, es) && k <= |es| && Attempts(Run(d, es[..k]), attempts[1..]))
  }

  function AfterAttempts(d: Disk, attempts: seq<(seq<Effect>, nat)>): Disk
    requires forall a :: a in attempts ==> a.1 <= |a.0|
    decreases |attempts|
  {
    if attempts == [] then d else AfterAttempts(Run(d, attempts[0].0[..attempts[0].1]), attempts[1..])
  }

  lemma {:induction false} AttemptsKeep(c: Commit, d: Disk, attempts: seq<(seq<Effect>, nat)>)
    requires c.Valid() && Inv(c, d) && Attempts(d, attempts)
    requires forall a :: a in attempts ==> a.1 <= |a.0|
    ensures var d' := AfterAttempts(d, attempts); Inv(c, d') && Wins(c, d') == Wins(c, d)
    decreases |attempts|
  {
    if attempts != [] {
      var (es, k) := attempts[0];
      RecoverAlong(c, d, es);
      AlongPrefix(c, d, es, true, k);
      AttemptsKeep(c, Run(d, es[..k]), attempts[1..]);
    }
  }

  /** Crash atomicity. Cut a commit after any `k` effects, cut any number of recoveries short, then let
      one complete: the disk is quiescent again, and it holds exactly the new publication when the
      pointer had moved or there was no earlier publication and the journal had been written, and
      exactly the old one, to the last workspace file, otherwise. */
  lemma CrashAtomicity(c: Commit, commit: seq<Effect>, k: nat, attempts: seq<(seq<Effect>, nat)>, last: seq<Effect>)
    requires c.Valid() && CommitRun(c.start, c.id, commit) && k <= |commit|
    requires var crashed := Run(c.start, commit[..k]);
             && Attempts(crashed, attempts) && (forall a :: a in attempts ==> a.1 <= |a.0|)
             && RecoverRun(AfterAttempts(crashed, attempts), last)
    ensures var crashed := Run(c.start, commit[..k]);
            var end := Run(AfterAttempts(crashed, attempts), last);
            && Quiescent(end)
            && if crashed.pointer == Some(c.Publication()) || (c.start.pointer.None? && crashed.journal.Some?)
               then end.pointer == Some(c.Publication()) && end.generations[c.id] == c.dir
                    && end.workspace == c.Published() && end.glb == c.dir.glb && end.json == c.dir.json
               else end.pointer == c.start.pointer
                    && end.workspace == c.start.workspace && end.glb == c.start.glb && end.json == c.start.json
  {
    var crashed := Run(c.start, commit[..k]);
    CommitAlong(c, commit);
    AlongPrefix(c, c.start, commit, false, k);
    AttemptsKeep(c, crashed, attempts);
    var d := AfterAttempts(crashed, attempts);
    RecoverAlong(c, d, last);
    TargetMatches(c.start.workspace, c.dir, c.id);
  }

  /** Old-or-new during materialization: at every crash point of a commit and of every recovery after
      it, each workspace file is as before the commit or as after it. When the commit was staged
      against the selected generation, that means: a file both publications track holds bytes of one
      of them, a file only the old one tracks holds its bytes or is gone, and a file neither tracks
      is untouched. */
  lemma MidwayFiles(c: Commit, d: Disk, p: Path)
    requires c.Valid() && Inv(c, d)
    requires c.start.pointer.Some?
    requires var prev := Load(c.start.generations[c.start.pointer.value.id]).value;
             forall q :: q in Load(c.dir).value.deletions <==> q in Keys(prev.inputs) && q !in Keys(Load(c.dir).value.inputs)
    ensures var oldDir := c.start.generations[c.start.pointer.value.id];
            var was, now := Keys(Load(oldDir).value.inputs), Keys(Load(c.dir).value.inputs);
            && (p in was && p in now ==> p in d.workspace && d.workspace[p] in {oldDir.inputs[p], c.dir.inputs[p]})
            && (p in was && p !in now ==> p in d.workspace ==> d.workspace[p] == oldDir.inputs[p])
            && (p !in was && p in now ==>
                  (Same(d.workspace, c.start.workspace, p) || (p in d.workspace && d.workspace[p] == c.dir.inputs[p])))
            && (p !in was && p !in now ==> Same(d.workspace, c.start.workspace, p))
  {
    var oldDir := c.start.generations[c.start.pointer.value.id];
    assert Same(d.workspace, c.start.workspace, p) || Same(d.workspace, c.Published(), p);
    if p in Keys(Load(oldDir).value.inputs) { TrackedInput(oldDir, c.start.pointer.value.id, p); }
    if p in Keys(Load(c.dir).value.inputs) { TrackedInput(c.dir, c.id, p); }
  }

  lemma TrackedInput(dir: Dir, id: Id, p: Path)
    requires Sound(dir, id) && p in Keys(Load(dir).value.inputs)
    ensures p in dir.inputs && exists e :: e in Load(dir).value.inputs && e.0 == p && e.1 == Sha256(dir.inputs[p])
  {
  }
}
