/** The git-backed timeline (history.py). */
module HistoryModel {
  import opened Wrappers

  // One single-model workspace, and the transactional restore around it (`_restore_step` of session.py). A commit is
  // identified with its content, as a content hash does.

  type Bytes = string

  /** The files git tracks in a single-model workspace. */
  datatype File = GitIgnore | ModelPy | SettingsJson

  type Tree = map<File, Bytes>

  /** What undo and redo write. */
  const RESTORE := {ModelPy, SettingsJson}

  datatype Commit = Commit(tree: Tree, parent: Option<Commit>, stamp: nat)

  datatype Timeline = Timeline(commits: seq<Commit>, index: int)

  /** `staged` is git's own index, `saved` the timeline in history.json. */
  datatype Repo = Repo(commits: seq<Commit>, index: int, branch: Option<Commit>, staged: Tree, disk: Tree,
                       saved: Option<Timeline>)

  const FRESH := Repo([], -1, None, map[], map[], None)

  // ---------------------------------------------------------------- steps

  function Save(s: Repo): Repo { s.(saved := Some(Timeline(s.commits, s.index))) }

  /** `_clamp`. */
  function Clamp(n: nat, index: int): int {
    if n == 0 then n - 1 else if index < 0 then 0 else if index > n - 1 then n - 1 else index
  }

  /** The commit chain behind a tip, oldest first. */
  function Chain(tip: Option<Commit>): seq<Commit>
    decreases tip
  {
    if tip.None? then [] else Chain(tip.value.parent) + [tip.value]
  }

  /** `_rebuild_timeline_from_git`. */
  function Rebuilt(s: Repo): Repo {
    var chain := Chain(s.branch);
    s.(commits := chain, index := |chain| - 1)
  }

  /** `_load_timeline`: history.json if it is there, else the git chain; then the cursor is clamped. */
  function Loaded(s: Repo): Repo {
    var t := if s.saved.Some? then s.(commits := s.saved.value.commits, index := s.saved.value.index) else Rebuilt(s);
    t.(index := Clamp(|t.commits|, t.index))
  }

  /** `_stage`: every tracked file that exists; a file that is gone stays staged as it was. */
  function Stage(s: Repo): Repo { s.(staged := s.staged + s.disk) }

  predicate AtTip(s: Repo) { s.index == |s.commits| - 1 }

  predicate Amends(s: Repo, amend: bool) { amend && AtTip(s) && s.commits != [] }

  /** `commit`. The amended tip keeps its own parent; a new commit is the child of the branch. */
  function CommitStep(s: Repo, amend: bool, stamp: nat): Repo {
    var t := Stage(s);
    if Amends(s, amend) then
      var c := Commit(t.staged, if s.branch.Some? then s.branch.value.parent else None, stamp);
      Save(t.(commits := t.commits[..|t.commits| - 1] + [c], branch := Some(c)))
    else
      var c := Commit(t.staged, s.branch, stamp);
      var kept := if 0 <= s.index + 1 <= |s.commits| then s.commits[..s.index + 1] else s.commits;
      Save(t.(commits := kept + [c], branch := Some(c), index := |kept|))
  }

  /** The file as the tree has it, or gone. */
  function Restored(disk: Tree, tree: Tree, f: File): Tree { if f in tree then disk[f := tree[f]] else disk - {f} }

  /** The number of elementary effects of `_restore_to`: two files, the branch, the cursor, history.json. */
  const EFFECTS: nat := 5

  /** `_restore_to` after its first k effects. */
  function RestoreUpTo(s: Repo, i: nat, k: nat): Repo
    requires i < |s.commits|
  {
    var c := s.commits[i];
    var s1 := if k >= 1 then s.(disk := Restored(s.disk, c.tree, ModelPy)) else s;
    var s2 := if k >= 2 then s1.(disk := Restored(s1.disk, c.tree, SettingsJson)) else s1;
    var s3 := if k >= 3 then s2.(branch := Some(c)) else s2;
    var s4 := if k >= 4 then s3.(index := i) else s3;
    if k >= 5 then Save(s4) else s4
  }

  datatype Nav = Undo | Redo | Goto(i: int)

  /** Where a navigation leads, if it is possible. */
  function Destination(s: Repo, nav: Nav): Option<nat> {
    match nav
    case Undo => if s.index > 0 && s.index - 1 < |s.commits| then Some(s.index - 1) else None
    case Redo => if 0 <= s.index < |s.commits| - 1 then Some(s.index + 1) else None
    case Goto(i) => if 0 <= i < |s.commits| && i != s.index then Some(i) else None
  }

  /** `snapshot_state`. */
  datatype Snapshot = Snapshot(index: int, branch: Option<Commit>, files: map<File, Option<Bytes>>)

  function Take(s: Repo): Snapshot {
    Snapshot(s.index, s.branch, map f | f in RESTORE :: if f in s.disk then Some(s.disk[f]) else None)
  }

  function Replaced(disk: Tree, files: map<File, Option<Bytes>>, f: File): Tree {
    if f !in files then disk else if files[f].Some? then disk[f := files[f].value] else disk - {f}
  }

  /** `revert_state`. */
  function Revert(s: Repo, snap: Snapshot): Repo {
    Save(s.(disk := Replaced(Replaced(s.disk, snap.files, ModelPy), snap.files, SettingsJson),
            branch := if snap.branch.Some? then snap.branch else s.branch, index := snap.index))
  }

  /** What the rebuild of a restored state does: whatever it writes to the two files, and how it ends. */
  datatype Build = Build(writes: map<File, Option<Bytes>>, ok: bool)

  function Built(s: Repo, b: Build): Repo {
    s.(disk := Replaced(Replaced(s.disk, b.writes, ModelPy), b.writes, SettingsJson))
  }

  /** `_restore_step`, when the restore raises after `done` effects, or runs through and the state is rebuilt. */
  function RestoreStep(s: Repo, nav: Nav, done: nat, b: Build): (Repo, bool) {
    var i := Destination(s, nav);
    if i.None? then (s, false)
    else if done < EFFECTS then (Revert(RestoreUpTo(s, i.value, done), Take(s)), false)
    else
      var after := Built(RestoreUpTo(s, i.value, EFFECTS), b);
      if b.ok then (after, true) else (Revert(after, Take(s)), false)
  }

  // ---------------------------------------------------------------- the invariant

  /** Every entry is the child of the one before it, and the first has no parent. */
  ghost predicate Linked(commits: seq<Commit>) {
    forall k :: 0 <= k < |commits| ==> commits[k].parent == LastOf(commits[..k])
  }

  function LastOf(commits: seq<Commit>): Option<Commit> { if commits == [] then None else Some(commits[|commits| - 1]) }

  /** The cursor is in range, the branch is the entry under the cursor, the entries form one chain, and
      history.json agrees. */
  ghost predicate Valid(s: Repo) {
    && Linked(s.commits)
    && (if s.commits == [] then s.index == -1 && s.branch == None
        else 0 <= s.index < |s.commits| && s.branch == Some(s.commits[s.index]))
    && (s.saved == Some(Timeline(s.commits, s.index)) || (s.saved == None && s.commits == []))
  }

  datatype Event =
    | Edit(files: map<File, Option<Bytes>>)
    | MakeCommit(amend: bool, stamp: nat)
    | Navigate(nav: Nav, done: nat, build: Build)

  function Step(s: Repo, e: Event): Repo {
    match e
    case Edit(files) => s.(disk := Replaced(Replaced(Replaced(s.disk, files, GitIgnore), files, ModelPy), files, SettingsJson))
    case MakeCommit(amend, stamp) => CommitStep(s, amend, stamp)
    case Navigate(nav, done, build) => RestoreStep(s, nav, done, build).0
  }

  function Run(s: Repo, events: seq<Event>): Repo {
    if events == [] then s else Step(Run(s, events[..|events| - 1]), events[|events| - 1])
  }

  // ---------------------------------------------------------------- rollback

  predicate SameFile(a: Tree, b: Tree, f: File) { (f in a <==> f in b) && (f in a ==> a[f] == b[f]) }

  /** What a torn restore has not touched. */
  predicate Torn(s: Repo, t: Repo) { t.commits == s.commits && t.staged == s.staged && SameFile(s.disk, t.disk, GitIgnore) }

  lemma RestoreTears(s: Repo, i: nat, k: nat)
    requires i < |s.commits|
    ensures Torn(s, RestoreUpTo(s, i, k))
  {
  }

  lemma BuildTears(s: Repo, t: Repo, b: Build)
    requires Torn(s, t)
    ensures Torn(s, Built(t, b))
  {
  }

  /** Reverting to a snapshot gives the captured state back exactly from the states that kept its entries, its staged
      files and its ignore file, provided history.json was in step when it was taken, and no branch has come up where
      there was none. */
  lemma RevertRepairs(s: Repo, t: Repo)
    ensures Revert(t, Take(s)) == s <==>
              && Torn(s, t) && s.saved == Some(Timeline(s.commits, s.index))
              && (s.branch.Some? || t.branch.None?)
  {
    if SameFile(s.disk, t.disk, GitIgnore) { FilesComeBack(s.disk, t.disk); }
    var files := Take(s).files;
    var back := Revert(t, Take(s));
    assert SameFile(back.disk, t.disk, GitIgnore);
  }

  /** A failed restore, wherever it fails, leaves everything as it was: entries, cursor, branch, staged files, both
      working files and history.json. */
  lemma RollbackExact(s: Repo, nav: Nav, done: nat, b: Build)
    requires Valid(s) && !RestoreStep(s, nav, done, b).1
    ensures RestoreStep(s, nav, done, b).0 == s
  {
    var i := Destination(s, nav);
    if i.Some? {
      RestoreTears(s, i.value, done);
      RestoreTears(s, i.value, EFFECTS);
      BuildTears(s, RestoreUpTo(s, i.value, EFFECTS), b);
      hide RestoreUpTo, Built, Torn, Revert, Take;
      RevertRepairs(s, if done < EFFECTS then RestoreUpTo(s, i.value, done) else Built(RestoreUpTo(s, i.value, EFFECTS), b));
    }
  }

  lemma FilesComeBack(disk: Tree, torn: Tree)
    requires SameFile(disk, torn, GitIgnore)
    ensures var files := map f | f in RESTORE :: if f in disk then Some(disk[f]) else None;
            Replaced(Replaced(torn, files, ModelPy), files, SettingsJson) == disk
  {
    var files: map<File, Option<Bytes>> := map f | f in RESTORE :: if f in disk then Some(disk[f]) else None;
    var back := Replaced(Replaced(torn, files, ModelPy), files, SettingsJson);
    forall f: File
      ensures SameFile(back, disk, f)
    {
      if f == GitIgnore {} else if f == ModelPy {} else {}
    }
    Extensional(back, disk);
  }

  lemma Extensional(a: Tree, b: Tree)
    requires forall f: File :: SameFile(a, b, f)
    ensures a == b
  {
    forall f: File
      ensures f in a <==> f in b
      ensures f in a && f in b ==> a[f] == b[f]
    {
      assert SameFile(a, b, f);
    }
  }

  // ---------------------------------------------------------------- the timeline is the git chain

  lemma CommitKeeps(s: Repo, amend: bool, stamp: nat)
    requires Valid(s)
    ensures Valid(CommitStep(s, amend, stamp))
  {
    CommitMeaning(s, amend, stamp);
    var t := CommitStep(s, amend, stamp);
    var kept := t.commits[..|t.commits| - 1];
    LinkedPrefix(s.commits, |kept|);
    LinkedNext(kept, t.commits[|kept|]);
    assert t.commits == kept + [t.commits[|kept|]];
  }

  lemma LinkedPrefix(commits: seq<Commit>, k: nat)
    requires Linked(commits) && k <= |commits|
    ensures Linked(commits[..k])
  {
  }

  lemma LinkedNext(commits: seq<Commit>, c: Commit)
    requires Linked(commits) && c.parent == LastOf(commits)
    ensures Linked(commits + [c])
  {
  }

  lemma RestoreKeeps(s: Repo, nav: Nav, done: nat, b: Build)
    requires Valid(s)
    ensures Valid(RestoreStep(s, nav, done, b).0)
  {
    if RestoreStep(s, nav, done, b).1 {
      var i := Destination(s, nav).value;
      assert RestoreStep(s, nav, done, b).0 == Built(RestoreUpTo(s, i, EFFECTS), b);
    } else {
      RollbackExact(s, nav, done, b);
    }
  }

  /** Over any run of edits, commits, amendments and navigations, failed ones included, the timeline stays a chain
      of git commits with the branch under the cursor. */
  lemma {:induction false} RunKeeps(s: Repo, events: seq<Event>)
    requires Valid(s)
    ensures Valid(Run(s, events))
  {
    if events != [] {
      RunKeeps(s, events[..|events| - 1]);
      var before := Run(s, events[..|events| - 1]);
      match events[|events| - 1] {
        case Edit(_) =>
        case MakeCommit(amend, stamp) => CommitKeeps(before, amend, stamp);
        case Navigate(nav, done, b) => RestoreKeeps(before, nav, done, b);
      }
    }
  }

  lemma {:induction false} ChainIs(commits: seq<Commit>, k: nat)
    requires Linked(commits) && k <= |commits|
    ensures Chain(LastOf(commits[..k])) == commits[..k]
  {
    if k > 0 {
      ChainIs(commits, k - 1);
      assert commits[..k] == commits[..k - 1] + [commits[k - 1]];
    }
  }

  /** Rebuilding from git gives the timeline back, cut after the cursor: only the entries to redo are lost. */
  lemma RebuildIsCut(s: Repo)
    requires Valid(s)
    ensures Rebuilt(s) == s.(commits := s.commits[..s.index + 1])
    ensures Valid(Save(Rebuilt(s)))
  {
    ChainIs(s.commits, s.index + 1);
    LinkedPrefix(s.commits, s.index + 1);
  }

  /** Loading a workspace again finds the timeline as it was; if history.json is lost, only the entries to redo are. */
  lemma ReloadIsExact(s: Repo)
    requires Valid(s)
    ensures s.saved.Some? ==> Loaded(s.(commits := [], index := -1)) == s
    ensures Loaded(s.(commits := [], index := -1, saved := None)) == s.(commits := s.commits[..s.index + 1], saved := None)
  {
    RebuildIsCut(s);
  }

  /** Whatever cursor history.json holds, loading takes the entry nearest to it; there is none only when there are no entries. */
  lemma LoadedCursor(s: Repo)
    requires s.saved.Some?
    ensures var t, given := Loaded(s), s.saved.value;
            && t.commits == given.commits && t == s.(commits := t.commits, index := t.index)
            && (if given.commits == [] then t.index == -1
                else 0 <= t.index < |t.commits|
                     && forall i :: 0 <= i < |t.commits| ==> Distance(t.index, given.index) <= Distance(i, given.index))
  {
  }

  function Distance(a: int, b: int): nat { if a <= b then b - a else a - b }

  /** A commit drops exactly the entries to redo and adds one; an amendment at the tip replaces the tip, keeping its
      parent. */
  lemma CommitMeaning(s: Repo, amend: bool, stamp: nat)
    requires Valid(s)
    ensures var t := CommitStep(s, amend, stamp);
            var kept := if amend && s.index == |s.commits| - 1 && s.commits != [] then s.commits[..s.index]
                        else s.commits[..s.index + 1];
            && t.commits[..|t.commits| - 1] == kept && |t.commits| == |kept| + 1 && t.index == |kept|
            && t.commits[|kept|].tree == s.staged + s.disk && t.disk == s.disk && t.staged == s.staged + s.disk
            && t.commits[|kept|].parent == (if kept == [] then None else Some(kept[|kept| - 1])) && t.commits[|kept|].stamp == stamp
            && t.branch == Some(t.commits[|kept|]) && t.saved == Some(Timeline(t.commits, t.index))
  {
    assert s.commits != [] ==> s.commits[s.index].parent == LastOf(s.commits[..s.index]);
    var kept := if Amends(s, amend) then s.commits[..s.index] else s.commits[..s.index + 1];
    assert CommitStep(s, amend, stamp).commits[..|kept|] == kept;
  }

  // ---------------------------------------------------------------- navigation

  /** Both working files are as the commit has them. */
  predicate Shows(disk: Tree, c: Commit) { SameFile(disk, c.tree, ModelPy) && SameFile(disk, c.tree, SettingsJson) }

  /** A rebuild that leaves the working files alone. */
  const QUIET := Build(map[], true)

  function Navigated(s: Repo, navs: seq<Nav>): Repo {
    if navs == [] then s else RestoreStep(Navigated(s, navs[..|navs| - 1]), navs[|navs| - 1], EFFECTS, QUIET).0
  }

  /** Some step of the sequence is possible where it is taken. */
  predicate Moves(s: Repo, navs: seq<Nav>) {
    navs != [] && (Moves(s, navs[..|navs| - 1]) || Destination(Navigated(s, navs[..|navs| - 1]), navs[|navs| - 1]).Some?)
  }

  /** The state at entry i: cursor, branch and history.json name it, and both working files hold what it has, or has not, but
      for what the rebuild writes. Entries, staged files and the ignore file are as they were. */
  predicate At(s: Repo, t: Repo, i: int, b: Build) {
    && 0 <= i < |s.commits| && t.commits == s.commits && t.index == i && t.branch == Some(s.commits[i])
    && t.saved == Some(Timeline(s.commits, i)) && t.staged == s.staged
    && forall f: File :: FileAt(s, t, i, b, f)
  }

  predicate FileAt(s: Repo, t: Repo, i: int, b: Build, f: File)
    requires 0 <= i < |s.commits|
  {
    if f == GitIgnore then SameFile(t.disk, s.disk, f)
    else if f !in b.writes then SameFile(t.disk, s.commits[i].tree, f)
    else (f in t.disk <==> b.writes[f].Some?) && (f in t.disk ==> t.disk[f] == b.writes[f].value)
  }

  /** Undo, redo and goto, each exactly when it is possible and nothing fails: one entry back, one entry on, or to the entry
      named. Otherwise nothing has changed. */
  lemma NavigationMeaning(s: Repo, i: int, done: nat, b: Build)
    requires Valid(s)
    ensures var (t, ok) := RestoreStep(s, Undo, done, b);
            (ok <==> s.index > 0 && done >= 5 && b.ok) && if ok then At(s, t, s.index - 1, b) else t == s
    ensures var (t, ok) := RestoreStep(s, Redo, done, b);
            (ok <==> s.commits != [] && s.index < |s.commits| - 1 && done >= 5 && b.ok) && if ok then At(s, t, s.index + 1, b) else t == s
    ensures var (t, ok) := RestoreStep(s, Goto(i), done, b);
            (ok <==> 0 <= i < |s.commits| && i != s.index && done >= 5 && b.ok) && if ok then At(s, t, i, b) else t == s
  {
    NavAt(s, Undo, done, b);
    NavAt(s, Redo, done, b);
    NavAt(s, Goto(i), done, b);
    hide RestoreStep, At;
  }

  lemma NavAt(s: Repo, nav: Nav, done: nat, b: Build)
    requires Valid(s)
    ensures var (t, ok) := RestoreStep(s, nav, done, b);
            && (ok <==> Destination(s, nav).Some? && done >= 5 && b.ok)
            && (if ok then At(s, t, Destination(s, nav).value, b) else t == s)
  {
    if RestoreStep(s, nav, done, b).1 {
      var i := Destination(s, nav).value;
      var t := RestoreStep(s, nav, done, b).0;
      assert t == Built(RestoreUpTo(s, i, EFFECTS), b) && i < |s.commits|;
      hide Destination, RestoreStep, Valid;
      ArrivesAt(s, i, b);
    } else {
      RollbackExact(s, nav, done, b);
    }
  }

  lemma ArrivesAt(s: Repo, i: nat, b: Build)
    requires i < |s.commits|
    ensures At(s, Built(RestoreUpTo(s, i, EFFECTS), b), i, b)
  {
    var t := Built(RestoreUpTo(s, i, EFFECTS), b);
    forall f: File
      ensures FileAt(s, t, i, b, f)
    {
      if f == GitIgnore {} else if f == ModelPy {} else {}
    }
  }

  /** Undoing and redoing, or redoing and undoing, come back to the entry; the state is the very same exactly when the working
      files were those of the entry. */
  lemma UndoRedo(s: Repo)
    requires Valid(s) && s.commits != []
    ensures s.index > 0 ==> var t := Navigated(s, [Undo, Redo]); At(s, t, s.index, QUIET) && (t == s <==> Shows(s.disk, s.commits[s.index]))
    ensures s.index < |s.commits| - 1 ==>
              var t := Navigated(s, [Redo, Undo]); At(s, t, s.index, QUIET) && (t == s <==> Shows(s.disk, s.commits[s.index]))
  {
    if s.index > 0 { ThereAndBack(s, Undo, Redo, s.index - 1); }
    if s.index < |s.commits| - 1 { ThereAndBack(s, Redo, Undo, s.index + 1); }
  }

  lemma ThereAndBack(s: Repo, there: Nav, back: Nav, i: int)
    requires Valid(s) && s.commits != [] && 0 <= i < |s.commits|
    requires (there == Undo && back == Redo && i == s.index - 1) || (there == Redo && back == Undo && i == s.index + 1)
    ensures var t := Navigated(s, [there, back]); At(s, t, s.index, QUIET) && (t == s <==> Shows(s.disk, s.commits[s.index]))
  {
    var u := RestoreStep(s, there, EFFECTS, QUIET).0;
    NavigatedTwice(s, there, back);
    Moved(s, there, i);
    assert u.commits == s.commits && u.index == i;
    Moved(u, back, s.index);
    hide *;
    SameWhenShown(s, u, Navigated(s, [there, back]), i);
  }

  lemma Moved(s: Repo, nav: Nav, i: int)
    requires Valid(s) && s.commits != [] && 0 <= i < |s.commits|
    requires (nav == Undo && i == s.index - 1) || (nav == Redo && i == s.index + 1)
    ensures var t := RestoreStep(s, nav, EFFECTS, QUIET).0; Valid(t) && At(s, t, i, QUIET)
  {
    RestoreKeeps(s, nav, EFFECTS, QUIET);
    assert s.index < |s.commits|;
    hide RestoreStep, At, Valid;
    NavigationMeaning(s, 0, EFFECTS, QUIET);
  }

  lemma NavigatedTwice(s: Repo, a: Nav, b: Nav)
    ensures Navigated(s, [a, b]) == RestoreStep(RestoreStep(s, a, EFFECTS, QUIET).0, b, EFFECTS, QUIET).0
  {
    hide RestoreStep;
    assert [a, b][..1] == [a] && [a][..0] == [];
    assert Navigated(s, [a]) == RestoreStep(s, a, EFFECTS, QUIET).0;
  }

  lemma SameWhenShown(s: Repo, u: Repo, t: Repo, i: int)
    requires Valid(s) && s.commits != [] && At(s, u, i, QUIET) && At(u, t, s.index, QUIET)
    ensures At(s, t, s.index, QUIET) && (t == s <==> Shows(s.disk, s.commits[s.index]))
  {
    forall f: File
      ensures FileAt(s, t, s.index, QUIET, f)
    {
      assert FileAt(s, u, i, QUIET, f) && FileAt(u, t, s.index, QUIET, f);
    }
    assert FileAt(s, t, s.index, QUIET, ModelPy) && FileAt(s, t, s.index, QUIET, SettingsJson);
    if Shows(s.disk, s.commits[s.index]) {
      forall f: File
        ensures SameFile(t.disk, s.disk, f)
      {
        assert FileAt(s, t, s.index, QUIET, f);
        if f == GitIgnore {} else if f == ModelPy {} else {}
      }
      Extensional(t.disk, s.disk);
    }
  }

  lemma Arrives(s: Repo, nav: Nav)
    requires Valid(s)
    ensures var t := RestoreStep(s, nav, EFFECTS, QUIET).0;
            && Valid(t) && t.commits == s.commits && t.staged == s.staged && SameFile(s.disk, t.disk, GitIgnore)
            && (if Destination(s, nav).Some? then t.index == Destination(s, nav).value && Shows(t.disk, t.commits[t.index]) else t == s)
  {
    RestoreKeeps(s, nav, EFFECTS, QUIET);
    if Destination(s, nav).Some? {
      var i := Destination(s, nav).value;
      var t := RestoreStep(s, nav, EFFECTS, QUIET).0;
      assert t == Built(RestoreUpTo(s, i, EFFECTS), QUIET);
    }
  }

  /** After any undo, redo and goto sequence, the working files are those of the entry under the cursor. */
  lemma {:induction false} NavigationShowsEntry(s: Repo, navs: seq<Nav>)
    requires Valid(s)
    ensures var t := Navigated(s, navs);
            && Valid(t) && t.commits == s.commits && t.staged == s.staged && SameFile(s.disk, t.disk, GitIgnore)
            && (if Moves(s, navs) then t.commits != [] && Shows(t.disk, t.commits[t.index]) else t == s)
  {
    if navs != [] {
      NavigationShowsEntry(s, navs[..|navs| - 1]);
      var before := Navigated(s, navs[..|navs| - 1]);
      Arrives(before, navs[|navs| - 1]);
      hide RestoreStep, Valid, Shows, SameFile;
    }
  }

  /** Navigation is path-independent: sequences that move and end at one entry end in one state. */
  lemma PathIndependent(s: Repo, a: seq<Nav>, b: seq<Nav>)
    requires Valid(s) && Moves(s, a) && Moves(s, b) && Navigated(s, a).index == Navigated(s, b).index
    ensures Navigated(s, a) == Navigated(s, b)
  {
    NavigationShowsEntry(s, a);
    NavigationShowsEntry(s, b);
    var t, u := Navigated(s, a), Navigated(s, b);
    forall f: File
      ensures SameFile(t.disk, u.disk, f)
    {
      if f == GitIgnore {} else if f == ModelPy {} else {}
    }
    Extensional(t.disk, u.disk);
  }

  // ---------------------------------------------------------------- what a commit captures

  /** Coming back to a commit just made shows the files it was made from, if and only if no working file that git
      has staged was missing: staging never stages a deletion. */
  lemma CommitCaptures(s: Repo, amend: bool, stamp: nat)
    requires Valid(s)
    ensures var t := CommitStep(s, amend, stamp);
            Shows(s.disk, t.commits[t.index]) <==> forall f :: f in RESTORE && f in s.staged ==> f in s.disk
  {
    var t := CommitStep(s, amend, stamp);
    CommitMeaning(s, amend, stamp);
    assert forall f :: SameFile(s.disk, t.commits[t.index].tree, f) <==> (f in s.staged ==> f in s.disk);
  }

  function Content(f: File, text: Bytes): map<File, Option<Bytes>> { map[f := Some(text)] }

  /** After undoing the entry that brought the settings file, the next commit still has it, though nobody wrote it. */
  lemma StaleFileComesBack(s: Repo, stamp: nat)
    requires Valid(s) && s.index > 0 && SettingsJson in s.staged && SettingsJson !in s.commits[s.index - 1].tree
    ensures var t := CommitStep(RestoreStep(s, Undo, EFFECTS, QUIET).0, false, stamp);
            SettingsJson !in t.disk && 0 <= t.index < |t.commits| && SettingsJson in t.commits[t.index].tree
  {
    var undone := RestoreStep(s, Undo, EFFECTS, QUIET).0;
    Arrives(s, Undo);
    CommitMeaning(undone, false, stamp);
  }

  /** Such a state is four steps from a fresh workspace. */
  lemma StaleFileReachable()
    ensures var s := Run(FRESH, [Edit(Content(ModelPy, "a")), MakeCommit(false, 0),
                                 Edit(Content(SettingsJson, "b")), MakeCommit(false, 1)]);
            Valid(s) && s.index > 0 && SettingsJson in s.staged && SettingsJson !in s.commits[s.index - 1].tree
  {
    var s1 := Step(Step(FRESH, Edit(Content(ModelPy, "a"))), MakeCommit(false, 0));
    FirstEntry();
    RunFour(FRESH, Edit(Content(ModelPy, "a")), MakeCommit(false, 0), Edit(Content(SettingsJson, "b")), MakeCommit(false, 1));
    hide Run;
    SecondEntry(s1);
  }

  lemma FirstEntry()
    ensures var s := Step(Step(FRESH, Edit(Content(ModelPy, "a"))), MakeCommit(false, 0));
            Valid(s) && |s.commits| == 1 && SettingsJson !in s.commits[0].tree
  {
  }

  lemma SecondEntry(s: Repo)
    requires Valid(s) && |s.commits| == 1 && SettingsJson !in s.commits[0].tree
    ensures var t := Step(Step(s, Edit(Content(SettingsJson, "b"))), MakeCommit(false, 1));
            Valid(t) && t.index == 1 && SettingsJson in t.staged && SettingsJson !in t.commits[0].tree
  {
    var s2 := Step(s, Edit(Content(SettingsJson, "b")));
    assert Valid(s2) && SettingsJson in s2.disk && s2.commits == s.commits && s2.index == 0;
    hide Valid, CommitStep;
    CommitKeeps(s2, false, 1);
    CommitMeaning(s2, false, 1);
    var t := CommitStep(s2, false, 1);
    assert t.commits[..|t.commits| - 1][0] == s.commits[0];
  }

  lemma RunFour(s: Repo, a: Event, b: Event, c: Event, d: Event)
    ensures Run(s, [a, b, c, d]) == Step(Step(Step(Step(s, a), b), c), d)
  {
    hide Step;
    RunOne(s, [], a);
    RunOne(s, [a], b);
    RunOne(s, [a, b], c);
    RunOne(s, [a, b, c], d);
    assert [] + [a] == [a] && [a] + [b] == [a, b] && [a, b] + [c] == [a, b, c] && [a, b, c] + [d] == [a, b, c, d];
  }

  lemma RunOne(s: Repo, events: seq<Event>, e: Event)
    ensures Run(s, events + [e]) == Step(Run(s, events), e)
  {
  }
}
