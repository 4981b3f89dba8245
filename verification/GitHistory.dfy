/** Class `History` of history.py and the transactional restore of session.py, on mutable fields. The contracts tie
    each method to a step of HistoryModel.dfy, where the properties of runs are proved, and keep the invariant
    of the timeline. */
module GitHistory {
  import opened Wrappers
  import opened HistoryModel

  class History {
    var commits: seq<Commit>
    var index: int
    var branch: Option<Commit>
    var staged: Tree
    var disk: Tree
    var saved: Option<Timeline>

    ghost function View(): Repo
      reads this
    {
      Repo(commits, index, branch, staged, disk, saved)
    }

    constructor ()
      ensures View() == FRESH && Valid(View())
    {
      commits, index, branch, staged, disk, saved := [], -1, None, map[], map[], None;
    }

    /** `_save_timeline`. */
    method SaveTimeline()
      modifies this`saved
      ensures View() == Save(old(View()))
    {
      saved := Some(Timeline(commits, index));
    }

    /** `_rebuild_timeline_from_git`: walk the parents from the branch, then reverse. */
    method RebuildTimeline()
      modifies this`commits, this`index
      ensures View() == Rebuilt(old(View()))
    {
      var chain: seq<Commit> := [];
      var at := branch;
      while at.Some?
        invariant Chain(branch) == Chain(at) + chain
        decreases at
      {
        ghost var below := Chain(at.value.parent);
        assert below + [at.value] + chain == below + ([at.value] + chain);
        chain := [at.value] + chain;
        at := at.value.parent;
      }
      commits := chain;
      index := |chain| - 1;
    }

    /** `_load_timeline`. */
    method LoadTimeline()
      modifies this`commits, this`index
      ensures View() == Loaded(old(View()))
    {
      if saved.Some? {
        commits, index := saved.value.commits, saved.value.index;
      } else {
        RebuildTimeline();
      }
      index := Clamp(|commits|, index);
    }

    /** `_stage`. */
    method StageFiles()
      modifies this`staged
      ensures View() == Stage(old(View()))
    {
      var rels := [GitIgnore, ModelPy, SettingsJson];
      for i := 0 to |rels|
        invariant staged == StagedFirst(old(staged), disk, rels, i)
      {
        if rels[i] in disk { staged := staged[rels[i] := disk[rels[i]]]; }
      }
      AllStaged(old(staged), disk, rels);
    }

    /** `commit`. */
    method MakeCommit(amend: bool, stamp: nat) returns (c: Commit)
      requires Valid(View())
      modifies this
      ensures Valid(View()) && View() == CommitStep(old(View()), amend, stamp) && branch == Some(c)
    {
      CommitKeeps(View(), amend, stamp);
      hide *;
      c := CommitFiles(amend, stamp);
    }

    method CommitFiles(amend: bool, stamp: nat) returns (c: Commit)
      modifies this
      ensures View() == CommitStep(old(View()), amend, stamp) && branch == Some(c)
    {
      StageFiles();
      var atTip := index == |commits| - 1;
      if amend && atTip && commits != [] {
        c := Commit(staged, if branch.Some? then branch.value.parent else None, stamp);
        branch := Some(c);
        commits := commits[..|commits| - 1] + [c];
      } else {
        c := Commit(staged, branch, stamp);
        branch := Some(c);
        if 0 <= index + 1 <= |commits| { commits := commits[..index + 1]; }
        commits := commits + [c];
        index := |commits| - 1;
      }
      SaveTimeline();
    }

    /** `_restore_to`; it raises after `done` of its effects when there are fewer than all. */
    method RestoreTo(i: nat, done: nat) returns (raised: bool)
      requires i < |commits|
      modifies this
      ensures View() == RestoreUpTo(old(View()), i, done) && raised == (done < EFFECTS)
    {
      var c := commits[i];
      var files := [ModelPy, SettingsJson];
      for k := 0 to |files|
        invariant k <= done && View() == RestoreUpTo(old(View()), i, k)
      {
        if done == k { return true; }
        var f := files[k];
        if f in c.tree { disk := disk[f := c.tree[f]]; } else { disk := disk - {f}; }
      }
      if done == 2 { return true; }
      branch := Some(c);
      if done == 3 { return true; }
      index := i;
      if done == 4 { return true; }
      SaveTimeline();
      raised := false;
    }

    /** `snapshot_state`: whatever a failed restore has done since, reverting to the snapshot undoes it. */
    method TakeSnapshot() returns (snap: Snapshot)
      ensures snap == Take(View())
      ensures forall t :: Torn(View(), t) && branch.Some? && saved == Some(Timeline(commits, index)) ==> Revert(t, snap) == View()
    {
      forall t | Torn(View(), t) && branch.Some? && saved == Some(Timeline(commits, index))
        ensures Revert(t, Take(View())) == View()
      {
        RevertRepairs(View(), t);
      }
      snap := Snapshot(index, branch, map f | f in RESTORE :: if f in disk then Some(disk[f]) else None);
    }

    /** `revert_state`. */
    method RevertTo(snap: Snapshot)
      modifies this
      ensures View() == Revert(old(View()), snap)
    {
      ReplaceFile(snap.files, ModelPy);
      ReplaceFile(snap.files, SettingsJson);
      if snap.branch.Some? { branch := snap.branch; }
      index := snap.index;
      SaveTimeline();
    }

    method ReplaceFile(files: map<File, Option<Bytes>>, f: File)
      modifies this`disk
      ensures disk == Replaced(old(disk), files, f)
    {
      if f in files {
        if files[f].Some? { disk := disk[f := files[f].value]; } else { disk := disk - {f}; }
      }
    }

    /** `undo`, `redo` and `goto`: false when there is nowhere to go. */
    method Navigate(nav: Nav, done: nat) returns (moved: bool, raised: bool)
      modifies this
      ensures moved == Destination(old(View()), nav).Some?
      ensures nav.Undo? ==> moved == (0 < old(index) <= |commits|)
      ensures nav.Redo? ==> moved == (0 <= old(index) < |commits| - 1)
      ensures nav.Goto? ==> moved == (0 <= nav.i < |commits| && nav.i != old(index))
      ensures raised == (moved && done < EFFECTS)
      ensures View() == if moved then RestoreUpTo(old(View()), Destination(old(View()), nav).value, done) else old(View())
      ensures commits == old(commits)
      ensures moved && !raised ==>
                && index == (if nav.Undo? then old(index) - 1 else if nav.Redo? then old(index) + 1 else nav.i)
                && 0 <= index < |commits| && branch == Some(commits[index])
    {
      match nav {
        case Undo =>
          if !(index > 0 && index - 1 < |commits|) { return false, false; }
          raised := RestoreTo(index - 1, done);
        case Redo =>
          if !(0 <= index < |commits| - 1) { return false, false; }
          raised := RestoreTo(index + 1, done);
        case Goto(i) =>
          if !(0 <= i < |commits|) || i == index { return false, false; }
          raised := RestoreTo(i, done);
      }
      moved := true;
    }

    /** The rebuild of the restored state: it may write the working files, and succeeds or not. */
    method Rebuild(b: Build)
      modifies this`disk
      ensures View() == Built(old(View()), b)
    {
      ReplaceFile(b.writes, ModelPy);
      ReplaceFile(b.writes, SettingsJson);
    }

    /** `_restore_step`: either the restore and its rebuild go through, or nothing has changed. */
    method RestoreOrRollBack(nav: Nav, done: nat, b: Build) returns (ok: bool)
      requires Valid(View())
      modifies this
      ensures Valid(View()) && View() == RestoreStep(old(View()), nav, done, b).0 && ok == RestoreStep(old(View()), nav, done, b).1
      ensures !ok ==> View() == old(View())
    {
      RestoreKeeps(View(), nav, done, b);
      if !RestoreStep(View(), nav, done, b).1 { RollbackExact(View(), nav, done, b); }
      hide Valid, RestoreUpTo, Built, Revert, Take;
      var snap := TakeSnapshot();
      var moved, raised := Navigate(nav, done);
      if !moved { return false; }
      if raised {
        RevertTo(snap);
        return false;
      }
      FullRestore(old(View()), Destination(old(View()), nav).value, done);
      Rebuild(b);
      if !b.ok { RevertTo(snap); }
      ok := b.ok;
    }
  }

  ghost function StagedFirst(staged: Tree, disk: Tree, rels: seq<File>, k: nat): Tree
    requires k <= |rels|
  {
    if k == 0 then staged
    else
      var before := StagedFirst(staged, disk, rels, k - 1);
      if rels[k - 1] in disk then before[rels[k - 1] := disk[rels[k - 1]]] else before
  }

  lemma AllStaged(staged: Tree, disk: Tree, rels: seq<File>)
    requires rels == [GitIgnore, ModelPy, SettingsJson]
    ensures StagedFirst(staged, disk, rels, 3) == staged + disk
  {
    var s1, s2, s3 := StagedFirst(staged, disk, rels, 1), StagedFirst(staged, disk, rels, 2), StagedFirst(staged, disk, rels, 3);
    assert StagedFirst(staged, disk, rels, 0) == staged;
    assert s1 == if GitIgnore in disk then staged[GitIgnore := disk[GitIgnore]] else staged;
    assert s2 == if ModelPy in disk then s1[ModelPy := disk[ModelPy]] else s1;
    assert s3 == if SettingsJson in disk then s2[SettingsJson := disk[SettingsJson]] else s2;
    hide StagedFirst;
    forall f: File
      ensures SameFile(s3, staged + disk, f)
    {
      if f == GitIgnore {} else if f == ModelPy {} else {}
    }
    Extensional(s3, staged + disk);
  }

  lemma FullRestore(s: Repo, i: nat, done: nat)
    requires i < |s.commits| && done >= EFFECTS
    ensures RestoreUpTo(s, i, done) == RestoreUpTo(s, i, EFFECTS)
  {
  }
}
