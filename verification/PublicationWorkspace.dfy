/** The operations of paths.py on a mutable disk. Each method performs its effects one by one and
    records them, so that its contract states the whole sequence: a crash inside the method leaves
    the disk after some prefix of what was recorded. */
module PublicationWorkspace {
  import opened Wrappers
  import opened PublicationDisk

  class Workspace {
    var staging: map<Id, Dir>
    var generations: map<Id, Dir>
    var pointer: Option<Publication>
    var journal: Option<Journal>
    var files: map<Path, Bytes>
    var glb: Option<Bytes>
    var json: Option<Bytes>
    ghost var log: seq<Effect>

    function View(): Disk
      reads this
    {
      Disk(staging, generations, pointer, journal, files, glb, json)
    }

    constructor ()
      ensures View() == Disk(map[], map[], None, None, map[], None, None) && log == []
    {
      staging, generations, pointer, journal := map[], map[], None, None;
      files, glb, json, log := map[], None, None, [];
    }

    /** Since `start`, exactly the effects `es` were performed, in this order. */
    ghost predicate Performed(start: Disk, log0: seq<Effect>, es: seq<Effect>)
      reads this
    {
      View() == Run(start, es) && log == log0 + es
    }

    /** One rename, copy or unlink. */
    method Perform(e: Effect)
      modifies this
      ensures View() == Apply(old(View()), e) && log == old(log) + [e]
    {
      match e {
        case MakeStaging(id) => staging := staging[id := EMPTY_DIR];
        case StageJson(id, data) => staging := staging[id := StagedDir(id).(json := Some(data))];
        case StageGlb(id, data) => staging := staging[id := StagedDir(id).(glb := Some(data))];
        case StageInput(id, path, data) =>
          staging := staging[id := StagedDir(id).(inputs := StagedDir(id).inputs[path := data])];
        case StageManifest(id, m) => staging := staging[id := StagedDir(id).(manifest := Some(m))];
        case PutJournal(j) => journal := Some(j);
        case DropJournal => journal := None;
        case Promote(from, id) =>
          generations := generations[id := StagedDir(from)];
          staging := staging - {from};
        case PutPointer(p) => pointer := Some(p);
        case CopyInput(path, data) => files := files[path := data];
        case DeleteInput(path) => files := files - {path};
        case PutGlb(data) => glb := Some(data);
        case PutJson(data) => json := Some(data);
        case EmptyGeneration(id) => generations := generations[id := EMPTY_DIR];
        case RemoveGeneration(id) => generations := generations - {id};
      }
      log := log + [e];
    }

    function StagedDir(id: Id): Dir
      reads this
    {
      if id in staging then staging[id] else EMPTY_DIR
    }

    lemma Nothing()
      ensures Performed(View(), log, [])
    {
    }

    /** Perform `e` after `es`. */
    method Then(ghost start: Disk, ghost log0: seq<Effect>, ghost es: seq<Effect>, e: Effect)
      requires Performed(start, log0, es)
      modifies this
      ensures Performed(start, log0, es + [e]) && View() == Apply(old(View()), e)
    {
      RunSnoc(start, es, e);
      Perform(e);
      assert log0 + es + [e] == log0 + (es + [e]);
    }

    /** The copy loop of `materialize_publication`, under an I/O error after `io` file operations. */
    method CopyInputs(dir: Dir, inputs: seq<(Path, Hash)>, io: Option<nat>) returns (ok: bool, left: Option<nat>)
      modifies this
      ensures var (es, done) := Within(Copies(dir, inputs), io);
              Performed(old(View()), old(log), es) && ok == done && (ok ==> left == Rest(io, |es|))
    {
      hide Apply, Run, SafeRelative, Copies, Deletions;
      ghost var start, log0 := View(), log;
      ghost var es: seq<Effect> := [];
      Nothing();
      left := io;
      var i := 0;
      while i < |inputs|
        invariant i <= |inputs|
        invariant Performed(start, log0, es) && (io.Some? ==> |es| <= io.value) && left == Rest(io, |es|)
        invariant Copies(dir, inputs).0 == es + Copies(dir, inputs[i..]).0
        invariant Copies(dir, inputs).1 == Copies(dir, inputs[i..]).1
      {
        var (path, hash) := inputs[i];
        CopiesFrom(dir, inputs, i);
        if !SafeRelative(path) || path !in dir.inputs || Sha256(dir.inputs[path]) != hash {
          assert es + [] == es;
          return false, left;
        }
        if left == Some(0) {
          assert Copies(dir, inputs).0[..|es|] == es;
          return false, left;
        }
        Shift(es, CopyInput(path, dir.inputs[path]), Copies(dir, inputs[i + 1..]).0);
        Then(start, log0, es, CopyInput(path, dir.inputs[path]));
        es, left := es + [CopyInput(path, dir.inputs[path])], Rest(left, 1);
        i := i + 1;
      }
      CopiesNil(dir);
      assert inputs[i..] == [] && es + [] == es;
      ok := true;
    }

    /** The deletion loop of `materialize_publication`. */
    method DeleteInputs(paths: seq<Path>, io: Option<nat>) returns (ok: bool, left: Option<nat>)
      modifies this
      ensures var (es, done) := Within(Deletions(paths), io);
              Performed(old(View()), old(log), es) && ok == done && (ok ==> left == Rest(io, |es|))
    {
      hide Apply, Run, SafeRelative, Copies, Deletions;
      ghost var start, log0 := View(), log;
      ghost var es: seq<Effect> := [];
      Nothing();
      left := io;
      var i := 0;
      while i < |paths|
        invariant i <= |paths|
        invariant Performed(start, log0, es) && (io.Some? ==> |es| <= io.value) && left == Rest(io, |es|)
        invariant Deletions(paths).0 == es + Deletions(paths[i..]).0
        invariant Deletions(paths).1 == Deletions(paths[i..]).1
      {
        DeletionsFrom(paths, i);
        if !SafeRelative(paths[i]) {
          assert es + [] == es;
          return false, left;
        }
        if left == Some(0) {
          assert Deletions(paths).0[..|es|] == es;
          return false, left;
        }
        Shift(es, DeleteInput(paths[i]), Deletions(paths[i + 1..]).0);
        Then(start, log0, es, DeleteInput(paths[i]));
        es, left := es + [DeleteInput(paths[i])], Rest(left, 1);
        i := i + 1;
      }
      DeletionsNil();
      assert paths[i..] == [] && es + [] == es;
      ok := true;
    }

    /** `_write_mirrors`. */
    method WriteMirrors(dir: Dir, io: Option<nat>) returns (ok: bool, left: Option<nat>)
      modifies this
      ensures var (es, done) := Within(Mirrors(dir), io);
              Performed(old(View()), old(log), es) && ok == done && (ok ==> left == Rest(io, |es|))
    {
      ghost var start, log0 := View(), log;
      left := io;
      if dir.glb.None? || io == Some(0) { return false, left; }
      Then(start, log0, [], PutGlb(dir.glb.value));
      assert [] + [PutGlb(dir.glb.value)] == [PutGlb(dir.glb.value)];
      if dir.json.None? { return false, left; }
      if io == Some(1) {
        assert Mirrors(dir).0[..1] == [PutGlb(dir.glb.value)];
        return false, left;
      }
      Then(start, log0, [PutGlb(dir.glb.value)], PutJson(dir.json.value));
      ok, left := true, Rest(io, 2);
    }

    /** `materialize_publication` followed by `_write_mirrors`. */
    method Materialize(dir: Dir, m: Manifest, io: Option<nat>) returns (ok: bool, left: Option<nat>)
      modifies this
      ensures var (es, done) := Within(Materialization(dir, m), io);
              Performed(old(View()), old(log), es) && ok == done && (ok ==> left == Rest(io, |es|))
    {
      hide Apply, Run, Copies, Deletions, Mirrors, Within, Chain;
      ghost var start, log0 := View(), log;
      ghost var copies, deletions, mirrors := Copies(dir, m.inputs), Deletions(m.deletions), Mirrors(dir);
      ChainDone(copies, deletions);
      WithinDone(copies, io);
      WithinChain(Chain(copies, deletions), mirrors, io);
      WithinChain(copies, deletions, io);
      ok, left := CopyInputs(dir, m.inputs, io);
      if !ok { return; }
      WithinDone(deletions, left);
      ok, left := DeleteInputs(m.deletions, left);
      Follow(start, log0, copies.0, Within(deletions, Rest(io, |copies.0|)).0);
      if !ok { return; }
      RestRest(io, |copies.0|, |deletions.0|);
      ghost var before := left;
      WithinDone(mirrors, before);
      ok, left := WriteMirrors(dir, left);
      Follow(start, log0, copies.0 + deletions.0, Within(mirrors, before).0);
      if ok { RestRest(io, |copies.0 + deletions.0|, |mirrors.0|); }
    }

    /** `commit_publication`, under an I/O error after `io` file operations of the materialization.
        `mtime` is the modification time of a generation directory. */
    method CommitPublication(id: Id, io: Option<nat>, mtime: Id -> int) returns (ok: bool, ghost es: seq<Effect>)
      modifies this
      ensures Performed(old(View()), old(log), es)
      ensures WithPruning(old(View()), CommitEffects(old(View()), id, io), es)
      ensures ok == CommitEffects(old(View()), id, io).1
    {
      ghost var start, log0 := View(), log;
      es := [];
      var load := Load(StagedDir(id));
      if load.None? { return false, es; }
      var m := load.value;
      var pub := m.publication;
      ghost var head := SelectGeneration(id, pub);
      var dir := generations[pub.id];
      var left;
      ok, left := Materialize(dir, m, io);
      ghost var body := Within(Materialization(dir, m), io).0;
      Follow(start, log0, head, body);
      es := head + body;
      if ok {
        Then(start, log0, es, DropJournal);
        ghost var core := es + [DropJournal];
        assert CommitEffects(start, id, io) == (core, true);
        ghost var tail := PrunePublications(KEEP, mtime);
        Follow(start, log0, core, tail);
        es := core + tail;
      } else {
        assert head + body + [] == es;
      }
    }

    /** From the journalled intent to the pointer move. */
    method SelectGeneration(id: Id, pub: Publication) returns (ghost es: seq<Effect>)
      requires id in staging
      modifies this
      ensures es == CommitHead(Journal(Some(id), pub, old(pointer), Intent),
                               if pub.id in old(generations) then [] else [Promote(id, pub.id)])
      ensures Performed(old(View()), old(log), es)
      ensures pub.id in generations
      ensures generations[pub.id] == if pub.id in old(generations) then old(generations)[pub.id] else old(staging)[id]
    {
      ghost var start, log0 := View(), log;
      var j := Journal(Some(id), pub, pointer, Intent);
      es := [];
      Then(start, log0, es, PutJournal(j));
      es := es + [PutJournal(j)];
      if pub.id !in generations {
        Then(start, log0, es, Promote(id, pub.id));
        es := es + [Promote(id, pub.id)];
      }
      j := j.(phase := Generation);
      Then(start, log0, es, PutJournal(j));
      es := es + [PutJournal(j)];
      Then(start, log0, es, PutPointer(pub));
      es := es + [PutPointer(pub)];
      j := j.(phase := Pointer);
      Then(start, log0, es, PutJournal(j));
      es := es + [PutJournal(j)];
    }

    /** Two recorded runs in a row are one. */
    lemma Follow(start: Disk, log0: seq<Effect>, es: seq<Effect>, fs: seq<Effect>)
      requires View() == Run(Run(start, es), fs) && log == (log0 + es) + fs
      ensures Performed(start, log0, es + fs)
    {
      RunAppend(start, es, fs);
      assert (log0 + es) + fs == log0 + (es + fs);
    }

    /** `recover_publication`, under an I/O error after `io` file operations, and one after `back` of the fallback's. */
    method RecoverPublication(io: Option<nat>, back: Option<nat>, mtime: Id -> int) returns (ghost es: seq<Effect>)
      modifies this
      ensures Performed(old(View()), old(log), es)
      ensures WithPruning(old(View()), RecoverEffects(old(View()), io, back), es)
    {
      ghost var start, log0 := View(), log;
      var prior := if journal.Some? then journal.value.prior else None;
      es := [];
      if pointer.Some? {
        var dir := GenerationDir(View(), pointer.value.id);
        var load := Load(dir);
        if load.None? {
          es := RecoverPrior(prior, back);
          return;
        }
        var ok;
        ok, es := MaterializeAndClear(dir, load.value, io);
        if !ok {
          ghost var fallback := RecoverPrior(prior, back);
          Follow(start, log0, es, fallback);
          es := es + fallback;
        }
      } else if journal.None? {
      } else if journal.value.phase == Pointer {
        es := RecoverPrior(prior, back);
      } else if journal.value.staged.None? {
        Perform(DropJournal);
        es := [DropJournal];
      } else {
        es := RollForward(journal.value, io, mtime);
      }
    }

    /** Materialize the selected generation and clear the journal. */
    method MaterializeAndClear(dir: Dir, m: Manifest, io: Option<nat>) returns (ok: bool, ghost es: seq<Effect>)
      modifies this
      ensures (es, ok) == Within(Chain(Materialization(dir, m), ([DropJournal], true)), io)
      ensures Performed(old(View()), old(log), es)
    {
      hide Apply, Run, Materialization;
      ghost var start, log0 := View(), log;
      WithinChain(Materialization(dir, m), ([DropJournal], true), io);
      es := Within(Materialization(dir, m), io).0;
      var left;
      ok, left := Materialize(dir, m, io);
      if !ok { return; }
      if left == Some(0) {
        assert es + [] == es;
        return false, es;
      }
      Then(start, log0, es, DropJournal);
      es := es + [DropJournal];
    }

    /** The fallback of `recover_publication`. */
    method RecoverPrior(prior: Option<Publication>, io: Option<nat>) returns (ghost es: seq<Effect>)
      modifies this
      ensures es == FallbackEffects(old(View()), prior, io).0 && Performed(old(View()), old(log), es)
    {
      hide Apply, Run, Materialization;
      ghost var start, log0 := View(), log;
      es := [];
      Nothing();
      if prior.None? { return; }
      var dir := GenerationDir(View(), prior.value.id);
      var load := Load(dir);
      if load.None? { return; }
      ghost var e1, e2 := PutPointer(load.value.publication), DropJournal;
      WithinChain(Materialization(dir, load.value), ([e1, e2], true), io);
      es := Within(Materialization(dir, load.value), io).0;
      var ok, left := Materialize(dir, load.value, io);
      if !ok { return; }
      if left == Some(0) {
        assert es + [] == es;
        return;
      }
      Then(start, log0, es, PutPointer(load.value.publication));
      if left == Some(1) {
        assert [e1, e2][..1] == [e1];
        es := es + [e1];
        return;
      }
      Then(start, log0, es + [e1], DropJournal);
      assert es + [e1] + [e2] == es + [e1, e2];
      es := es + [e1, e2];
    }

    /** Finishing a journalled first publication. */
    method RollForward(j: Journal, io: Option<nat>, mtime: Id -> int) returns (ghost es: seq<Effect>)
      requires journal == Some(j) && j.staged.Some?
      modifies this
      ensures Performed(old(View()), old(log), es)
      ensures WithPruning(old(View()), RollForwardEffects(old(View()), j, io), es)
    {
      ghost var start, log0 := View(), log;
      var source := RollForwardSource(View(), j);
      var load := Load(source);
      es := [];
      if load.None? || (load.value.publication.id !in generations && j.staged.value !in staging) {
        Perform(DropJournal);
        es := [DropJournal];
        return;
      }
      var pub := load.value.publication;
      ghost var head := RollForwardStart(start, j.staged.value, pub);
      var selected, left;
      selected, left, es := PromoteAndSelect(j.staged.value, pub, io);
      if !selected {
        Then(start, log0, es, DropJournal);
        es := es + [DropJournal];
        return;
      }
      var dir := generations[pub.id];
      ghost var after := left;
      var ok;
      ok, left := Materialize(dir, load.value, left);
      ghost var body := Within(Materialization(dir, load.value), after).0;
      Follow(start, log0, head, body);
      es := head + body;
      hide Apply, Run, Materialization, Within, PruneEffects, IsListing;
      if ok {
        Then(start, log0, es, DropJournal);
        ghost var core := es + [DropJournal];
        assert RollForwardEffects(start, j, io) == (core, true);
        ghost var tail := PrunePublications(KEEP, mtime);
        Follow(start, log0, core, tail);
        es := core + tail;
      } else {
        assert head + body + [] == es;
      }
    }

    /** The rename and the pointer move of a roll-forward, under an I/O error after `io` of them. */
    method PromoteAndSelect(from: Id, pub: Publication, io: Option<nat>)
      returns (ok: bool, left: Option<nat>, ghost es: seq<Effect>)
      requires pub.id in generations || from in staging
      modifies this
      ensures Performed(old(View()), old(log), es)
      ensures var head := RollForwardStart(old(View()), from, pub);
              && ok == !(io.Some? && io.value < |head|)
              && (if ok then es == head && left == Rest(io, |head|) else es == head[..io.value])
      ensures ok ==> pub.id in generations
      ensures ok ==> generations[pub.id] == if pub.id in old(generations) then old(generations)[pub.id] else old(staging)[from]
    {
      ghost var start, log0 := View(), log;
      ghost var head := RollForwardStart(start, from, pub);
      es, left := [], io;
      Nothing();
      if left == Some(0) { return false, left, es; }
      if pub.id !in generations {
        Then(start, log0, es, Promote(from, pub.id));
        es, left := es + [Promote(from, pub.id)], Rest(left, 1);
        assert head == [Promote(from, pub.id), PutPointer(pub)];
        if left == Some(0) {
          assert head[..1] == es;
          return false, left, es;
        }
      }
      Then(start, log0, es, PutPointer(pub));
      es, left := es + [PutPointer(pub)], Rest(left, 1);
      ok := true;
    }

    /** `stage_publication`. */
    method StagePublication(r: Request) returns (ok: bool, deletions: seq<Path>, ghost es: seq<Effect>)
      modifies this
      ensures ListsDeletions(old(View()), r, deletions)
      ensures es == StageEffects(old(View()), r, deletions).0 && ok == StageEffects(old(View()), r, deletions).1
      ensures Performed(old(View()), old(log), es)
    {
      ghost var start, log0 := View(), log;
      var entries := FullWriteSet(r);
      deletions := SortedPaths(PublicationInputs(View()) - Keys(entries));
      var pub, id := r.publication, r.publication.id;
      es := [];
      if (r.source.Some? && pub.sourceHash != Sha256(r.source.value)) || id in staging { return false, deletions, es; }
      Then(start, log0, es, MakeStaging(id));
      Then(start, log0, es + [MakeStaging(id)], StageJson(id, r.json));
      Then(start, log0, es + [MakeStaging(id)] + [StageJson(id, r.json)], StageGlb(id, r.glb));
      es := [MakeStaging(id), StageJson(id, r.json), StageGlb(id, r.glb)];
      assert es == [] + [MakeStaging(id)] + [StageJson(id, r.json)] + [StageGlb(id, r.glb)];
      ghost var head := es;
      ok := WriteInputs(id, entries);
      Follow(start, log0, head, StageInputs(id, entries).0);
      es := head + StageInputs(id, entries).0;
      if ok {
        var m := Manifest(pub, Sha256(r.json), Sha256(r.glb), Digests(entries), deletions);
        Then(start, log0, es, StageManifest(id, m));
        es := es + [StageManifest(id, m)];
      }
    }

    /** The input loop of `stage_publication`. */
    method WriteInputs(id: Id, entries: seq<(Path, Bytes)>) returns (ok: bool)
      modifies this
      ensures Performed(old(View()), old(log), StageInputs(id, entries).0) && ok == StageInputs(id, entries).1
    {
      hide Apply, Run, SafeRelative;
      ghost var start, log0 := View(), log;
      ghost var es: seq<Effect> := [];
      Nothing();
      var i := 0;
      while i < |entries|
        invariant i <= |entries|
        invariant Performed(start, log0, es)
        invariant StageInputs(id, entries).0 == es + StageInputs(id, entries[i..]).0
        invariant StageInputs(id, entries).1 == StageInputs(id, entries[i..]).1
      {
        assert entries[i..][0] == entries[i] && entries[i..][1..] == entries[i + 1..];
        StageInputsNext(id, entries[i..], es);
        if !SafeRelative(entries[i].0) { return false; }
        Then(start, log0, es, StageInput(id, entries[i].0, entries[i].1));
        es := es + [StageInput(id, entries[i].0, entries[i].1)];
        i := i + 1;
      }
      assert entries[i..] == [] && es + [] == es;
      ok := true;
    }

    /** `prune_publications`. */
    method PrunePublications(keep: nat, mtime: Id -> int) returns (ghost es: seq<Effect>)
      modifies this
      ensures Performed(old(View()), old(log), es)
      ensures exists entries :: IsListing(old(View()), entries) && NewestFirstBy(mtime, entries)
                             && es == PruneEffects(old(View()), entries, keep)
    {
      ghost var start, log0 := View(), log;
      var entries := NewestFirst(generations.Keys, mtime);
      Listing(start, entries);
      var kept := Kept(View(), entries, keep);
      assert PruneEffects(start, entries, keep) == RemovalEffects(Stale(entries, kept));
      es := RemoveOutside(entries, kept);
    }

    /** The removal loop: every listed generation outside `kept` goes, in listing order. */
    method RemoveOutside(entries: seq<Id>, kept: set<Id>) returns (ghost es: seq<Effect>)
      modifies this
      ensures Performed(old(View()), old(log), es) && es == RemovalEffects(Stale(entries, kept))
    {
      hide Apply, Run, RemovalEffects;
      ghost var start, log0 := View(), log;
      es := [];
      RemovalNil();
      Nothing();
      var i := 0;
      while i < |entries|
        invariant i <= |entries|
        invariant Performed(start, log0, es)
        invariant RemovalEffects(Stale(entries, kept)) == es + RemovalEffects(Stale(entries[i..], kept))
      {
        assert entries[i..][0] == entries[i] && entries[i..][1..] == entries[i + 1..];
        if entries[i] !in kept {
          RemovalCons(entries[i], Stale(entries[i + 1..], kept));
          assert Stale(entries[i..], kept) == [entries[i]] + Stale(entries[i + 1..], kept);
          Then(start, log0, es, EmptyGeneration(entries[i]));
          Then(start, log0, es + [EmptyGeneration(entries[i])], RemoveGeneration(entries[i]));
          es := es + [EmptyGeneration(entries[i])] + [RemoveGeneration(entries[i])];
        }
        i := i + 1;
      }
    }
  }

  lemma Shift(es: seq<Effect>, e: Effect, rest: seq<Effect>)
    ensures es + ([e] + rest) == es + [e] + rest
  {
  }

  lemma CopiesNil(dir: Dir)
    ensures Copies(dir, []) == ([], true)
  {
  }

  lemma CopiesFrom(dir: Dir, inputs: seq<(Path, Hash)>, i: nat)
    requires i < |inputs|
    ensures var (path, hash) := inputs[i];
            var rest := Copies(dir, inputs[i + 1..]);
            Copies(dir, inputs[i..]) ==
              if !SafeRelative(path) || path !in dir.inputs || Sha256(dir.inputs[path]) != hash then ([], false)
              else ([CopyInput(path, dir.inputs[path])] + rest.0, rest.1)
  {
  }

  lemma DeletionsNil()
    ensures Deletions([]) == ([], true)
  {
  }

  lemma DeletionsFrom(paths: seq<Path>, i: nat)
    requires i < |paths|
    ensures var rest := Deletions(paths[i + 1..]);
            Deletions(paths[i..]) ==
              if !SafeRelative(paths[i]) then ([], false) else ([DeleteInput(paths[i])] + rest.0, rest.1)
  {
  }

  lemma RemovalNil()
    ensures RemovalEffects([]) == []
  {
  }

  lemma RemovalCons(id: Id, rest: seq<Id>)
    ensures RemovalEffects([id] + rest) == [EmptyGeneration(id)] + [RemoveGeneration(id)] + RemovalEffects(rest)
  {
  }

  lemma Listing(d: Disk, entries: seq<Id>)
    requires forall i, j :: 0 <= i < j < |entries| ==> entries[i] != entries[j]
    requires forall id :: id in entries <==> id in d.generations
    ensures IsListing(d, entries)
  {
  }

  lemma {:induction false} LessTotal(a: string, b: string)
    ensures a == b || Less(a, b) || Less(b, a)
  {
    if a != "" && b != "" && a[0] == b[0] {
      LessTotal(a[1..], b[1..]);
      assert a == [a[0]] + a[1..] && b == [b[0]] + b[1..];
    }
  }

  lemma {:induction false} LessTransitive(a: string, b: string, c: string)
    requires Less(a, b) && Less(b, c)
    ensures Less(a, c)
  {
    if a != "" && a[0] == b[0] == c[0] { LessTransitive(a[1..], b[1..], c[1..]); }
  }

  /** `sorted`. */
  method SortedPaths(paths: set<Path>) returns (list: seq<Path>)
    ensures (set p | p in list) == paths && Sorted(list)
  {
    hide Less;
    list := [];
    var left := paths;
    while left != {}
      invariant left <= paths && forall p :: p in list <==> p in paths && p !in left
      invariant Sorted(list) && forall x, y :: x in list && y in left ==> Less(x, y)
      decreases left
    {
      var least := LeastPath(left);
      list, left := list + [least], left - {least};
    }
  }

  method LeastPath(paths: set<Path>) returns (least: Path)
    requires paths != {}
    ensures least in paths && forall p :: p in paths && p != least ==> Less(least, p)
  {
    hide Less;
    least :| least in paths;
    var left := paths - {least};
    while left != {}
      invariant left <= paths && least in paths
      invariant forall p :: p in paths && p !in left && p != least ==> Less(least, p)
      decreases left
    {
      var p :| p in left;
      LessTotal(p, least);
      if p != least && !Less(least, p) {
        forall x | x in paths && x !in left && x != least
          ensures Less(p, x)
        {
          LessTransitive(p, least, x);
        }
        least := p;
      }
      left := left - {p};
    }
  }

  predicate NewestFirstBy(mtime: Id -> int, entries: seq<Id>) {
    forall i, j :: 0 <= i < j < |entries| ==> mtime(entries[i]) >= mtime(entries[j])
  }

  /** The generations sorted by modification time, newest first. */
  method NewestFirst(ids: set<Id>, mtime: Id -> int) returns (entries: seq<Id>)
    ensures forall i, j :: 0 <= i < j < |entries| ==> entries[i] != entries[j]
    ensures forall id :: id in entries <==> id in ids
    ensures NewestFirstBy(mtime, entries)
  {
    entries := [];
    var left := ids;
    while left != {}
      invariant left <= ids && forall id :: id in entries <==> id in ids && id !in left
      invariant forall i, j :: 0 <= i < j < |entries| ==> entries[i] != entries[j]
      invariant NewestFirstBy(mtime, entries)
      invariant forall x, y :: x in entries && y in left ==> mtime(x) >= mtime(y)
      decreases left
    {
      var newest := Newest(left, mtime);
      entries, left := entries + [newest], left - {newest};
    }
  }

  method Newest(ids: set<Id>, mtime: Id -> int) returns (newest: Id)
    requires ids != {}
    ensures newest in ids && forall id :: id in ids ==> mtime(id) <= mtime(newest)
  {
    newest :| newest in ids;
    var left := ids - {newest};
    while left != {}
      invariant left <= ids && newest in ids
      invariant forall id :: id in ids && id !in left ==> mtime(id) <= mtime(newest)
      decreases left
    {
      var id :| id in left;
      if mtime(id) > mtime(newest) { newest := id; }
      left := left - {id};
    }
  }

  /** The next step of the staging loop, after the effects `es`. */
  lemma StageInputsNext(id: Id, left: seq<(Path, Bytes)>, es: seq<Effect>)
    requires left != []
    ensures var (all, ok) := StageInputs(id, left);
            if SafeRelative(left[0].0)
            then es + all == es + [StageInput(id, left[0].0, left[0].1)] + StageInputs(id, left[1..]).0
                 && ok == StageInputs(id, left[1..]).1
            else es + all == es && !ok
  {
  }

  lemma WithinDone(p: (seq<Effect>, bool), io: Option<nat>)
    ensures Within(p, io).1 ==> Within(p, io) == p && (io.Some? ==> |p.0| <= io.value)
  {
  }

  lemma ChainDone(p: (seq<Effect>, bool), q: (seq<Effect>, bool))
    ensures p.1 ==> Chain(p, q) == (p.0 + q.0, q.1)
  {
  }

  lemma RestRest(io: Option<nat>, m: nat, n: nat)
    requires io.Some? ==> m <= io.value && n <= io.value - m
    ensures Rest(Rest(io, m), n) == Rest(io, m + n)
  {
  }

  /** An I/O error in a chain of plans strikes the plan it falls into. */
  lemma WithinChain(p: (seq<Effect>, bool), q: (seq<Effect>, bool), io: Option<nat>)
    ensures Within(Chain(p, q), io) ==
            if Within(p, io).1 then (p.0 + Within(q, Rest(io, |p.0|)).0, Within(q, Rest(io, |p.0|)).1) else Within(p, io)
  {
    if io.Some? && p.1 {
      var n := io.value;
      if |p.0| <= n < |p.0 + q.0| {
        assert (p.0 + q.0)[..n] == p.0 + q.0[..n - |p.0|];
      } else if n < |p.0| {
        assert (p.0 + q.0)[..n] == p.0[..n];
      }
    }
  }
}
