/** What staging and loading mean, file by file (paths.py). */
module PublicationStaging {
  import opened Wrappers
  import opened PublicationDisk
  import opened CrashRecovery
  import opened PublicationInvariants
  import opened PublicationFaults

  // ---------------------------------------------------------------- what a completed staging holds

  /** The bytes are in the directory and listed with their digest. */
  predicate Tracks(dir: Dir, path: Path, data: Bytes) {
    && path in dir.inputs && dir.inputs[path] == data
    && dir.manifest.Some? && (path, Sha256(data)) in dir.manifest.value.inputs
  }

  /** The paths the selected generation lists. */
  function Selected(d: Disk): set<Path> {
    if d.pointer.Some? && d.pointer.value.id in d.generations && d.generations[d.pointer.value.id].manifest.Some?
    then Keys(d.generations[d.pointer.value.id].manifest.value.inputs) else {}
  }

  /** A completed staging holds the two model files with their digests, the model source under the model path in place of
      what the write set says for it, every other entry of the write set, and nothing else; it deletes what the selected
      generation lists and the request does not give, in order. */
  lemma StagedContents(d: Disk, r: Request, deletions: seq<Path>)
    requires Healthy(d) && Fresh(d, r.publication.id) && DistinctKeys(r.writeSet) && ListsDeletions(d, r, deletions)
    requires StageEffects(d, r, deletions).1
    ensures var staged := Run(d, StageEffects(d, r, deletions).0).staging;
            && r.publication.id in staged
            && var dir := staged[r.publication.id];
               && dir.manifest.Some? && dir.json == Some(r.json) && dir.glb == Some(r.glb)
               && var m := dir.manifest.value;
                  && m.publication == r.publication && m.jsonSha == Sha256(r.json) && m.glbSha == Sha256(r.glb)
                  && (r.modelPath.Some? ==> Tracks(dir, r.modelPath.value, if r.source.Some? then r.source.value else ""))
                  && (forall e :: e in r.writeSet && Some(e.0) != r.modelPath ==> Tracks(dir, e.0, e.1))
                  && DistinctKeys(m.inputs)
                  && (forall p :: p in Keys(m.inputs) <==> p in Keys(r.writeSet) || r.modelPath == Some(p))
                  && (forall p :: p in m.deletions <==>
                                  p in Selected(d) && p !in Keys(r.writeSet) && r.modelPath != Some(p))
                  && Sorted(m.deletions)
  {
    var id := r.publication.id;
    StageHealthy(d, r, deletions);
    var dir := Run(d, StageEffects(d, r, deletions).0).staging[id];
    FullWriteSetKeys(r);
    DigestKeys(FullWriteSet(r));
    DeletionsListed(d, r, deletions);
    assert Load(dir) == dir.manifest;
    assert Sound(dir, id) && dir.manifest.value.inputs == Digests(FullWriteSet(r)) && dir.manifest.value.deletions == deletions;
    hide StageEffects, Healthy, ListsDeletions, StagedAs, FullWriteSet, Digests, Sorted, Selected;
    if r.modelPath.Some? {
      EntryTracked(dir, id, FullWriteSet(r), r.modelPath.value, if r.source.Some? then r.source.value else "");
    }
    forall e | e in r.writeSet && Some(e.0) != r.modelPath
      ensures Tracks(dir, e.0, e.1)
    {
      assert (e.0, e.1) == e;
      EntryTracked(dir, id, FullWriteSet(r), e.0, e.1);
    }
  }

  /** The write set with the model source in it: the source wins, the rest stays, and nothing else comes in. */
  lemma FullWriteSetKeys(r: Request)
    requires DistinctKeys(r.writeSet)
    ensures DistinctKeys(FullWriteSet(r))
    ensures forall p :: p in Keys(FullWriteSet(r)) <==> p in Keys(r.writeSet) || r.modelPath == Some(p)
    ensures r.modelPath.Some? ==> (r.modelPath.value, if r.source.Some? then r.source.value else "") in FullWriteSet(r)
    ensures forall e :: e in r.writeSet && Some(e.0) != r.modelPath ==> e in FullWriteSet(r)
  {
    if r.modelPath.Some? {
      var source := if r.source.Some? then r.source.value else "";
      DictPutKeys(r.writeSet, r.modelPath.value, source);
      DictPutHolds(r.writeSet, r.modelPath.value, source);
      hide DictPut, Keys, DistinctKeys;
    }
  }

  lemma {:induction false} DictPutHolds(entries: seq<(Path, Bytes)>, key: Path, value: Bytes)
    ensures (key, value) in DictPut(entries, key, value)
    ensures forall e :: e in entries && e.0 != key ==> e in DictPut(entries, key, value)
    decreases |entries|
  {
    if entries != [] {
      DictPutHolds(entries[1..], key, value);
      assert entries == [entries[0]] + entries[1..];
    }
  }

  lemma EntryTracked(dir: Dir, id: Id, entries: seq<(Path, Bytes)>, path: Path, data: Bytes)
    requires Sound(dir, id) && dir.manifest.value.inputs == Digests(entries) && (path, data) in entries
    ensures Tracks(dir, path, data)
  {
    DigestsOf(entries);
    var i :| 0 <= i < |entries| && entries[i] == (path, data);
    assert Digests(entries)[i] == (path, Sha256(data));
    assert Digests(entries)[i] in dir.manifest.value.inputs;
  }

  lemma DeletionsListed(d: Disk, r: Request, deletions: seq<Path>)
    requires Healthy(d) && DistinctKeys(r.writeSet) && ListsDeletions(d, r, deletions)
    ensures Sorted(deletions)
    ensures forall p :: p in deletions <==> p in Selected(d) && p !in Keys(r.writeSet) && r.modelPath != Some(p)
  {
    FullWriteSetKeys(r);
    assert PublicationInputs(d) == Selected(d) by { hide Sound, Keys; }
    var listed := set x | x in deletions;
    assert listed == PublicationInputs(d) - Keys(FullWriteSet(r));
    hide *;
    assert forall p :: p in deletions <==> p in listed;
  }

  /** Staging completes exactly when the given digest is that of the source, the id is not being staged yet, and every path
      is a safe one. */
  lemma StagingCompletes(d: Disk, r: Request, deletions: seq<Path>)
    requires DistinctKeys(r.writeSet)
    ensures StageEffects(d, r, deletions).1 <==>
              && (r.source.Some? ==> r.publication.sourceHash == Sha256(r.source.value))
              && r.publication.id !in d.staging
              && (forall p :: p in Keys(r.writeSet) || r.modelPath == Some(p) ==> SafeRelative(p))
  {
    FullWriteSetKeys(r);
    InputsComplete(r.publication.id, FullWriteSet(r));
    hide FullWriteSet, SafeRelative, StageInputs, Keys;
  }

  lemma {:induction false} InputsComplete(id: Id, entries: seq<(Path, Bytes)>)
    ensures StageInputs(id, entries).1 <==> forall p :: p in Keys(entries) ==> SafeRelative(p)
    decreases |entries|
  {
    hide SafeRelative;
    if entries != [] {
      var first, rest := entries[0], entries[1..];
      assert entries == [first] + rest;
      KeysOfCons(first, rest);
      InputsComplete(id, rest);
    }
  }

  /** The order of the deletions is that of strings: a proper prefix comes first, and otherwise the first character in which two
      paths differ decides. */
  lemma {:induction false} LessMeaning(a: string, b: string)
    ensures Less(a, b) <==> a < b || exists k :: 0 <= k < |a| && k < |b| && a[..k] == b[..k] && a[k] < b[k]
    decreases |a|
  {
    if a != "" && b != "" && a[0] == b[0] {
      LessMeaning(a[1..], b[1..]);
      assert a == [a[0]] + a[1..] && b == [b[0]] + b[1..];
      assert a < b <==> a[1..] < b[1..];
      if k :| 0 <= k < |a| && k < |b| && a[..k] == b[..k] && a[k] < b[k] {
        assert k > 0 && a[1..][..k - 1] == a[..k][1..] && b[1..][..k - 1] == b[..k][1..];
        assert a[1..][k - 1] == a[k] && b[1..][k - 1] == b[k];
      }
      if k :| 0 <= k < |a[1..]| && k < |b[1..]| && a[1..][..k] == b[1..][..k] && a[1..][k] < b[1..][k] {
        assert a[..k + 1] == [a[0]] + a[1..][..k] && b[..k + 1] == [b[0]] + b[1..][..k];
        assert a[k + 1] == a[1..][k] && b[k + 1] == b[1..][k];
      }
    } else if a != "" && b != "" {
      assert a[..0] == b[..0];
    }
  }

  // ---------------------------------------------------------------- safe paths

  function Join(parts: seq<string>, c: char): string
    requires parts != []
  {
    if |parts| == 1 then parts[0] else parts[0] + [c] + Join(parts[1..], c)
  }

  lemma {:induction false} SplitJoin(s: string, c: char)
    ensures Join(Split(s, c), c) == s
    ensures forall part :: part in Split(s, c) ==> c !in part
    decreases |s|
  {
    if s != "" {
      SplitJoin(s[1..], c);
      var rest := Split(s[1..], c);
      if s[0] == c {
        assert ([""] + rest)[1..] == rest;
        assert "" + [c] + s[1..] == s;
      } else {
        var parts := [[s[0]] + rest[0]] + rest[1..];
        assert parts[1..] == rest[1..];
        if |rest| > 1 {
          assert [s[0]] + rest[0] + [c] + Join(rest[1..], c) == [s[0]] + Join(rest, c);
        }
        assert [s[0]] + s[1..] == s;
      }
    }
  }

  /** Where the parts of a path lead from a directory: a dot stays, two dots go up. */
  function Resolve(at: seq<string>, parts: seq<string>): seq<string>
    decreases |parts|
  {
    if parts == [] then at
    else if parts[0] == "" || parts[0] == "." then Resolve(at, parts[1..])
    else if parts[0] == ".." then Resolve(if at == [] then at else at[..|at| - 1], parts[1..])
    else Resolve(at + [parts[0]], parts[1..])
  }

  predicate Plain(part: string) { part != "" && part != "." && part != ".." }

  lemma {:induction false} ResolveLength(at: seq<string>, parts: seq<string>)
    ensures |Resolve(at, parts)| <= |at| + |parts|
    ensures if forall part :: part in parts ==> Plain(part) then Resolve(at, parts) == at + parts
            else |Resolve(at, parts)| < |at| + |parts|
    decreases |parts|
  {
    if parts == [] {
      assert at + parts == at;
    } else {
      var first, rest := parts[0], parts[1..];
      assert parts == [first] + rest;
      ResolveLength(at, rest);
      ResolveLength(if at == [] then at else at[..|at| - 1], rest);
      ResolveLength(at + [first], rest);
      assert at + [first] + rest == at + parts;
      assert first in parts && forall part :: part in parts <==> part == first || part in rest;
      assert Plain(first) ==> Resolve(at, parts) == Resolve(at + [first], rest);
      hide Resolve;
    }
  }

  /** The accepted paths are the plain relative ones: free of backslashes and drives, and such that from every directory the
      path leads exactly as far down as it has parts. */
  lemma SafePathsDescend(path: Path)
    ensures Join(Split(path, '/'), '/') == path
    ensures SafeRelative(path) <==>
              && path != "" && '\\' !in path && !(|path| >= 2 && path[1] == ':')
              && (forall at :: Resolve(at, Split(path, '/')) == at + Split(path, '/'))
  {
    SplitJoin(path, '/');
    var parts := Split(path, '/');
    assert forall part :: part !in {"", ".", ".."} <==> Plain(part);
    forall at
      ensures (forall part :: part in parts ==> Plain(part)) <==> Resolve(at, parts) == at + parts
    {
      ResolveLength(at, parts);
    }
    var root: seq<string> := [];
    assert (forall part :: part in parts ==> Plain(part)) <==> Resolve(root, parts) == root + parts;
    if path != "" && path[0] == '/' {
      assert parts[0] in parts && !Plain(parts[0]);
    }
    hide Resolve, Split;
  }

  // ---------------------------------------------------------------- what digests protect

  /** The manifest is there, and both model files have the digests it lists. */
  predicate DigestsMatch(dir: Dir) {
    && dir.manifest.Some? && dir.json.Some? && dir.glb.Some?
    && dir.manifest.value.jsonSha == Sha256(dir.json.value) && dir.manifest.value.glbSha == Sha256(dir.glb.value)
  }

  /** The generation exists, describes itself, and every file it lists, model files and inputs, has its digest. */
  predicate Whole(d: Disk, id: Id) {
    && id in d.generations
    && var dir := d.generations[id];
       && DigestsMatch(dir) && dir.manifest.value.publication.id == id
       && forall e :: e in dir.manifest.value.inputs ==> e.0 in dir.inputs && Sha256(dir.inputs[e.0]) == e.1
  }

  /** On every reachable disk, the pointer and the journalled predecessor name whole generations. */
  lemma ReachableWhole(calls: seq<(seq<Effect>, nat)>)
    requires Calls(EMPTY_DISK, calls) && forall a :: a in calls ==> a.1 <= |a.0|
    ensures var d := AfterAttempts(EMPTY_DISK, calls);
            && (d.pointer.Some? ==> Whole(d, d.pointer.value.id))
            && (d.journal.Some? && d.journal.value.prior.Some? ==> Whole(d, d.journal.value.prior.value.id))
            && (d.journal.Some? && d.journal.value.phase == Pointer ==> d.pointer.Some?)
  {
    EmptyDiskHealthy();
    ReachableHealthy(EMPTY_DISK, calls);
  }

  /** A staged directory whose digests do not match is never committed: nothing at all happens. */
  lemma DamagedStagingIgnored(d: Disk, id: Id, io: Option<nat>)
    ensures CommitEffects(d, id, io).0 != [] ==> id in d.staging && DigestsMatch(d.staging[id])
    ensures id in d.staging && DigestsMatch(d.staging[id]) ==> CommitEffects(d, id, io).0 != []
  {
    hide Materialization;
  }

  /** A selected generation that has lost or changed a model file is not shown: recovery puts the journalled predecessor
      back, if it is sound, and otherwise leaves the disk as it is when there is none. */
  lemma DamagedFallsBack(d: Disk)
    requires d.pointer.Some? && (d.pointer.value.id in d.generations ==> !DigestsMatch(d.generations[d.pointer.value.id]))
    ensures d.journal.None? || d.journal.value.prior.None? ==> RecoverEffects(d).0 == []
    ensures d.journal.Some? && d.journal.value.prior.Some? && Selectable(d, d.journal.value.prior.value) ==>
              var dir := d.generations[d.journal.value.prior.value.id];
              var d' := Run(d, RecoverEffects(d).0);
              && d'.pointer == Some(dir.manifest.value.publication) && d'.journal.None? && Shows(d', dir)
  {
    if d.journal.Some? && d.journal.value.prior.Some? && Selectable(d, d.journal.value.prior.value) {
      var prior := d.journal.value.prior.value;
      var dir := d.generations[prior.id];
      PriorComesBack(d, prior, dir);
      TargetMatches(d.workspace, dir, prior.id);
    }
    hide FallbackEffects;
  }

  /** The workspace a commit ends with, file by file: the listed files with the staged bytes, the deletions gone, and
      everything else as it was. */
  lemma PublishedFiles(c: CrashRecovery.Commit, p: Path)
    requires c.Valid()
    ensures var m := Load(c.dir).value;
            && (p in Keys(m.inputs) ==> p in c.dir.inputs && p in c.Published() && c.Published()[p] == c.dir.inputs[p]
                                        && (p, Sha256(c.dir.inputs[p])) in m.inputs)
            && (p in m.deletions ==> p !in c.Published())
            && (p !in Keys(m.inputs) && p !in m.deletions ==> Same(c.Published(), c.start.workspace, p))
  {
    if p in Keys(Load(c.dir).value.inputs) {
      TrackedInput(c.dir, c.id, p);
      var e :| e in Load(c.dir).value.inputs && e.0 == p && e.1 == Sha256(c.dir.inputs[p]);
      assert e == (p, Sha256(c.dir.inputs[p]));
    }
  }

  // ---------------------------------------------------------------- from staging to crash atomicity

  /** What a completed staging leaves on a quiescent disk can be committed, and it deletes exactly what the selected
      generation lists and the new one does not: old-or-new during materialization and the fallback apply to it. */
  lemma StagedAgainstSelected(d: Disk, r: Request, deletions: seq<Path>)
    requires Healthy(d) && Quiescent(d) && Fresh(d, r.publication.id)
    requires DistinctKeys(r.writeSet) && ListsDeletions(d, r, deletions) && StageEffects(d, r, deletions).1
    ensures var d' := Run(d, StageEffects(d, r, deletions).0);
            && r.publication.id in d'.staging
            && var c := Commit(d', r.publication.id, d'.staging[r.publication.id]);
               && c.Valid()
               && (c.start.pointer.Some? ==>
                     forall q :: q in Load(c.dir).value.deletions <==>
                       q in Keys(Load(c.start.generations[c.start.pointer.value.id]).value.inputs)
                       && q !in Keys(Load(c.dir).value.inputs))
               && (c.start.pointer.None? ==> Load(c.dir).value.deletions == [])
  {
    StagedIsCommittable(d, r, deletions);
    StageHealthy(d, r, deletions);
    StagedContents(d, r, deletions);
    var d' := Run(d, StageEffects(d, r, deletions).0);
    var dir := d'.staging[r.publication.id];
    assert d'.pointer == d.pointer && d'.generations == d.generations;
    assert Load(dir) == dir.manifest;
    hide StageEffects, ListsDeletions, Healthy, StagedAs, Fresh;
    if d.pointer.Some? {
      assert Selected(d) == Keys(Load(d.generations[d.pointer.value.id]).value.inputs);
    }
    var gone := dir.manifest.value.deletions;
    assert gone == [] || gone[0] in gone;
  }
}
