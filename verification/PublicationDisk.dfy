/** The crash-safe publication protocol (paths.py): staging, commit, recovery and pruning.

    Every rename, copy and unlink is one atomic effect on a value of type `Disk`; an operation is the
    sequence of effects it performs, and a crash keeps any prefix of that sequence. The methods of
    class `Workspace` in PublicationWorkspace.dfy perform the effects one by one and record them. */
module PublicationDisk {
  import opened Wrappers

  type Path = string
  type Bytes = string
  type Id = string

  /** A digest: absent, or injective in the content it was taken of. */
  datatype Hash = NoHash | Sha256(content: Bytes)

  datatype Publication = Publication(id: Id, buildId: int, sourceHash: Hash)

  /** Self-description of a publication. Inputs keep their dictionary order; their paths are distinct. */
  datatype Manifest = Manifest(publication: Publication, jsonSha: Hash, glbSha: Hash,
                               inputs: seq<(Path, Hash)>, deletions: seq<Path>)

  /** A staging or generation directory, possibly incomplete. */
  datatype Dir = Dir(json: Option<Bytes>, glb: Option<Bytes>, inputs: map<Path, Bytes>, manifest: Option<Manifest>)

  datatype Phase = Intent | Generation | Pointer

  datatype Journal = Journal(staged: Option<Id>, publication: Publication, prior: Option<Publication>, phase: Phase)

  /** Everything durable: directories, the selected pointer, the journal, the workspace files and both mirrors. */
  datatype Disk = Disk(staging: map<Id, Dir>, generations: map<Id, Dir>,
                       pointer: Option<Publication>, journal: Option<Journal>,
                       workspace: map<Path, Bytes>, glb: Option<Bytes>, json: Option<Bytes>)

  const EMPTY_DIR := Dir(None, None, map[], None)

  // ---------------------------------------------------------------- atomic effects

  datatype Effect =
    | MakeStaging(id: Id)
    | StageJson(id: Id, data: Bytes)
    | StageGlb(id: Id, data: Bytes)
    | StageInput(id: Id, path: Path, data: Bytes)
    | StageManifest(id: Id, manifest: Manifest)
    | PutJournal(journal: Journal)
    | DropJournal
    | Promote(from: Id, id: Id)
    | PutPointer(publication: Publication)
    | CopyInput(path: Path, data: Bytes)
    | DeleteInput(path: Path)
    | PutGlb(data: Bytes)
    | PutJson(data: Bytes)
    | EmptyGeneration(id: Id)
    | RemoveGeneration(id: Id)

  function Stage(d: Disk, id: Id, dir: Dir): Disk { d.(staging := d.staging[id := dir]) }

  function Staged(d: Disk, id: Id): Dir { if id in d.staging then d.staging[id] else EMPTY_DIR }

  function Apply(d: Disk, e: Effect): Disk {
    match e
    case MakeStaging(id) => Stage(d, id, EMPTY_DIR)
    case StageJson(id, data) => Stage(d, id, Staged(d, id).(json := Some(data)))
    case StageGlb(id, data) => Stage(d, id, Staged(d, id).(glb := Some(data)))
    case StageInput(id, path, data) => Stage(d, id, Staged(d, id).(inputs := Staged(d, id).inputs[path := data]))
    case StageManifest(id, m) => Stage(d, id, Staged(d, id).(manifest := Some(m)))
    case PutJournal(j) => d.(journal := Some(j))
    case DropJournal => d.(journal := None)
    case Promote(from, id) => d.(generations := d.generations[id := Staged(d, from)], staging := d.staging - {from})
    case PutPointer(p) => d.(pointer := Some(p))
    case CopyInput(path, data) => d.(workspace := d.workspace[path := data])
    case DeleteInput(path) => d.(workspace := d.workspace - {path})
    case PutGlb(data) => d.(glb := Some(data))
    case PutJson(data) => d.(json := Some(data))
    case EmptyGeneration(id) => d.(generations := d.generations[id := EMPTY_DIR])
    case RemoveGeneration(id) => d.(generations := d.generations - {id})
  }

  function Run(d: Disk, es: seq<Effect>): Disk
    decreases |es|
  {
    if es == [] then d else Run(Apply(d, es[0]), es[1..])
  }

  lemma {:induction false} RunAppend(d: Disk, es: seq<Effect>, fs: seq<Effect>)
    ensures Run(d, es + fs) == Run(Run(d, es), fs)
    decreases |es|
  {
    if es == [] {
      assert es + fs == fs;
    } else {
      assert (es + fs)[0] == es[0] && (es + fs)[1..] == es[1..] + fs;
      RunAppend(Apply(d, es[0]), es[1..], fs);
    }
  }

  lemma RunCons(d: Disk, e: Effect, es: seq<Effect>)
    ensures Run(d, [e] + es) == Run(Apply(d, e), es)
  {
  }

  lemma RunSnoc(d: Disk, es: seq<Effect>, e: Effect)
    ensures Run(d, es + [e]) == Apply(Run(d, es), e)
  {
    RunAppend(d, es, [e]);
    RunCons(Run(d, es), e, []);
    assert [e] + [] == [e];
  }

  // ---------------------------------------------------------------- path validation

  function Split(s: string, c: char): (parts: seq<string>)
    ensures |parts| >= 1
  {
    if s == "" then [""]
    else if s[0] == c then [""] + Split(s[1..], c)
    else var rest := Split(s[1..], c); [[s[0]] + rest[0]] + rest[1..]
  }

  /** `_validate_relative_path`: a plain relative path, on POSIX and on Windows. */
  predicate SafeRelative(path: Path) {
    && path != ""
    && path[0] != '/'
    && !(|path| >= 2 && path[1] == ':')
    && '\\' !in path
    && forall part :: part in Split(path, '/') ==> part !in {"", ".", ".."}
  }

  // ---------------------------------------------------------------- reading directories

  /** `_load_staged`: the manifest of a directory whose model files match their digests. */
  function Load(dir: Dir): Option<Manifest> {
    if dir.manifest.None? then None
    else
      var m := dir.manifest.value;
      if dir.json.None? || Sha256(dir.json.value) != m.jsonSha then None
      else if dir.glb.None? || Sha256(dir.glb.value) != m.glbSha then None
      else Some(m)
  }

  function GenerationDir(d: Disk, id: Id): Dir { if id in d.generations then d.generations[id] else EMPTY_DIR }

  function Keys<V(==)>(entries: seq<(Path, V)>): set<Path> { set e | e in entries :: e.0 }

  predicate DistinctKeys<V>(entries: seq<(Path, V)>) {
    forall i, j :: 0 <= i < j < |entries| ==> entries[i].0 != entries[j].0
  }

  /** A directory as staging leaves it: it loads, describes itself, and every listed input is there. */
  predicate Sound(dir: Dir, id: Id) {
    && Load(dir).Some?
    && var m := Load(dir).value;
       && m.publication.id == id
       && DistinctKeys(m.inputs)
       && (forall e :: e in m.inputs ==> SafeRelative(e.0) && e.0 in dir.inputs && Sha256(dir.inputs[e.0]) == e.1)
       && (forall p :: p in m.deletions ==> SafeRelative(p) && p !in Keys(m.inputs))
  }

  // ---------------------------------------------------------------- staging

  /** What a caller hands to `stage_publication`. The write set keeps its dictionary order. */
  datatype Request = Request(publication: Publication, json: Bytes, glb: Bytes,
                             source: Option<Bytes>, modelPath: Option<Path>, writeSet: seq<(Path, Bytes)>)

  /** Dictionary assignment: replace in place, or append. */
  function DictPut(entries: seq<(Path, Bytes)>, key: Path, value: Bytes): seq<(Path, Bytes)> {
    if entries == [] then [(key, value)]
    else if entries[0].0 == key then [(key, value)] + entries[1..]
    else [entries[0]] + DictPut(entries[1..], key, value)
  }

  /** The write set with the model source in it. */
  function FullWriteSet(r: Request): seq<(Path, Bytes)> {
    if r.modelPath.None? then r.writeSet
    else DictPut(r.writeSet, r.modelPath.value, if r.source.Some? then r.source.value else "")
  }

  /** Input files, in order, until an unsafe path stops the loop. */
  function StageInputs(id: Id, entries: seq<(Path, Bytes)>): (seq<Effect>, bool) {
    if entries == [] then ([], true)
    else if !SafeRelative(entries[0].0) then ([], false)
    else
      var (rest, ok) := StageInputs(id, entries[1..]);
      ([StageInput(id, entries[0].0, entries[0].1)] + rest, ok)
  }

  function Digests(entries: seq<(Path, Bytes)>): seq<(Path, Hash)> {
    if entries == [] then [] else [(entries[0].0, Sha256(entries[0].1))] + Digests(entries[1..])
  }

  /** `_publication_inputs`: the paths the selected generation tracks. */
  function PublicationInputs(d: Disk): set<Path> {
    if d.pointer.None? then {}
    else
      var dir := GenerationDir(d, d.pointer.value.id);
      if dir.manifest.None? then {} else Keys(dir.manifest.value.inputs)
  }

  /** The effects of `stage_publication` for the list of deletions, and whether it gets to the end. */
  function StageEffects(d: Disk, r: Request, deletions: seq<Path>): (seq<Effect>, bool) {
    var pub, id := r.publication, r.publication.id;
    if r.source.Some? && pub.sourceHash != Sha256(r.source.value) then ([], false)
    else if id in d.staging then ([], false)
    else
      var entries := FullWriteSet(r);
      var (inputs, ok) := StageInputs(id, entries);
      var head := [MakeStaging(id), StageJson(id, r.json), StageGlb(id, r.glb)] + inputs;
      if !ok then (head, false)
      else
        var m := Manifest(pub, Sha256(r.json), Sha256(r.glb), Digests(entries), deletions);
        (head + [StageManifest(id, m)], true)
  }

  /** The order of strings: by the first character that differs, a prefix first. */
  predicate Less(a: string, b: string) {
    b != "" && (a == "" || a[0] < b[0] || (a[0] == b[0] && Less(a[1..], b[1..])))
  }

  predicate Sorted(paths: seq<Path>) { forall i, j :: 0 <= i < j < |paths| ==> Less(paths[i], paths[j]) }

  /** What the selected generation tracks and the request does not, sorted. */
  predicate ListsDeletions(d: Disk, r: Request, deletions: seq<Path>) {
    (set p | p in deletions) == PublicationInputs(d) - Keys(FullWriteSet(r)) && Sorted(deletions)
  }

  // ---------------------------------------------------------------- materialization

  /** The copies of `materialize_publication`, and whether every entry passed its checks. */
  function Copies(dir: Dir, inputs: seq<(Path, Hash)>): (seq<Effect>, bool) {
    if inputs == [] then ([], true)
    else
      var (path, hash) := inputs[0];
      if !SafeRelative(path) || path !in dir.inputs || Sha256(dir.inputs[path]) != hash then ([], false)
      else
        var (rest, ok) := Copies(dir, inputs[1..]);
        ([CopyInput(path, dir.inputs[path])] + rest, ok)
  }

  function Deletions(paths: seq<Path>): (seq<Effect>, bool) {
    if paths == [] then ([], true)
    else if !SafeRelative(paths[0]) then ([], false)
    else
      var (rest, ok) := Deletions(paths[1..]);
      ([DeleteInput(paths[0])] + rest, ok)
  }

  /** `_write_mirrors`; a missing model file is an I/O error. */
  function Mirrors(dir: Dir): (seq<Effect>, bool) {
    if dir.glb.None? then ([], false)
    else if dir.json.None? then ([PutGlb(dir.glb.value)], false)
    else ([PutGlb(dir.glb.value), PutJson(dir.json.value)], true)
  }

  /** One plan after another; a plan that stops early stops the whole. */
  function Chain(p: (seq<Effect>, bool), q: (seq<Effect>, bool)): (seq<Effect>, bool) {
    if p.1 then (p.0 + q.0, q.1) else p
  }

  /** `materialize_publication` followed by `_write_mirrors`: inputs, then deletions, then mirrors. */
  function Materialization(dir: Dir, m: Manifest): (seq<Effect>, bool) {
    Chain(Chain(Copies(dir, m.inputs), Deletions(m.deletions)), Mirrors(dir))
  }

  // ---------------------------------------------------------------- commit

  /** A plan whose file operations fail with an I/O error after the first `io.value` of them; None is no error. */
  function Within(plan: (seq<Effect>, bool), io: Option<nat>): (seq<Effect>, bool) {
    if io.None? || |plan.0| <= io.value then plan else (plan.0[..io.value], false)
  }

  /** The effects of `commit_publication` up to pruning, and whether it gets that far; nothing at all
      happens when the staged directory does not load. */
  function CommitEffects(d: Disk, id: Id, io: Option<nat> := None): (seq<Effect>, bool) {
    var load := Load(Staged(d, id));
    if load.None? then ([], false) else
    var m := load.value;
    var pub := m.publication;
    var journal := Journal(Some(id), pub, d.pointer, Intent);
    var promote := if pub.id in d.generations then [] else [Promote(id, pub.id)];
    var dir := if pub.id in d.generations then d.generations[pub.id] else d.staging[id];
    var (body, ok) := Within(Materialization(dir, m), io);
    (CommitHead(journal, promote) + body + (if ok then [DropJournal] else []), ok)
  }

  function CommitHead(journal: Journal, promote: seq<Effect>): seq<Effect> {
    [PutJournal(journal)] + promote
    + [PutJournal(journal.(phase := Generation)), PutPointer(journal.publication), PutJournal(journal.(phase := Pointer))]
  }

  // ---------------------------------------------------------------- recovery

  /** What remains of the file operations before an I/O error, after `n` of them. */
  function Rest(io: Option<nat>, n: nat): Option<nat> {
    if io.Some? && io.value >= n then Some(io.value - n) else io
  }

  /** `recover_prior`: put the journalled predecessor back, pointer last. An I/O error ends it where it strikes. */
  function FallbackEffects(d: Disk, prior: Option<Publication>, io: Option<nat> := None): (seq<Effect>, bool) {
    if prior.None? then ([], false) else
    var dir := GenerationDir(d, prior.value.id);
    var load := Load(dir);
    if load.None? then ([], false) else
    Within(Chain(Materialization(dir, load.value), ([PutPointer(load.value.publication), DropJournal], true)), io)
  }

  /** Where `recover_publication` finds the interrupted publication when no pointer was selected yet. */
  function RollForwardSource(d: Disk, j: Journal): Dir
    requires j.staged.Some?
  {
    if j.staged.value in d.staging then d.staging[j.staged.value] else GenerationDir(d, j.publication.id)
  }

  /** The rename, unless it has happened, and the pointer move of a roll-forward. */
  function RollForwardStart(d: Disk, from: Id, pub: Publication): seq<Effect> {
    (if pub.id in d.generations then [] else [Promote(from, pub.id)]) + [PutPointer(pub)]
  }

  /** Roll a journalled first publication forward. Failing to load it, to find what to rename, to rename it or to
      move the pointer abandons it by clearing the journal. */
  function RollForwardEffects(d: Disk, j: Journal, io: Option<nat>): (seq<Effect>, bool)
    requires j.staged.Some?
  {
    var source := RollForwardSource(d, j);
    var load := Load(source);
    if load.None? then ([DropJournal], false) else
    var pub := load.value.publication;
    if pub.id !in d.generations && j.staged.value !in d.staging then ([DropJournal], false) else
    var head := RollForwardStart(d, j.staged.value, pub);
    if io.Some? && io.value < |head| then (head[..io.value] + [DropJournal], false) else
    var dir := if pub.id in d.generations then d.generations[pub.id] else source;
    var (body, ok) := Within(Materialization(dir, load.value), Rest(io, |head|));
    (head + body + (if ok then [DropJournal] else []), ok)
  }

  /** The effects of `recover_publication` up to pruning, and whether it then prunes. An I/O error after the first `io`
      file operations, like a failed check, turns to the prior publication; `back` is where an I/O error strikes
      that fallback. */
  function RecoverEffects(d: Disk, io: Option<nat> := None, back: Option<nat> := None): (seq<Effect>, bool) {
    var prior := if d.journal.Some? then d.journal.value.prior else None;
    if d.pointer.Some? then
      var dir := GenerationDir(d, d.pointer.value.id);
      var load := Load(dir);
      if load.None? then (FallbackEffects(d, prior, back).0, false) else
      var (body, ok) := Within(Chain(Materialization(dir, load.value), ([DropJournal], true)), io);
      if ok then (body, false) else (body + FallbackEffects(Run(d, body), prior, back).0, false)
    else if d.journal.None? then ([], false)
    else if d.journal.value.phase == Pointer then (FallbackEffects(d, prior, back).0, false)
    else if d.journal.value.staged.None? then ([DropJournal], false)
    else RollForwardEffects(d, d.journal.value, io)
  }

  // ---------------------------------------------------------------- pruning

  /** The generations `prune_publications` never removes, besides the `keep` newest. */
  function Protected(d: Disk): set<Id> {
    (if d.pointer.Some? then {d.pointer.value.id} else {})
    + (if d.journal.Some? && d.journal.value.prior.Some? then {d.journal.value.prior.value.id} else {})
  }

  /** `rmtree` of one generation: its files go first, then the directory. */
  function RemovalEffects(ids: seq<Id>): seq<Effect> {
    if ids == [] then [] else [EmptyGeneration(ids[0]), RemoveGeneration(ids[0])] + RemovalEffects(ids[1..])
  }

  /** A listing of the generations, newest first, as `os.scandir` and the modification times give it. */
  predicate IsListing(d: Disk, entries: seq<Id>) {
    && (forall i, j :: 0 <= i < j < |entries| ==> entries[i] != entries[j])
    && (set id | id in entries) == d.generations.Keys
  }

  function Min(a: int, b: int): int { if a <= b then a else b }

  function Kept(d: Disk, entries: seq<Id>, keep: nat): set<Id> {
    Protected(d) + (set id | id in entries[..Min(keep, |entries|)])
  }

  /** The entries to remove, in listing order. */
  function Stale(entries: seq<Id>, kept: set<Id>): (stale: seq<Id>)
    ensures forall id :: id in stale <==> id in entries && id !in kept
  {
    if entries == [] then []
    else if entries[0] in kept then Stale(entries[1..], kept)
    else [entries[0]] + Stale(entries[1..], kept)
  }

  function PruneEffects(d: Disk, entries: seq<Id>, keep: nat): seq<Effect> {
    RemovalEffects(Stale(entries, Kept(d, entries, keep)))
  }

  const KEEP: nat := 4

  /** The runs of commit and recovery: their effects, then a complete pruning for some listing when they prune. */
  ghost predicate WithPruning(d: Disk, core: (seq<Effect>, bool), es: seq<Effect>) {
    if !core.1 then es == core.0
    else exists entries ::
      IsListing(Run(d, core.0), entries) && es == core.0 + PruneEffects(Run(d, core.0), entries, KEEP)
  }

  ghost predicate CommitRun(d: Disk, id: Id, es: seq<Effect>) { WithPruning(d, CommitEffects(d, id), es) }

  ghost predicate RecoverRun(d: Disk, es: seq<Effect>) { WithPruning(d, RecoverEffects(d), es) }
}
