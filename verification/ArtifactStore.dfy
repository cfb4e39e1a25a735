/** One versioned artifact: its record in one table, its files in another, and commits that may be cut short
    between any two of their steps. Paths are taken as already normalised. */
module ArtifactStore {
  import opened Wrappers

  datatype File = File(path: string, content: string)

  datatype Version = Version(n: nat, paths: seq<string>, pruned: bool)

  datatype Kind = Web | Vue | Markdown | Mermaid | Svg | Code

  datatype Record = Record(kind: Kind, entry: string, version: nat, versions: seq<Version>)

  type Files = map<string, string>

  /** `committed` is history: the files each version was committed with. No operation reads it. */
  datatype Disk = Disk(record: Option<Record>, blobs: map<nat, Files>, committed: map<nat, seq<File>>)

  datatype Limits = Limits(maxFiles: nat, maxBytes: nat, maxVersions: nat)

  /** What start-up insists on. */
  predicate Validated(l: Limits) { l.maxBytes >= 1024 && l.maxVersions >= 1 }

  // ---- files of a version ----

  function PathsOf(files: seq<File>): seq<string> { seq(|files|, i requires 0 <= i < |files| => files[i].path) }

  predicate DistinctPaths(files: seq<File>) { forall i, j | 0 <= i < j < |files| :: files[i].path != files[j].path }

  function AsMap(files: seq<File>): Files {
    if files == [] then map[] else AsMap(files[..|files| - 1])[files[|files| - 1].path := files[|files| - 1].content]
  }

  function WithoutPath(files: seq<File>, path: string): seq<File> {
    if files == [] then []
    else if files[0].path == path then WithoutPath(files[1..], path)
    else [files[0]] + WithoutPath(files[1..], path)
  }

  /** Replaces a file where it stands, or adds it at the end. */
  function Put(files: seq<File>, f: File): seq<File> {
    if files == [] then [f] else if files[0].path == f.path then [f] + files[1..] else [files[0]] + Put(files[1..], f)
  }

  function RemoveAll(files: seq<File>, gone: seq<string>): Option<seq<File>>
    decreases |gone|
  {
    if gone == [] then Some(files)
    else if gone[0] !in PathsOf(files) then None
    else RemoveAll(WithoutPath(files, gone[0]), gone[1..])
  }

  function PutAll(files: seq<File>, incoming: seq<File>): seq<File>
    decreases |incoming|
  {
    if incoming == [] then files else PutAll(Put(files, incoming[0]), incoming[1..])
  }

  /** The length of a text in UTF-8 (section 3 of RFC 3629). */
  function Utf8Length(text: string): nat {
    if text == "" then 0
    else
      var c := text[0] as int;
      (if c < 0x80 then 1 else if c < 0x800 then 2 else if c < 0x10000 then 3 else 4) + Utf8Length(text[1..])
  }

  function Bytes(files: seq<File>): nat { if files == [] then 0 else Utf8Length(files[0].content) + Bytes(files[1..]) }

  /** What trimming takes away (section 22.1.3.32 of ECMA-262). */
  predicate IsSpace(c: char) {
    var n := c as int;
    9 <= n <= 13 || n in {0x20, 0xA0, 0x1680, 0x2028, 0x2029, 0x202F, 0x205F, 0x3000, 0xFEFF} || 0x2000 <= n <= 0x200A
  }

  predicate IsBlank(text: string) { forall c | c in text :: IsSpace(c) }
  predicate AllBlank(files: seq<File>) { forall f | f in files :: IsBlank(f.content) }

  // ---- the entry file ----

  function Conventional(kind: Kind): string {
    match kind
    case Web => "index.html" case Vue => "App.vue" case Markdown => "README.md"
    case Mermaid => "diagram.mmd" case Svg => "image.svg" case Code => ""
  }

  function Extension(kind: Kind): string {
    match kind
    case Web => ".html" case Vue => ".vue" case Markdown => ".md"
    case Mermaid => ".mmd" case Svg => ".svg" case Code => ""
  }

  function Lower(s: string): string {
    seq(|s|, i requires 0 <= i < |s| => if 'A' <= s[i] <= 'Z' then s[i] - 'A' + 'a' else s[i])
  }

  predicate EndsWith(s: string, suffix: string) { |suffix| <= |s| && s[|s| - |suffix|..] == suffix }

  function FirstWith(paths: seq<string>, ext: string): Option<string> {
    if paths == [] then None else if EndsWith(Lower(paths[0]), ext) then Some(paths[0]) else FirstWith(paths[1..], ext)
  }

  /** The entry asked for, or else the conventional name, a file with the right ending, or the first file. */
  function PickEntry(kind: Kind, entry: string, paths: seq<string>): Option<string> {
    if entry != "" then (if entry in paths then Some(entry) else None)
    else if Conventional(kind) != "" && Conventional(kind) in paths then Some(Conventional(kind))
    else if Extension(kind) != "" && FirstWith(paths, Extension(kind)).Some? then FirstWith(paths, Extension(kind))
    else if paths == [] then None else Some(paths[0])
  }

  // ---- commits ----

  datatype Op = WriteFiles(n: nat, files: seq<File>) | PutRecord(record: Record, files: seq<File>) | DropFiles(n: nat)

  function KeepFrom(count: nat, maxVersions: nat): nat { if count <= maxVersions then 0 else count - maxVersions }

  function Prune(versions: seq<Version>, keepFrom: nat): seq<Version> {
    seq(|versions|, i requires 0 <= i < |versions| =>
      if i < keepFrom then versions[i].(pruned := true) else versions[i])
  }

  /** The versions a commit prunes anew. */
  function NewlyPruned(versions: seq<Version>, keepFrom: nat): seq<nat> {
    if keepFrom == 0 || versions == [] then []
    else (if versions[0].pruned then [] else [versions[0].n]) + NewlyPruned(versions[1..], keepFrom - 1)
  }

  /** One turn of the pruning loop. */
  lemma NewlyPrunedHead(all: seq<Version>, i: nat, keepFrom: nat)
    requires i < keepFrom <= |all|
    ensures NewlyPruned(all[i..], keepFrom - i)
            == (if all[i].pruned then [] else [all[i].n]) + NewlyPruned(all[i + 1..], keepFrom - i - 1)
  {
    assert all[i..][1..] == all[i + 1..];
  }

  lemma NothingNewlyPruned(all: seq<Version>)
    ensures NewlyPruned(all, 0) == []
  {
  }

  function NextRecord(l: Limits, r: Record, files: seq<File>): Record {
    var versions := r.versions + [Version(r.version + 1, PathsOf(files), false)];
    r.(version := r.version + 1, versions := Prune(versions, KeepFrom(|versions|, l.maxVersions)))
  }

  function Drops(ns: seq<nat>): seq<Op> { seq(|ns|, i requires 0 <= i < |ns| => DropFiles(ns[i])) }

  function OldVersions(l: Limits, r: Record, files: seq<File>): seq<nat> {
    var versions := r.versions + [Version(r.version + 1, PathsOf(files), false)];
    NewlyPruned(versions, KeepFrom(|versions|, l.maxVersions))
  }

  /** The steps of a commit, or none if the files are over budget: files, record, then the clearing away. */
  function CommitOps(l: Limits, r: Record, files: seq<File>): seq<Op> {
    if |files| > l.maxFiles || Bytes(files) > l.maxBytes then []
    else [WriteFiles(r.version + 1, files), PutRecord(NextRecord(l, r, files), files)] + Drops(OldVersions(l, r, files))
  }

  /** Storing files adds to what is there under the same number, replacing same-named ones. */
  function Apply(d: Disk, op: Op, failed: set<nat>): Disk {
    match op
    case WriteFiles(n, files) => d.(blobs := d.blobs[n := (if n in d.blobs then d.blobs[n] else map[]) + AsMap(files)])
    case PutRecord(r, files) => d.(record := Some(r), committed := d.committed[r.version := files])
    case DropFiles(n) => if n in failed then d else d.(blobs := d.blobs - {n})
  }

  function ApplyAll(d: Disk, ops: seq<Op>, failed: set<nat>): Disk
    decreases |ops|
  {
    if ops == [] then d else ApplyAll(Apply(d, ops[0], failed), ops[1..], failed)
  }

  // ---- reading ----

  function FilesAt(stored: Files, paths: seq<string>): Option<seq<File>> {
    if paths == [] then Some([])
    else if paths[0] !in stored then None
    else match FilesAt(stored, paths[1..])
      case None => None
      case Some(rest) => Some([File(paths[0], stored[paths[0]])] + rest)
  }

  function Find(versions: seq<Version>, n: nat): Option<Version> {
    if versions == [] then None else if versions[0].n == n then Some(versions[0]) else Find(versions[1..], n)
  }

  /** The files of a version; nothing if there is no such version, it was pruned, or a file is missing. */
  function ReadVersion(d: Disk, n: nat): Option<seq<File>> {
    if d.record.None? then None
    else match Find(d.record.value.versions, if n == 0 then d.record.value.version else n)
      case None => None
      case Some(v) =>
        if v.pruned then None else FilesAt(if v.n in d.blobs then d.blobs[v.n] else map[], v.paths)
  }

  // ---- calls ----

  datatype Call =
    | Create(kind: Kind, entry: string, files: seq<File>)
    | Write(files: seq<File>, remove: seq<string>, entry: string)

  /** Naming a path twice is naming it once. */
  function Unique(paths: seq<string>): seq<string> {
    if paths == [] then []
    else
      var init, last := Unique(paths[..|paths| - 1]), paths[|paths| - 1];
      if last in init then init else init + [last]
  }

  lemma {:induction false} UniqueFacts(paths: seq<string>)
    ensures forall p :: p in Unique(paths) <==> p in paths
  {
    if paths == [] {
    } else {
      UniqueFacts(paths[..|paths| - 1]);
      assert paths == paths[..|paths| - 1] + [paths[|paths| - 1]];
    }
  }

  /** The files a write leads to: the current ones without the removed, overridden by the new ones. */
  function Merged(current: seq<File>, files: seq<File>, remove: seq<string>): Option<seq<File>> {
    match RemoveAll(current, Unique(remove))
    case None => None
    case Some(kept) => if PutAll(kept, files) == [] then None else Some(PutAll(kept, files))
  }

  function EntryFor(r: Record, asked: string, paths: seq<string>): Option<string> {
    PickEntry(r.kind, if asked != "" then asked else if r.entry in paths then r.entry else "", paths)
  }

  /** The steps a call takes; a rejected call takes none. */
  function Plan(l: Limits, d: Disk, c: Call): seq<Op> {
    match c
    case Create(kind, entry, files) =>
      var picked := PickEntry(kind, entry, PathsOf(files));
      if d.record.Some? || !DistinctPaths(files) || picked.None? || AllBlank(files) then []
      else CommitOps(l, Record(kind, picked.value, 0, []), files)
    case Write(files, remove, entry) =>
      if ReadVersion(d, 0).None? || !DistinctPaths(files) then []
      else match Merged(ReadVersion(d, 0).value, files, remove)
        case None => []
        case Some(next) =>
          var picked := EntryFor(d.record.value, entry, PathsOf(next));
          if picked.None? then [] else CommitOps(l, d.record.value.(entry := picked.value), next)
  }

  /** A call that stops after `cut` steps; the removals in `failed` do not succeed. */
  datatype Attempt = Attempt(call: Call, cut: nat, failed: set<nat>)

  function Try(l: Limits, d: Disk, a: Attempt): Disk {
    var ops := Plan(l, d, a.call);
    ApplyAll(d, if a.cut < |ops| then ops[..a.cut] else ops, a.failed)
  }

  function Life(l: Limits, d: Disk, attempts: seq<Attempt>): Disk
    decreases |attempts|
  {
    if attempts == [] then d else Life(l, Try(l, d, attempts[0]), attempts[1..])
  }

  // ---- what files a call leaves ----

  lemma {:induction false} AsMapFacts(files: seq<File>)
    ensures forall p :: p in AsMap(files) <==> p in PathsOf(files)
    ensures DistinctPaths(files) ==> forall f | f in files ::
            f.path in AsMap(files) && AsMap(files)[f.path] == f.content
  {
    if files == [] {
    } else {
      var init, last := files[..|files| - 1], files[|files| - 1];
      AsMapFacts(init);
      assert PathsOf(files) == PathsOf(init) + [last.path];
      assert files == init + [last];
      forall f | f in init && DistinctPaths(files) ensures f.path != last.path {
        var i :| 0 <= i < |init| && init[i] == f;
        assert files[i].path != files[|init|].path;
      }
    }
  }

  /** The content at a path, if any. */
  function At(files: seq<File>, path: string): Option<string> {
    if files == [] then None else if files[0].path == path then Some(files[0].content) else At(files[1..], path)
  }

  lemma {:induction false} AtFacts(files: seq<File>, path: string)
    ensures At(files, path).Some? <==> path in PathsOf(files)
    ensures At(files, path).None? <==> forall f | f in files :: f.path != path
    ensures DistinctPaths(files) ==> forall f | f in files && f.path == path :: At(files, path) == Some(f.content)
  {
    if files == [] {
    } else {
      AtFacts(files[1..], path);
      assert PathsOf(files) == [files[0].path] + PathsOf(files[1..]);
      assert files == [files[0]] + files[1..];
      assert forall f | f in files[1..] && DistinctPaths(files) :: f.path != files[0].path;
    }
  }

  lemma {:induction false} WithoutPathFacts(files: seq<File>, path: string, other: string)
    ensures At(WithoutPath(files, path), other) == if other == path then None else At(files, other)
    ensures forall f :: f in WithoutPath(files, path) ==> f in files
    ensures DistinctPaths(files) ==> DistinctPaths(WithoutPath(files, path))
  {
    if files == [] {
    } else {
      WithoutPathFacts(files[1..], path, other);
      assert forall f | f in files[1..] && DistinctPaths(files) :: f.path != files[0].path;
    }
  }

  lemma {:induction false} PutFacts(files: seq<File>, f: File, other: string)
    ensures At(Put(files, f), other) == if other == f.path then Some(f.content) else At(files, other)
    ensures forall g :: g in Put(files, f) ==> g == f || g in files
    ensures DistinctPaths(files) ==> DistinctPaths(Put(files, f))
  {
    if files == [] {
    } else {
      PutFacts(files[1..], f, other);
      assert forall g | g in files[1..] && DistinctPaths(files) :: g.path != files[0].path;
    }
  }

  lemma {:induction false} RemoveAllFacts(files: seq<File>, gone: seq<string>, path: string)
    requires RemoveAll(files, gone).Some?
    ensures At(RemoveAll(files, gone).value, path) == if path in gone then None else At(files, path)
    ensures DistinctPaths(files) ==> DistinctPaths(RemoveAll(files, gone).value)
    decreases |gone|
  {
    if gone == [] {
    } else {
      WithoutPathFacts(files, gone[0], path);
      RemoveAllFacts(WithoutPath(files, gone[0]), gone[1..], path);
    }
  }

  lemma {:induction false} PutAllFacts(files: seq<File>, incoming: seq<File>, path: string)
    requires DistinctPaths(incoming)
    ensures At(PutAll(files, incoming), path)
            == if At(incoming, path).Some? then At(incoming, path) else At(files, path)
    ensures DistinctPaths(files) ==> DistinctPaths(PutAll(files, incoming))
    decreases |incoming|
  {
    if incoming == [] {
    } else {
      PutFacts(files, incoming[0], path);
      PutAllFacts(Put(files, incoming[0]), incoming[1..], path);
      AtFacts(incoming[1..], path);
      assert forall g | g in incoming[1..] :: g.path != incoming[0].path;
    }
  }

  /** A write yields, path by path, the new file if there is one, nothing if the path was removed, and
      otherwise what was there; no path twice. */
  lemma WriteMerges(current: seq<File>, files: seq<File>, remove: seq<string>, path: string)
    requires DistinctPaths(current) && DistinctPaths(files) && Merged(current, files, remove).Some?
    ensures var next := Merged(current, files, remove).value;
            && next != [] && DistinctPaths(next)
            && At(next, path) == if At(files, path).Some? then At(files, path)
                                 else if path in remove then None else At(current, path)
  {
    UniqueFacts(remove);
    RemoveAllFacts(current, Unique(remove), path);
    PutAllFacts(RemoveAll(current, Unique(remove)).value, files, path);
  }

  lemma {:induction false} FirstWithIsPath(paths: seq<string>, ext: string)
    ensures FirstWith(paths, ext).Some? ==> FirstWith(paths, ext).value in paths
  {
    if paths == [] {
    } else {
      FirstWithIsPath(paths[1..], ext);
    }
  }

  /** The entry is always one of the files, and files without a given entry always have one. */
  lemma EntryIsAFile(kind: Kind, entry: string, paths: seq<string>)
    ensures PickEntry(kind, entry, paths).Some? ==> PickEntry(kind, entry, paths).value in paths
    ensures paths != [] && (entry == "" || entry in paths) ==> PickEntry(kind, entry, paths).Some?
  {
    hide Lower, EndsWith;
    FirstWithIsPath(paths, Extension(kind));
  }

  // ---- what is kept at every moment ----

  ghost predicate Backed(stored: Files, files: seq<File>) {
    forall f | f in files :: f.path in stored && stored[f.path] == f.content
  }

  ghost predicate Stored(d: Disk, v: Version) {
    && v.n in d.committed && v.n in d.blobs && v.paths == PathsOf(d.committed[v.n])
    && DistinctPaths(d.committed[v.n]) && Backed(d.blobs[v.n], d.committed[v.n])
  }

  ghost predicate Sound(l: Limits, r: Record) {
    && r.version == |r.versions|
    && (forall i | 0 <= i < |r.versions| ::
          r.versions[i].n == i + 1 && (r.versions[i].pruned <==> i < KeepFrom(|r.versions|, l.maxVersions)))
  }

  ghost predicate Intact(l: Limits, d: Disk) {
    d.record.Some? ==>
      var r := d.record.value;
      && Sound(l, r) && r.version >= 1 && r.entry in r.versions[r.version - 1].paths
      && forall v | v in r.versions && !v.pruned :: Stored(d, v)
  }

  /** The record a commit starts from: the stored one, with its entry chosen, or a blank one. */
  ghost predicate Base(l: Limits, d: Disk, r: Record, files: seq<File>) {
    && DistinctPaths(files) && r.entry in PathsOf(files)
    && (if d.record.Some? then r.version == d.record.value.version && r.versions == d.record.value.versions
        else r.version == 0 && r.versions == [])
  }

  lemma WriteFilesIntact(l: Limits, d: Disk, r: Record, files: seq<File>, failed: set<nat>)
    requires Intact(l, d) && Base(l, d, r, files)
    ensures var d1 := Apply(d, WriteFiles(r.version + 1, files), failed);
            Intact(l, d1) && Base(l, d1, r, files) && r.version + 1 in d1.blobs
              && Backed(d1.blobs[r.version + 1], files)
            && d1.record == d.record
  {
    AsMapFacts(files);
  }

  lemma NextRecordSound(l: Limits, r: Record, files: seq<File>)
    requires Sound(l, r)
    ensures var next := NextRecord(l, r, files);
            && Sound(l, next) && next.version == r.version + 1 && next.entry == r.entry
            && next.versions[r.version].paths == PathsOf(files) && next.versions[r.version].n == r.version + 1
            && forall i | 0 <= i < r.version ::
                 next.versions[i].n == i + 1 && next.versions[i].paths == r.versions[i].paths
                                                 && (r.versions[i].pruned ==> next.versions[i].pruned)
  {
  }

  lemma PutRecordIntact(l: Limits, d: Disk, r: Record, files: seq<File>, failed: set<nat>)
    requires Intact(l, d) && Base(l, d, r, files)
    requires r.version + 1 in d.blobs && Backed(d.blobs[r.version + 1], files)
    ensures Intact(l, Apply(d, PutRecord(NextRecord(l, r, files), files), failed))
  {
    hide Backed, DistinctPaths, PathsOf, NextRecord;
    NextRecordSound(l, r, files);
    var next := NextRecord(l, r, files);
    var d1 := Apply(d, PutRecord(next, files), failed);
    forall v | v in next.versions && !v.pruned ensures Stored(d1, v) {
      var i :| 0 <= i < |next.versions| && next.versions[i] == v;
      if i < r.version {
        assert r.versions[i] in r.versions && Stored(d, r.versions[i]);
      }
    }
  }

  lemma {:induction false} NewlyPrunedFacts(versions: seq<Version>, keepFrom: nat, first: nat)
    requires forall i | 0 <= i < |versions| :: versions[i].n == first + i
    ensures forall n | n in NewlyPruned(versions, keepFrom) :: first <= n < first + keepFrom
    ensures |NewlyPruned(versions, keepFrom)| <= keepFrom
  {
    if keepFrom > 0 && versions != [] { NewlyPrunedFacts(versions[1..], keepFrom - 1, first + 1); }
  }

  lemma DropIntact(l: Limits, d: Disk, n: nat, failed: set<nat>)
    requires Intact(l, d) && d.record.Some? && n <= KeepFrom(|d.record.value.versions|, l.maxVersions)
    ensures Intact(l, Apply(d, DropFiles(n), failed)) && Apply(d, DropFiles(n), failed).record == d.record
  {
    var r, d1 := d.record.value, Apply(d, DropFiles(n), failed);
    forall v | v in r.versions && !v.pruned ensures Stored(d1, v) {
      var i :| 0 <= i < |r.versions| && r.versions[i] == v;
      assert Stored(d, v);
    }
  }

  lemma {:induction false} DropsIntact(l: Limits, d: Disk, ns: seq<nat>, failed: set<nat>)
    requires Intact(l, d) && d.record.Some? && forall n | n in ns ::
             n <= KeepFrom(|d.record.value.versions|, l.maxVersions)
    ensures Intact(l, ApplyAll(d, Drops(ns), failed)) && ApplyAll(d, Drops(ns), failed).record == d.record
    decreases |ns|
  {
    hide Intact, Apply;
    if ns == [] {
    } else {
      assert ns[0] in ns && forall n | n in ns[1..] :: n in ns;
      DropIntact(l, d, ns[0], failed);
      assert Drops(ns)[1..] == Drops(ns[1..]);
      DropsIntact(l, Apply(d, Drops(ns)[0], failed), ns[1..], failed);
    }
  }

  /** A commit may stop after any of its steps, and any of its removals may fail. */
  lemma CommitCutAnywhere(l: Limits, d: Disk, r: Record, files: seq<File>, cut: nat, failed: set<nat>)
    requires Intact(l, d) && Base(l, d, r, files) && cut <= |CommitOps(l, r, files)|
    ensures Intact(l, ApplyAll(d, CommitOps(l, r, files)[..cut], failed))
  {
    hide Intact, Base, NextRecord, Bytes, OldVersions, Backed;
    var ops := CommitOps(l, r, files);
    if cut > 0 {
      var d1 := Apply(d, ops[0], failed);
      WriteFilesIntact(l, d, r, files, failed);
      if cut == 1 {
        assert ops[..1] == [ops[0]] && [ops[0]][1..] == [];
      } else {
        var d2 := Apply(d1, ops[1], failed);
        PutRecordIntact(l, d1, r, files, failed);
        var ns := OldVersions(l, r, files)[..cut - 2];
        assert ops[..cut] == [ops[0], ops[1]] + Drops(ns);
        assert ops[..cut][1..] == [ops[1]] + Drops(ns) && ([ops[1]] + Drops(ns))[1..] == Drops(ns);
        OldVersionsArePruned(l, d, r, files);
        assert forall n | n in ns :: n in OldVersions(l, r, files);
        DropsIntact(l, d2, ns, failed);
      }
    }
  }

  lemma OldVersionsArePruned(l: Limits, d: Disk, r: Record, files: seq<File>)
    requires Intact(l, d) && Base(l, d, r, files)
    ensures forall n | n in OldVersions(l, r, files) :: n <= KeepFrom(|NextRecord(l, r, files).versions|, l.maxVersions)
  {
    var versions := r.versions + [Version(r.version + 1, PathsOf(files), false)];
    NewlyPrunedFacts(versions, KeepFrom(|versions|, l.maxVersions), 1);
  }

  /** Whatever a call does, it is the steps of a commit from a sound base. */
  lemma PlanIsCommit(l: Limits, d: Disk, c: Call) returns (r: Record, files: seq<File>)
    requires Intact(l, d) && Plan(l, d, c) != []
    ensures Base(l, d, r, files) && Plan(l, d, c) == CommitOps(l, r, files)
    ensures c.Create? ==> files == c.files
    ensures c.Write? ==> ReadVersion(d, 0).Some? && Merged(ReadVersion(d, 0).value, c.files, c.remove) == Some(files)
  {
    hide CommitOps, PickEntry;
    match c
    case Create(kind, entry, fs) =>
      EntryIsAFile(kind, entry, PathsOf(fs));
      r, files := Record(kind, PickEntry(kind, entry, PathsOf(fs)).value, 0, []), fs;
    case Write(fs, remove, entry) =>
      var r0 := d.record.value;
      files := Merged(ReadVersion(d, 0).value, fs, remove).value;
      r := r0.(entry := EntryFor(r0, entry, PathsOf(files)).value);
      var named := if entry != "" then entry else if r0.entry in PathsOf(files) then r0.entry else "";
      EntryIsAFile(r0.kind, named, PathsOf(files));
      ReadIsCommitted(l, d, r0.versions[r0.version - 1]);
      WriteMerges(ReadVersion(d, 0).value, fs, remove, "");
  }

  lemma {:induction false} FindByNumber(versions: seq<Version>, first: nat, n: nat)
    requires forall i | 0 <= i < |versions| :: versions[i].n == first + i
    requires first <= n < first + |versions|
    ensures Find(versions, n) == Some(versions[n - first])
  {
    if n != first { FindByNumber(versions[1..], first + 1, n); }
  }

  lemma {:induction false} FilesAtBacked(stored: Files, files: seq<File>)
    requires Backed(stored, files)
    ensures FilesAt(stored, PathsOf(files)) == Some(files)
  {
    if files == [] {
    } else {
      assert files[0] in files;
      assert PathsOf(files)[1..] == PathsOf(files[1..]);
      assert files == [files[0]] + files[1..];
      FilesAtBacked(stored, files[1..]);
    }
  }

  /** A version can be read exactly when it is not pruned, and then reads as it was committed. */
  lemma ReadIsCommitted(l: Limits, d: Disk, v: Version)
    requires Intact(l, d) && d.record.Some? && v in d.record.value.versions
    ensures ReadVersion(d, v.n).Some? <==> !v.pruned
    ensures !v.pruned ==>
              v.n in d.committed && ReadVersion(d, v.n) == Some(d.committed[v.n]) && DistinctPaths(d.committed[v.n])
    ensures v.n == d.record.value.version ==> ReadVersion(d, 0) == ReadVersion(d, v.n)
  {
    hide FilesAt, DistinctPaths;
    var r := d.record.value;
    var i :| 0 <= i < |r.versions| && r.versions[i] == v;
    FindByNumber(r.versions, 1, v.n);
    if !v.pruned {
      assert Stored(d, v);
      FilesAtBacked(d.blobs[v.n], d.committed[v.n]);
    }
  }

  lemma TryIntact(l: Limits, d: Disk, a: Attempt)
    requires Intact(l, d)
    ensures Intact(l, Try(l, d, a))
  {
    hide Intact, Plan, CommitOps;
    var ops := Plan(l, d, a.call);
    if ops != [] {
      var r, files := PlanIsCommit(l, d, a.call);
      var cut := if a.cut < |ops| then a.cut else |ops|;
      CommitCutAnywhere(l, d, r, files, cut, a.failed);
      assert ops[..|ops|] == ops;
    }
  }

  lemma {:induction false} LifeIntact(l: Limits, d: Disk, attempts: seq<Attempt>)
    requires Intact(l, d)
    ensures Intact(l, Life(l, d, attempts))
    decreases |attempts|
  {
    hide Intact, Try;
    if attempts == [] {
    } else {
      TryIntact(l, d, attempts[0]);
      LifeIntact(l, Try(l, d, attempts[0]), attempts[1..]);
    }
  }

  /** After any calls by one writer, each stopped anywhere, with any removals failing and any files left
      over beforehand: the versions that are not pruned are the latest ones, as many as are retained, each
      reads back exactly as it was committed, and the entry is a file of the current version. */
  lemma CommitsSurviveCrashes(l: Limits, leftovers: map<nat, Files>, attempts: seq<Attempt>)
    ensures var d := Life(l, Disk(None, leftovers, map[]), attempts);
            d.record.Some? ==>
              var r := d.record.value;
              && (forall n | 1 <= n <= r.version :: Find(r.versions, n).Some?
                    && (Find(r.versions, n).value.pruned <==> n + l.maxVersions <= r.version))
              && (forall n | 1 <= n <= r.version && n + l.maxVersions > r.version ::
                    n in d.committed && ReadVersion(d, n) == Some(d.committed[n]))
              && r.version == |r.versions| >= 1 && r.entry in r.versions[r.version - 1].paths
  {
    hide Life, ReadVersion;
    var d := Life(l, Disk(None, leftovers, map[]), attempts);
    LifeIntact(l, Disk(None, leftovers, map[]), attempts);
    if d.record.Some? {
      var r := d.record.value;
      forall n | 1 <= n <= r.version
        ensures Find(r.versions, n) == Some(r.versions[n - 1])
        ensures r.versions[n - 1].pruned <==> n + l.maxVersions <= r.version
        ensures n + l.maxVersions > r.version ==> n in d.committed && ReadVersion(d, n) == Some(d.committed[n])
      {
        FindByNumber(r.versions, 1, n);
        ReadIsCommitted(l, d, r.versions[n - 1]);
      }
    }
  }

  /** Under the limits that start-up insists on, the current version can always be read, and so written to. */
  lemma CurrentIsReadable(l: Limits, leftovers: map<nat, Files>, attempts: seq<Attempt>)
    requires Validated(l) && Life(l, Disk(None, leftovers, map[]), attempts).record.Some?
    ensures var d := Life(l, Disk(None, leftovers, map[]), attempts);
            && ReadVersion(d, 0).Some? && d.record.value.version in d.committed
            && ReadVersion(d, 0).value == d.committed[d.record.value.version]
  {
    hide Life, ReadVersion;
    var d := Life(l, Disk(None, leftovers, map[]), attempts);
    LifeIntact(l, Disk(None, leftovers, map[]), attempts);
    var r := d.record.value;
    ReadIsCommitted(l, d, r.versions[r.version - 1]);
  }

  /** That start-up insists on it is what this rests on: with no version retained it would never be so. */
  lemma ReadingNeedsRetention(l: Limits, leftovers: map<nat, Files>, attempts: seq<Attempt>)
    requires Life(l, Disk(None, leftovers, map[]), attempts).record.Some?
    ensures ReadVersion(Life(l, Disk(None, leftovers, map[]), attempts), 0).Some? <==> l.maxVersions >= 1
  {
    hide Life, ReadVersion;
    var d := Life(l, Disk(None, leftovers, map[]), attempts);
    LifeIntact(l, Disk(None, leftovers, map[]), attempts);
    var r := d.record.value;
    ReadIsCommitted(l, d, r.versions[r.version - 1]);
  }

  lemma {:induction false} OnlyRecordsMakeHistory(d: Disk, ops: seq<Op>, failed: set<nat>, n: nat)
    requires n in d.committed && forall op | op in ops && op.PutRecord? :: op.record.version != n
    ensures n in ApplyAll(d, ops, failed).committed && ApplyAll(d, ops, failed).committed[n] == d.committed[n]
    decreases |ops|
  {
    if ops == [] {
    } else {
      assert ops[0] in ops && forall op | op in ops[1..] :: op in ops;
      OnlyRecordsMakeHistory(Apply(d, ops[0], failed), ops[1..], failed, n);
    }
  }

  /** What a version was committed with never changes. */
  lemma HistoryIsKept(l: Limits, d: Disk, a: Attempt, n: nat)
    requires Intact(l, d) && d.record.Some? && n <= d.record.value.version && n in d.committed
    ensures n in Try(l, d, a).committed && Try(l, d, a).committed[n] == d.committed[n]
  {
    hide Plan, NextRecord, OldVersions, Bytes;
    var ops := Plan(l, d, a.call);
    if ops != [] {
      var r, files := PlanIsCommit(l, d, a.call);
      NextVersion(l, r, files);
      var cut := if a.cut < |ops| then ops[..a.cut] else ops;
      assert forall op | op in cut :: op in ops;
      OnlyRecordsMakeHistory(d, cut, a.failed, n);
    }
  }

  lemma NextVersion(l: Limits, r: Record, files: seq<File>)
    ensures NextRecord(l, r, files).version == r.version + 1
  {
  }

  /** A write that is accepted and gets past its second step is what the next read returns. */
  lemma WriteTakesEffect(l: Limits, d: Disk, a: Attempt)
    requires Intact(l, d) && a.call.Write? && Plan(l, d, a.call) != [] && a.cut >= 2 && l.maxVersions >= 1
    ensures ReadVersion(d, 0).Some? && Merged(ReadVersion(d, 0).value, a.call.files, a.call.remove).Some?
    ensures ReadVersion(Try(l, d, a), 0) == Merged(ReadVersion(d, 0).value, a.call.files, a.call.remove)
  {
    hide Plan, CommitOps, ReadVersion, Merged, Apply, NextRecord, OldVersions;
    var ops := Plan(l, d, a.call);
    var r, files := PlanIsCommit(l, d, a.call);
    var after := Try(l, d, a);
    TryIntact(l, d, a);
    CommitHasTwoSteps(l, r, files);
    SecondStepRecords(l, d, r, files, if a.cut < |ops| then a.cut else |ops|, a.failed);
    assert ops[..|ops|] == ops;
    var next := after.record.value;
    ReadIsCommitted(l, after, next.versions[next.version - 1]);
  }

  lemma CommitHasTwoSteps(l: Limits, r: Record, files: seq<File>)
    ensures CommitOps(l, r, files) != [] ==> |CommitOps(l, r, files)| >= 2
  {
  }

  lemma SecondStepRecords(l: Limits, d: Disk, r: Record, files: seq<File>, cut: nat, failed: set<nat>)
    requires 2 <= cut <= |CommitOps(l, r, files)|
    ensures var after := ApplyAll(d, CommitOps(l, r, files)[..cut], failed);
            && after.record == Some(NextRecord(l, r, files))
            && after.record.value.version == r.version + 1
            && r.version + 1 in after.committed && after.committed[r.version + 1] == files
  {
    hide NextRecord, Bytes, OldVersions;
    NextVersion(l, r, files);
    var ops := CommitOps(l, r, files);
    var rest := Drops(OldVersions(l, r, files)[..cut - 2]);
    var d2 := Apply(Apply(d, ops[0], failed), ops[1], failed);
    assert ops[..cut] == [ops[0], ops[1]] + rest;
    assert ops[..cut][1..] == [ops[1]] + rest && ([ops[1]] + rest)[1..] == rest;
    DropsKeepRecord(d2, OldVersions(l, r, files)[..cut - 2], failed);
  }

  lemma {:induction false} DropsKeepRecord(d: Disk, ns: seq<nat>, failed: set<nat>)
    ensures ApplyAll(d, Drops(ns), failed).record == d.record && ApplyAll(d, Drops(ns), failed).committed == d.committed
    decreases |ns|
  {
    if ns == [] {
    } else {
      assert Drops(ns)[1..] == Drops(ns[1..]);
      DropsKeepRecord(Apply(d, Drops(ns)[0], failed), ns[1..], failed);
    }
  }

  // ---- in place ----

  class Store {
    const limits: Limits
    var record: Option<Record>
    var blobs: map<nat, Files>
    ghost var committed: map<nat, seq<File>>

    constructor (limits: Limits)
      ensures this.limits == limits && State() == Disk(None, map[], map[])
    {
      this.limits := limits;
      record, blobs, committed := None, map[], map[];
    }

    ghost function State(): Disk
      reads this
    {
      Disk(record, blobs, committed)
    }

    method WriteVersion(n: nat, files: seq<File>)
      modifies this`blobs
      ensures State() == Apply(old(State()), WriteFiles(n, files), {})
    {
      var rows := if n in blobs then blobs[n] else map[];
      ghost var before := rows;
      for i := 0 to |files|
        invariant rows == before + AsMap(files[..i])
      {
        assert files[..i + 1][..i] == files[..i];
        rows := rows[files[i].path := files[i].content];
      }
      assert files[..|files|] == files;
      blobs := blobs[n := rows];
    }

    /** A commit that nothing interrupts runs all its steps. */
    method CommitVersion(r: Record, files: seq<File>) returns (ok: bool)
      modifies this
      ensures State() == ApplyAll(old(State()), CommitOps(limits, r, files), {})
      ensures ok <==> CommitOps(limits, r, files) != []
    {
      if |files| > limits.maxFiles || Bytes(files) > limits.maxBytes { return false; }
      ghost var before := State();
      WriteVersion(r.version + 1, files);
      ghost var written := State();
      var all := r.versions + [Version(r.version + 1, PathsOf(files), false)];
      var keepFrom := KeepFrom(|all|, limits.maxVersions);
      var versions, pruned := PruneOld(all, keepFrom);
      record := Some(r.(version := r.version + 1, versions := versions));
      committed := committed[r.version + 1 := files];
      assert record.value == NextRecord(limits, r, files);
      hide Apply, NextRecord, OldVersions;
      ghost var stored := State();
      ApplyPut(written, stored, NextRecord(limits, r, files), files);
      assert pruned == OldVersions(limits, r, files) by { OldVersionsAre(limits, r, files); }
      for i := 0 to |pruned|
        invariant ApplyAll(State(), Drops(pruned[i..]), {}) == ApplyAll(stored, Drops(pruned), {})
      {
        assert Drops(pruned[i..])[1..] == Drops(pruned[i + 1..]);
        ghost var was := State();
        blobs := blobs - {pruned[i]};
        ApplyDrop(was, State(), pruned[i]);
      }
      ok := true;
      ghost var ops := CommitOps(limits, r, files);
      assert ops[1..][1..] == Drops(pruned);
      assert ops[1..][0] == PutRecord(NextRecord(limits, r, files), files);
    }

    /** Marks the versions before `keepFrom`, and lists those that were not marked before. */
    method PruneOld(all: seq<Version>, keepFrom: nat) returns (versions: seq<Version>, pruned: seq<nat>)
      requires keepFrom <= |all|
      ensures versions == Prune(all, keepFrom) && pruned == NewlyPruned(all, keepFrom)
    {
      hide NewlyPruned;
      versions, pruned := all, [];
      for i := 0 to keepFrom
        invariant |versions| == |all|
        invariant forall j | 0 <= j < |all| :: versions[j] == if j < i then all[j].(pruned := true) else all[j]
        invariant pruned + NewlyPruned(all[i..], keepFrom - i) == NewlyPruned(all, keepFrom)
      {
        NewlyPrunedHead(all, i, keepFrom);
        if !versions[i].pruned {
          versions := versions[i := versions[i].(pruned := true)];
          pruned := pruned + [versions[i].n];
        }
      }
      assert NewlyPruned(all[keepFrom..], 0) == [] by { NothingNewlyPruned(all[keepFrom..]); }
    }

    method Merge(current: seq<File>, files: seq<File>, remove: seq<string>) returns (next: Option<seq<File>>)
      ensures next == Merged(current, files, remove)
    {
      var gone := Unique(remove);
      var merged := current;
      for i := 0 to |gone|
        invariant RemoveAll(merged, gone[i..]) == RemoveAll(current, gone)
      {
        if gone[i] !in PathsOf(merged) { return None; }
        merged := WithoutPath(merged, gone[i]);
      }
      for i := 0 to |files|
        invariant PutAll(merged, files[i..]) == PutAll(RemoveAll(current, gone).value, files)
      {
        merged := Put(merged, files[i]);
      }
      next := if merged == [] then None else Some(merged);
    }

    /** Creates the artifact, unless it is there already. */
    method CreateFrom(kind: Kind, entry: string, files: seq<File>) returns (ok: bool)
      modifies this
      ensures State() == ApplyAll(old(State()), Plan(limits, old(State()), Create(kind, entry, files)), {})
      ensures ok <==> Plan(limits, old(State()), Create(kind, entry, files)) != []
    {
      hide CommitOps, PickEntry;
      if record.Some? || !DistinctPaths(files) || AllBlank(files) { return false; }
      var picked := PickEntry(kind, entry, PathsOf(files));
      if picked.None? { return false; }
      ok := CommitVersion(Record(kind, picked.value, 0, []), files);
    }

    method WriteFilesOf(files: seq<File>, remove: seq<string>, entry: string) returns (ok: bool)
      modifies this
      ensures State() == ApplyAll(old(State()), Plan(limits, old(State()), Write(files, remove, entry)), {})
      ensures ok <==> Plan(limits, old(State()), Write(files, remove, entry)) != []
    {
      hide ReadVersion, Merged, CommitOps, PickEntry;
      if record.None? { assert ReadVersion(State(), 0).None? by { NothingToRead(State()); } return false; }
      var current := ReadCurrent();
      if current.None? || !DistinctPaths(files) { return false; }
      var next := Merge(current.value, files, remove);
      if next.None? { return false; }
      var paths := PathsOf(next.value);
      var r := record.value;
      var picked := PickEntry(r.kind, if entry != "" then entry else if r.entry in paths then r.entry else "", paths);
      if picked.None? { return false; }
      ok := CommitVersion(r.(entry := picked.value), next.value);
    }

    method ReadCurrent() returns (files: Option<seq<File>>)
      ensures files == ReadVersion(State(), 0)
    {
      if record.None? { return None; }
      var v := Find(record.value.versions, record.value.version);
      if v.None? || v.value.pruned { return None; }
      var stored := if v.value.n in blobs then blobs[v.value.n] else map[];
      files := FilesAt(stored, v.value.paths);
    }
  }

  lemma NothingToRead(d: Disk)
    requires d.record.None?
    ensures ReadVersion(d, 0).None?
  {
  }

  lemma ApplyPut(d: Disk, e: Disk, r: Record, files: seq<File>)
    requires e == d.(record := Some(r), committed := d.committed[r.version := files])
    ensures e == Apply(d, PutRecord(r, files), {})
  {
  }

  lemma ApplyDrop(d: Disk, e: Disk, n: nat)
    requires e == d.(blobs := d.blobs - {n})
    ensures e == Apply(d, DropFiles(n), {})
  {
  }

  lemma OldVersionsAre(l: Limits, r: Record, files: seq<File>)
    ensures var all := r.versions + [Version(r.version + 1, PathsOf(files), false)];
            OldVersions(l, r, files) == NewlyPruned(all, KeepFrom(|all|, l.maxVersions))
  {
  }
}
