/** What the calls of the artifact store accept, exactly, what they make of the files, which file becomes the
    entry, and how much they leave stored. */
module ArtifactCalls {
  import opened ArtifactStore
  import opened Wrappers

  // ---- the files of a write, in order ----

  function Except(paths: seq<string>, gone: seq<string>): seq<string> {
    if paths == [] then [] else (if paths[0] in gone then [] else [paths[0]]) + Except(paths[1..], gone)
  }

  lemma {:induction false} ExceptNothing(paths: seq<string>)
    ensures Except(paths, []) == paths
  {
    if paths == [] {
    } else {
      ExceptNothing(paths[1..]);
    }
  }

  lemma {:induction false} ExceptFacts(paths: seq<string>, gone: seq<string>)
    ensures forall p :: p in Except(paths, gone) <==> p in paths && p !in gone
  {
    if paths == [] {
    } else {
      ExceptFacts(paths[1..], gone);
      assert paths == [paths[0]] + paths[1..];
    }
  }

  lemma {:induction false} ExceptTwice(paths: seq<string>, first: string, rest: seq<string>)
    ensures Except(Except(paths, [first]), rest) == Except(paths, [first] + rest)
  {
    if paths == [] {
    } else {
      ExceptTwice(paths[1..], first, rest);
      var head, tail := if paths[0] == first then [] else [paths[0]], Except(paths[1..], [first]);
      assert Except(paths, [first]) == head + tail && (paths[0] == first ==> head + tail == tail);
      assert paths[0] != first ==> (head + tail)[0] == paths[0] && (head + tail)[1..] == tail;
      assert paths[0] in [first] + rest <==> paths[0] == first || paths[0] in rest;
    }
  }

  lemma HeadPath(files: seq<File>)
    requires files != []
    ensures PathsOf(files) == [files[0].path] + PathsOf(files[1..])
  {
  }

  lemma {:induction false} WithoutPathOrder(files: seq<File>, path: string)
    ensures PathsOf(WithoutPath(files, path)) == Except(PathsOf(files), [path])
  {
    if files == [] {
    } else {
      WithoutPathOrder(files[1..], path);
      HeadPath(files);
      var rest := WithoutPath(files[1..], path);
      assert PathsOf([files[0]] + rest) == [files[0].path] + PathsOf(rest);
    }
  }

  ghost predicate NoneTwice(paths: seq<string>) { forall i, j | 0 <= i < j < |paths| :: paths[i] != paths[j] }

  lemma {:induction false} UniqueIsNoneTwice(paths: seq<string>)
    ensures NoneTwice(Unique(paths))
  {
    if paths == [] {
    } else {
      UniqueIsNoneTwice(paths[..|paths| - 1]);
    }
  }

  /** Removing succeeds exactly if every path is there, and leaves the others in their order. */
  lemma {:induction false} RemovalIsExact(files: seq<File>, gone: seq<string>)
    requires NoneTwice(gone)
    ensures RemoveAll(files, gone).Some? <==> forall p | p in gone :: p in PathsOf(files)
    ensures RemoveAll(files, gone).Some? ==> PathsOf(RemoveAll(files, gone).value) == Except(PathsOf(files), gone)
    decreases |gone|
  {
    hide PathsOf, WithoutPath;
    if gone == [] {
      ExceptNothing(PathsOf(files));
    } else {
      var first, rest := gone[0], gone[1..];
      assert gone == [first] + rest && first !in rest;
      WithoutPathOrder(files, first);
      ExceptFacts(PathsOf(files), [first]);
      RemovalIsExact(WithoutPath(files, first), rest);
      ExceptTwice(PathsOf(files), first, rest);
    }
  }

  lemma {:induction false} PutOrder(files: seq<File>, f: File)
    ensures PathsOf(Put(files, f)) == PathsOf(files) + if f.path in PathsOf(files) then [] else [f.path]
  {
    if files == [] {
    } else {
      PutOrder(files[1..], f);
      HeadPath(files);
      var rest := Put(files[1..], f);
      assert PathsOf([files[0]] + rest) == [files[0].path] + PathsOf(rest);
      assert PathsOf([f] + files[1..]) == [f.path] + PathsOf(files[1..]);
    }
  }

  /** New files go behind the others, in the order given; the rest stay where they are. */
  lemma {:induction false} PutAllOrder(files: seq<File>, incoming: seq<File>)
    requires DistinctPaths(incoming)
    ensures PathsOf(PutAll(files, incoming)) == PathsOf(files) + Except(PathsOf(incoming), PathsOf(files))
    decreases |incoming|
  {
    hide PathsOf, Put, DistinctPaths;
    if incoming == [] {
      SameLength(incoming);
    } else {
      var f, rest := incoming[0], incoming[1..];
      HeadPath(incoming);
      HeadIsApart(incoming);
      PutOrder(files, f);
      PutAllOrder(Put(files, f), rest);
      ExceptOneMore(PathsOf(rest), PathsOf(files), f.path);
    }
  }

  lemma HeadIsApart(files: seq<File>)
    requires DistinctPaths(files) && files != []
    ensures files[0].path !in PathsOf(files[1..]) && DistinctPaths(files[1..])
  {
  }

  lemma {:induction false} ExceptOneMore(paths: seq<string>, gone: seq<string>, other: string)
    requires other !in paths
    ensures Except(paths, gone + [other]) == Except(paths, gone)
    ensures Except(paths, gone + []) == Except(paths, gone)
  {
    assert gone + [] == gone;
    if paths == [] {
    } else {
      assert paths[0] in paths && forall p | p in paths[1..] :: p in paths;
      ExceptOneMore(paths[1..], gone, other);
      assert paths[0] in gone + [other] <==> paths[0] in gone;
    }
  }

  /** A merge is rejected exactly if it removes what is not there or leaves nothing. Its files are the current
      ones that stay, in their order, and then the new ones, in theirs; WriteMerges says what is in them. */
  lemma MergeIsExact(current: seq<File>, files: seq<File>, remove: seq<string>)
    requires DistinctPaths(files)
    ensures var kept := Except(PathsOf(current), remove);
            && (Merged(current, files, remove).Some? <==>
                  (forall p | p in remove :: p in PathsOf(current)) && (kept != [] || files != []))
            && (Merged(current, files, remove).Some? ==>
                  PathsOf(Merged(current, files, remove).value) == kept + Except(PathsOf(files), kept))
  {
    hide RemoveAll, PutAll, PathsOf;
    var gone := Unique(remove);
    UniqueFacts(remove);
    UniqueIsNoneTwice(remove);
    RemovalIsExact(current, gone);
    ExceptSame(PathsOf(current), gone, remove);
    if RemoveAll(current, gone).Some? {
      var kept := RemoveAll(current, gone).value;
      PutAllOrder(kept, files);
      SameLength(PutAll(kept, files));
      SameLength(files);
      SameLength(kept);
      if PathsOf(kept) == [] { ExceptNothing(PathsOf(files)); }
    }
  }

  lemma SameLength(files: seq<File>)
    ensures |PathsOf(files)| == |files|
  {
  }

  lemma {:induction false} ExceptSame(paths: seq<string>, a: seq<string>, b: seq<string>)
    requires forall p :: p in a <==> p in b
    ensures Except(paths, a) == Except(paths, b)
  {
    if paths == [] {
    } else {
      ExceptSame(paths[1..], a, b);
    }
  }

  // ---- the entry ----

  /** Which file is the entry: the one asked for or none; failing a wish, the conventional name if it is there;
      failing that, of the files with the ending of the kind the first; failing that, the first of all. */
  lemma EntryByPreference(kind: Kind, entry: string, paths: seq<string>)
    ensures var picked, name, ending := PickEntry(kind, entry, paths), Conventional(kind), Extension(kind);
            if entry != "" then picked == (if entry in paths then Some(entry) else None)
            else if paths == [] then picked == None
            else if name != "" && name in paths then picked == Some(name)
            else if ending != "" && exists p | p in paths :: EndsWith(Lower(p), ending)
            then exists i | 0 <= i < |paths| ::
                   && picked == Some(paths[i]) && EndsWith(Lower(paths[i]), ending)
                   && forall j | 0 <= j < i :: !EndsWith(Lower(paths[j]), ending)
            else picked == Some(paths[0])
  {
    hide Lower, EndsWith;
    FirstWithIsFirst(paths, Extension(kind));
  }

  lemma {:induction false} FirstWithIsFirst(paths: seq<string>, ext: string)
    ensures if exists p | p in paths :: EndsWith(Lower(p), ext)
            then exists i | 0 <= i < |paths| ::
                   && FirstWith(paths, ext) == Some(paths[i]) && EndsWith(Lower(paths[i]), ext)
                   && forall j | 0 <= j < i :: !EndsWith(Lower(paths[j]), ext)
            else FirstWith(paths, ext) == None
  {
    hide Lower, EndsWith;
    if paths == [] {
    } else if EndsWith(Lower(paths[0]), ext) {
      assert paths[0] in paths;
    } else {
      FirstWithIsFirst(paths[1..], ext);
      assert paths == [paths[0]] + paths[1..];
      if i :| 0 <= i < |paths| - 1 && FirstWith(paths[1..], ext) == Some(paths[1..][i])
              && EndsWith(Lower(paths[1..][i]), ext) && forall j | 0 <= j < i :: !EndsWith(Lower(paths[1..][j]), ext) {
        assert paths[i + 1] == paths[1..][i];
        forall j | 0 <= j < i + 1 ensures !EndsWith(Lower(paths[j]), ext) {
          assert j > 0 ==> paths[j] == paths[1..][j - 1];
        }
      }
    }
  }

  /** The kinds that have a conventional name have an ending, and the name has it. */
  lemma NamesHaveTheirEnding(kind: Kind)
    ensures Conventional(kind) == "" <==> kind == Code
    ensures Extension(kind) == "" <==> kind == Code
    ensures EndsWith(Conventional(kind), Extension(kind))
    ensures kind == Web ==> Conventional(kind) == "index.html"
    ensures kind == Vue ==> Conventional(kind) == "App.vue"
    ensures kind == Markdown ==> Conventional(kind) == "README.md"
  {
  }

  /** Endings are compared without regard to case. */
  lemma LowerIgnoresCase(s: string, t: string)
    requires |s| == |t|
    requires forall i | 0 <= i < |s| :: s[i] == t[i] || ('A' <= s[i] <= 'Z' && t[i] as int == s[i] as int + 32)
    ensures Lower(s) == Lower(t)
    ensures (forall c | c in s :: !('A' <= c <= 'Z')) ==> Lower(s) == s
  {
    assert forall i | 0 <= i < |s| :: s[i] in s;
  }

  /** A write without a wish keeps the entry as long as the file is there. */
  lemma EntryStays(r: Record, asked: string, paths: seq<string>)
    requires asked == ""
    ensures r.entry != "" && r.entry in paths ==> EntryFor(r, asked, paths) == Some(r.entry)
    ensures r.entry !in paths ==> EntryFor(r, asked, paths) == PickEntry(r.kind, "", paths)
    ensures paths != [] ==> EntryFor(r, asked, paths).Some?
  {
    hide Lower, EndsWith;
  }

  // ---- acceptance ----

  /** Files count what is in them, and together what they count each. */
  lemma {:induction false} BytesSplit(a: seq<File>, b: seq<File>, f: File)
    ensures Bytes(a + b) == Bytes(a) + Bytes(b)
    ensures Bytes([f]) == Utf8Length(f.content)
  {
    hide Utf8Length;
    assert [f][1..] == [] && Bytes([]) == 0;
    if a == [] {
      assert [] + b == b;
    } else {
      assert (a + b)[1..] == a[1..] + b;
      BytesSplit(a[1..], b, f);
    }
  }

  /** The first code point that takes more than so many bytes. */
  function FirstBeyond(bytes: nat): int {
    if bytes == 0 then 0 else if bytes == 1 then 128 else if bytes == 2 then 2048 else if bytes == 3 then 65536
    else 1114112
  }

  /** A text whose characters all take the same number of bytes takes that many times its length. */
  lemma {:induction false} UniformTextCounts(text: string, bytes: nat)
    requires 1 <= bytes <= 4 && forall c | c in text :: FirstBeyond(bytes - 1) <= c as int < FirstBeyond(bytes)
    ensures Utf8Length(text) == bytes * |text|
  {
    if text == "" {
    } else {
      assert text[0] in text && forall c | c in text[1..] :: c in text;
      UniformTextCounts(text[1..], bytes);
    }
  }

  /** Spaces, tabs and line breaks are blank, letters and digits are not. */
  lemma BlankTexts(text: string)
    ensures (forall c | c in text :: c in [' ', '\t', '\r', '\n']) ==> IsBlank(text)
    ensures IsBlank(text) ==> forall c | c in text :: !('0' <= c <= '9' || 'A' <= c <= 'Z' || 'a' <= c <= 'z')
  {
  }

  predicate WithinBudget(l: Limits, files: seq<File>) { |files| <= l.maxFiles && Bytes(files) <= l.maxBytes }

  /** A create is accepted exactly if there is nothing yet, no path comes twice, some file is not blank, the entry
      asked for is one of the files, and the files are within budget. It makes version 1 of them. */
  lemma CreateIsExact(l: Limits, d: Disk, kind: Kind, entry: string, files: seq<File>)
    ensures Plan(l, d, Create(kind, entry, files)) != [] <==>
            && d.record.None? && DistinctPaths(files) && WithinBudget(l, files)
            && (exists f | f in files :: !IsBlank(f.content)) && (entry == "" || entry in PathsOf(files))
  {
    hide Bytes, IsBlank, DistinctPaths, OldVersions, NextRecord, PickEntry;
    EntryIsAFile(kind, entry, PathsOf(files));
    SameLength(files);
    assert entry != "" && entry !in PathsOf(files) ==> PickEntry(kind, entry, PathsOf(files)).None? by {
      EntryByPreference(kind, entry, PathsOf(files));
    }
  }

  lemma CreateTakesEffect(l: Limits, leftovers: map<nat, Files>, kind: Kind, entry: string, files: seq<File>,
                          cut: nat, failed: set<nat>)
    requires Plan(l, Disk(None, leftovers, map[]), Create(kind, entry, files)) != [] && cut >= 2 && l.maxVersions >= 1
    ensures var after := Try(l, Disk(None, leftovers, map[]), Attempt(Create(kind, entry, files), cut, failed));
            && after.record.Some? && after.record.value.version == 1 && after.record.value.kind == kind
            && PickEntry(kind, entry, PathsOf(files)) == Some(after.record.value.entry)
            && ReadVersion(after, 0) == Some(files)
  {
    hide CommitOps, PickEntry, ReadVersion, NextRecord, Apply, Intact;
    var d := Disk(None, leftovers, map[]);
    var r := Record(kind, PickEntry(kind, entry, PathsOf(files)).value, 0, []);
    var ops := CommitOps(l, r, files);
    var after := Try(l, d, Attempt(Create(kind, entry, files), cut, failed));
    assert Intact(l, d) by { NothingIsIntact(l, leftovers); }
    TryIntact(l, d, Attempt(Create(kind, entry, files), cut, failed));
    CommitHasTwoSteps(l, r, files);
    SecondStepRecords(l, d, r, files, if cut < |ops| then cut else |ops|, failed);
    assert ops[..|ops|] == ops;
    FirstRecord(l, r, files);
    CurrentReads(l, after);
  }

  lemma NothingIsIntact(l: Limits, leftovers: map<nat, Files>)
    ensures Intact(l, Disk(None, leftovers, map[]))
  {
  }

  lemma FirstRecord(l: Limits, r: Record, files: seq<File>)
    ensures NextRecord(l, r, files).kind == r.kind && NextRecord(l, r, files).entry == r.entry
  {
  }

  /** What the current version reads as. */
  lemma CurrentReads(l: Limits, d: Disk)
    requires Intact(l, d) && d.record.Some? && l.maxVersions >= 1
    ensures ReadVersion(d, 0).Some? && DistinctPaths(ReadVersion(d, 0).value)
    ensures d.record.value.version in d.committed && ReadVersion(d, 0) == Some(d.committed[d.record.value.version])
  {
    hide ReadVersion, DistinctPaths;
    var r := d.record.value;
    ReadIsCommitted(l, d, r.versions[r.version - 1]);
  }

  /** A write is accepted exactly if there is something, the new files have no path twice, what they lead to is
      not rejected and within budget, and the entry asked for is one of the resulting files. */
  lemma WriteIsExact(l: Limits, d: Disk, files: seq<File>, remove: seq<string>, entry: string)
    requires Intact(l, d) && l.maxVersions >= 1
    ensures Plan(l, d, Write(files, remove, entry)) != [] <==>
            && d.record.Some? && ReadVersion(d, 0).Some? && DistinctPaths(files)
            && var merged := Merged(ReadVersion(d, 0).value, files, remove);
               && merged.Some? && WithinBudget(l, merged.value)
               && (entry == "" || entry in PathsOf(merged.value))
  {
    hide Intact, Bytes, DistinctPaths, OldVersions, NextRecord, ReadVersion, Merged, PickEntry, PathsOf;
    if d.record.Some? {
      CurrentReads(l, d);
      var merged := Merged(ReadVersion(d, 0).value, files, remove);
      if merged.Some? && DistinctPaths(files) {
        assert merged.value != [] by { WriteMerges(ReadVersion(d, 0).value, files, remove, ""); }
        var r, paths := d.record.value, PathsOf(merged.value);
        SameLength(merged.value);
        EntryIsAFile(r.kind, if entry != "" then entry else if r.entry in paths then r.entry else "", paths);
        assert entry != "" && entry !in paths ==> PickEntry(r.kind, entry, paths).None? by {
          EntryByPreference(r.kind, entry, paths);
        }
      }
    } else {
      NothingToRead(d);
    }
  }

  // ---- what is left stored ----

  /** Exactly the files of the retained versions are stored. */
  ghost predicate Tidy(l: Limits, d: Disk) {
    forall n :: n in d.blobs <==> d.record.Some? && 1 <= n <= d.record.value.version < n + l.maxVersions
  }

  lemma {:induction false} NewlyPrunedIsExact(versions: seq<Version>, keepFrom: nat, n: nat)
    ensures n in NewlyPruned(versions, keepFrom) <==>
            exists i | 0 <= i < |versions| && i < keepFrom :: !versions[i].pruned && versions[i].n == n
  {
    if keepFrom > 0 && versions != [] {
      NewlyPrunedIsExact(versions[1..], keepFrom - 1, n);
      assert forall i | 0 < i < |versions| :: versions[i] == versions[1..][i - 1];
      assert forall i | 0 <= i < |versions| - 1 :: versions[1..][i] == versions[i + 1];
    }
  }

  lemma OldVersionsAreExact(l: Limits, r: Record, files: seq<File>, n: nat)
    requires Sound(l, r)
    ensures n in OldVersions(l, r, files) <==> 1 <= n && n + l.maxVersions == r.version + 1
  {
    var versions := r.versions + [Version(r.version + 1, PathsOf(files), false)];
    var keepFrom := KeepFrom(|versions|, l.maxVersions);
    NewlyPrunedIsExact(versions, keepFrom, n);
    if 1 <= n <= |versions| { assert versions[n - 1].n == n; }
  }

  lemma {:induction false} DropsRemove(d: Disk, ns: seq<nat>)
    ensures forall n :: n in ApplyAll(d, Drops(ns), {}).blobs <==> n in d.blobs && n !in ns
    decreases |ns|
  {
    if ns == [] {
    } else {
      assert Drops(ns)[1..] == Drops(ns[1..]);
      DropsRemove(d.(blobs := d.blobs - {ns[0]}), ns[1..]);
      assert ns == [ns[0]] + ns[1..];
    }
  }

  lemma CommitStores(l: Limits, d: Disk, r: Record, files: seq<File>)
    requires CommitOps(l, r, files) != []
    ensures var after := ApplyAll(d, CommitOps(l, r, files), {});
            && after.record.Some? && after.record.value.version == r.version + 1
            && forall n :: n in after.blobs <==> (n in d.blobs || n == r.version + 1) && n !in OldVersions(l, r, files)
  {
    hide NextRecord, Bytes, OldVersions, PathsOf;
    var ops, ns := CommitOps(l, r, files), OldVersions(l, r, files);
    var d2 := Apply(Apply(d, ops[0], {}), ops[1], {});
    assert ops[1..][1..] == Drops(ns) && ops[1..][0] == ops[1];
    NextVersion(l, r, files);
    DropsKeepRecord(d2, ns, {});
    DropsRemove(d2, ns);
  }

  lemma CommitTidies(l: Limits, d: Disk, r: Record, files: seq<File>)
    requires Intact(l, d) && Tidy(l, d) && Base(l, d, r, files) && CommitOps(l, r, files) != []
    ensures Tidy(l, ApplyAll(d, CommitOps(l, r, files), {}))
  {
    hide CommitOps, OldVersions, Stored, DistinctPaths, PathsOf;
    CommitStores(l, d, r, files);
    assert Sound(l, r);
    forall n: nat ensures n in OldVersions(l, r, files) <==> 1 <= n && n + l.maxVersions == r.version + 1 {
      OldVersionsAreExact(l, r, files, n);
    }
  }

  /** A call that nothing interrupts. */
  predicate Whole(l: Limits, d: Disk, a: Attempt) { a.failed == {} && a.cut >= |Plan(l, d, a.call)| }

  predicate AllWhole(l: Limits, d: Disk, attempts: seq<Attempt>)
    decreases |attempts|
  {
    attempts == [] || (Whole(l, d, attempts[0]) && AllWhole(l, Try(l, d, attempts[0]), attempts[1..]))
  }

  lemma {:induction false} LifeIsTidy(l: Limits, d: Disk, attempts: seq<Attempt>)
    requires Intact(l, d) && Tidy(l, d) && AllWhole(l, d, attempts)
    ensures Tidy(l, Life(l, d, attempts))
    decreases |attempts|
  {
    hide Intact, Tidy, Plan, CommitOps;
    if attempts == [] {
    } else {
      var a := attempts[0];
      TryIntact(l, d, a);
      var ops := Plan(l, d, a.call);
      assert ops[..|ops|] == ops && (ops == [] ==> ApplyAll(d, ops, {}) == d);
      if ops != [] {
        var r, files := PlanIsCommit(l, d, a.call);
        CommitTidies(l, d, r, files);
      }
      LifeIsTidy(l, Try(l, d, a), attempts[1..]);
    }
  }

  /** After any calls that nothing interrupts, exactly the versions that are retained take up space. */
  lemma NothingElseIsStored(l: Limits, attempts: seq<Attempt>)
    requires AllWhole(l, Disk(None, map[], map[]), attempts)
    ensures var d := Life(l, Disk(None, map[], map[]), attempts);
            forall n :: n in d.blobs <==> d.record.Some? && 1 <= n <= d.record.value.version < n + l.maxVersions
  {
    hide Life, AllWhole;
    LifeIsTidy(l, Disk(None, map[], map[]), attempts);
  }
}
