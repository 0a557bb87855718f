/** What a scan answers, said without the scan: the parses of its sources. */
module ScanContents {
  import opened Wrappers
  import opened Chunks
  import opened Scans
  import opened ScanRuns
  import TextOrder

  function ParseOf(env: Env, f: SourceFile): Option<seq<Chunk>> {
    env.parse(f.path, f.source, f.adapter.identifier, f.adapter.version)
  }

  ghost predicate AllParse(env: Env, fs: seq<SourceFile>) {
    forall f <- fs :: ParseOf(env, f).Some?
  }

  /** The chunks of every source, one file after the other. */
  ghost function AllChunks(env: Env, fs: seq<SourceFile>): seq<Chunk>
    requires AllParse(env, fs)
  {
    if fs == [] then []
    else
      assert fs[0] in fs && forall f <- fs[1..] :: f in fs;
      ParseOf(env, fs[0]).value + AllChunks(env, fs[1..])
  }

  ghost predicate ListsSources(env: Env, files: map<string, CachedFile>, fs: seq<SourceFile>) {
    && files.Keys == (set f <- fs :: f.path)
    && forall f <- fs :: f.path in files && ParseOf(env, f).Some?
         && files[f.path] == CachedFile(f.adapter.identifier, f.adapter.version, env.hash(f.source), ParseOf(env, f).value)
  }

  lemma SoundReuse(env: Env, previous: map<string, CachedFile>, f: SourceFile)
    requires Sound(env, previous)
    ensures ChunksFor(env, previous, f) == ParseOf(env, f)
  {
  }

  lemma {:induction false} ScanFilesChunks(env: Env, previous: map<string, CachedFile>, fs: seq<SourceFile>, s: Scan)
    requires Sound(env, previous)
    ensures var r := ScanFiles(env, previous, fs, s);
            && (r.Some? <==> AllParse(env, fs))
            && (r.Some? ==> r.value.chunks == s.chunks + AllChunks(env, fs) && r.value.removed == s.removed
                            && r.value.fingerprint == s.fingerprint)
    decreases |fs|
  {
    if fs != [] {
      SoundReuse(env, previous, fs[0]);
      assert forall f :: f in fs <==> f == fs[0] || f in fs[1..];
      if ParseOf(env, fs[0]).Some? {
        ScanFilesChunks(env, previous, fs[1..], Took(env, previous, fs[0], ParseOf(env, fs[0]).value, s));
      }
    }
  }

  lemma {:induction false} ScanFilesListed(env: Env, previous: map<string, CachedFile>, all: seq<SourceFile>, k: nat, s: Scan)
    requires Sound(env, previous) && DistinctPaths(all) && k <= |all| && ListsSources(env, s.files, all[..k])
    ensures var r := ScanFiles(env, previous, all[k..], s);
            r.Some? ==> ListsSources(env, r.value.files, all)
    decreases |all| - k
  {
    if k == |all| {
      assert all[..k] == all;
    } else {
      var f := all[k];
      assert all[k..][0] == f && all[k..][1..] == all[k + 1..];
      SoundReuse(env, previous, f);
      if ParseOf(env, f).Some? {
        var s' := Took(env, previous, f, ParseOf(env, f).value, s);
        TookLists(env, previous, all, k, s);
        ScanFilesListed(env, previous, all, k + 1, s');
      }
    }
  }

  lemma TookLists(env: Env, previous: map<string, CachedFile>, all: seq<SourceFile>, k: nat, s: Scan)
    requires DistinctPaths(all) && k < |all| && ListsSources(env, s.files, all[..k]) && ParseOf(env, all[k]).Some?
    ensures ListsSources(env, Took(env, previous, all[k], ParseOf(env, all[k]).value, s).files, all[..k + 1])
  {
    var f := all[k];
    assert all[..k + 1] == all[..k] + [f];
    forall g <- all[..k]
      ensures g.path != f.path
    {
      var i :| 0 <= i < k && all[..k][i] == g;
      assert all[i].path != all[k].path;
    }
    OneMoreListed(env, s.files, all[..k], f);
  }

  lemma OneMoreListed(env: Env, files: map<string, CachedFile>, fs: seq<SourceFile>, f: SourceFile)
    requires ListsSources(env, files, fs) && ParseOf(env, f).Some? && forall g <- fs :: g.path != f.path
    ensures ListsSources(env, files[f.path := CachedFile(f.adapter.identifier, f.adapter.version, env.hash(f.source),
              ParseOf(env, f).value)], fs + [f])
  {
    assert (set g <- fs + [f] :: g.path) == (set g <- fs :: g.path) + {f.path} by {
      assert f in fs + [f] && forall g <- fs :: g in fs + [f];
    }
  }

  lemma ScannedAnswers(env: Env, previous: map<string, CachedFile>, fs: seq<SourceFile>)
    ensures var r, q := ScanWith(env, previous, fs), ScanFiles(env, previous, fs, Started(env, previous, fs));
            && (r.Some? <==> q.Some?)
            && (r.Some? ==>
                 && multiset(r.value.chunks) == multiset(q.value.chunks) && r.value.files == q.value.files
                 && r.value.removed == q.value.removed)
  {
    var q := ScanFiles(env, previous, fs, Started(env, previous, fs));
    if q.Some? { SortChunksSorts(q.value.chunks); }
  }

  /** A scan over a sound cache answers nothing if and only if some source does not parse, and otherwise the
      chunks of its sources' parses, all of them and no others. */
  lemma ScanChunksAreParses(env: Env, previous: map<string, CachedFile>, fs: seq<SourceFile>)
    requires Sound(env, previous)
    ensures var r := ScanWith(env, previous, fs);
            && (r.None? <==> exists f <- fs :: ParseOf(env, f).None?)
            && (r.Some? ==> AllParse(env, fs) && multiset(r.value.chunks) == multiset(AllChunks(env, fs)))
  {
    ScannedAnswers(env, previous, fs);
    ScanFilesChunks(env, previous, fs, Started(env, previous, fs));
    if AllParse(env, fs) { assert [] + AllChunks(env, fs) == AllChunks(env, fs); }
  }

  /** They come by path and then by start line. */
  lemma ScanChunksComeInOrder(env: Env, previous: map<string, CachedFile>, fs: seq<SourceFile>, i: nat, j: nat)
    requires var r := ScanWith(env, previous, fs); r.Some? && i < j < |r.value.chunks|
    ensures var cs := ScanWith(env, previous, fs).value.chunks;
            TextOrder.TextLess(cs[i].path, cs[j].path) || (cs[i].path == cs[j].path && cs[i].startLine <= cs[j].startLine)
  {
    var chunks := ScanFiles(env, previous, fs, Started(env, previous, fs)).value.chunks;
    SortChunksSorts(chunks);
    var cs := SortChunks(chunks);
    assert !PathLineLess(cs[j], cs[i]);
    TextOrder.TextLessTotal(cs[i].path, cs[j].path);
  }

  lemma RemovedFiles(previous: map<string, CachedFile>, fs: seq<SourceFile>)
    ensures Removed(previous, fs) == previous.Keys - (set f <- fs :: f.path)
  {
  }

  /** And it counts the cached paths that no source has. */
  lemma RemovedAreCounted(env: Env, previous: map<string, CachedFile>, fs: seq<SourceFile>)
    requires Sound(env, previous)
    ensures var r := ScanWith(env, previous, fs);
            r.Some? ==> r.value.removed == |previous.Keys - (set f <- fs :: f.path)|
  {
    ScannedAnswers(env, previous, fs);
    ScanFilesChunks(env, previous, fs, Started(env, previous, fs));
    RemovedFiles(previous, fs);
  }

  /** Its files are exactly the source paths, each with the language, version, hash and chunks of its source. */
  lemma ScanListsItsSources(env: Env, previous: map<string, CachedFile>, fs: seq<SourceFile>)
    requires Sound(env, previous) && DistinctPaths(fs)
    ensures var r := ScanWith(env, previous, fs);
            r.Some? ==> ListsSources(env, r.value.files, fs)
  {
    ScannedAnswers(env, previous, fs);
    assert fs[0..] == fs && fs[..0] == [];
    ScanFilesListed(env, previous, fs, 0, Started(env, previous, fs));
  }

  /** The chunks of a file are its own, wherever they were cut. */
  ghost predicate LabelsChunks(env: Env) {
    forall path, text, language, version, cs ::
      env.parse(path, text, language, version) == Some(cs) ==> OwnChunks(env, path, language, cs)
  }

  lemma {:induction false} SourcesHaveAdapters(registry: Registry, prose: bool, texts: seq<(string, string)>)
    ensures forall f <- Sources(registry, prose, texts) :: registry(f.path) == Some(f.adapter)
  {
    if texts != [] { SourcesHaveAdapters(registry, prose, texts[1..]); }
  }

  lemma SavedIsCompatible(env: Env, registry: Registry, ws: Workspace, fs: seq<SourceFile>, m: Manifest)
    requires LabelsChunks(env) && ListsSources(env, m.files, fs)
    requires forall f <- fs :: registry(f.path) == Some(f.adapter)
    requires m.version == VERSION && m.workspaceId == ws.id && m.workspacePath == ws.path
    ensures Compatible(env, registry, ws, m)
  {
    forall path <- m.files
      ensures registry(path).Some? && m.files[path].language == registry(path).value.identifier
      ensures OwnChunks(env, path, m.files[path].language, m.files[path].chunks)
    {
      var f :| f in fs && f.path == path;
    }
  }

  /** What a scan saves is what the next one loads. */
  lemma SavedScansAreLoaded(env: Env, ws: Workspace, w: World)
    requires LabelsChunks(env) && Sound(env, Loaded(env, ws, w)) && Scanned(env, ws, w).Some?
    requires DistinctPaths(Sources(w.registry, w.prose, w.texts))
    ensures Loaded(env, ws, Next(env, ws, w, ScanAndSave)) == Scanned(env, ws, w).value.files
  {
    var fs := Sources(w.registry, w.prose, w.texts);
    SourcesHaveAdapters(w.registry, w.prose, w.texts);
    SavedLoads(env, w.registry, ws, Loaded(env, ws, w), fs);
  }

  lemma SavedLoads(env: Env, registry: Registry, ws: Workspace, previous: map<string, CachedFile>, fs: seq<SourceFile>)
    requires LabelsChunks(env) && Sound(env, previous) && DistinctPaths(fs) && ScanWith(env, previous, fs).Some?
    requires forall f <- fs :: registry(f.path) == Some(f.adapter)
    ensures var s := ScanWith(env, previous, fs).value;
            var m := Manifest(VERSION, ws.id, ws.path, s.fingerprint, s.files);
            Load(env, registry, ws, Current(m)) == m
  {
    var s := ScanWith(env, previous, fs).value;
    ScanListsItsSources(env, previous, fs);
    SavedIsCompatible(env, registry, ws, fs, Manifest(VERSION, ws.id, ws.path, s.fingerprint, s.files));
  }

  /** So that one parses nothing while nothing changes. */
  lemma UnchangedIsNotParsedAgain(env: Env, ws: Workspace, w: World)
    requires LabelsChunks(env) && Sound(env, Loaded(env, ws, w)) && Scanned(env, ws, w).Some?
    requires DistinctPaths(Sources(w.registry, w.prose, w.texts))
    ensures var r := Scanned(env, ws, Next(env, ws, w, ScanAndSave));
            r.Some? && r.value.parsed == 0
  {
    var fs := Sources(w.registry, w.prose, w.texts);
    SavedScansAreLoaded(env, ws, w);
    ScannedAgain(env, Loaded(env, ws, w), fs);
  }

  lemma ScannedAgain(env: Env, previous: map<string, CachedFile>, fs: seq<SourceFile>)
    requires Sound(env, previous) && DistinctPaths(fs) && ScanWith(env, previous, fs).Some?
    ensures var r := ScanWith(env, ScanWith(env, previous, fs).value.files, fs);
            r.Some? && r.value.parsed == 0
  {
    RescanParsesOnlyChanges(env, previous, fs, fs);
    NothingChanged(env, fs, fs);
    ScanListsItsSources(env, previous, fs);
    ReusedWhole(env, ScanWith(env, previous, fs).value.files, fs, fs,
      Started(env, ScanWith(env, previous, fs).value.files, fs));
  }

  lemma {:induction false} ReusedWhole(env: Env, files: map<string, CachedFile>, all: seq<SourceFile>, fs: seq<SourceFile>, s: Scan)
    requires ListsSources(env, files, all) && forall f <- fs :: f in all
    ensures ScanFiles(env, files, fs, s).Some?
    decreases |fs|
  {
    if fs != [] {
      assert fs[0] in all && Reusable(env, files, fs[0]);
      ReusedWhole(env, files, all, fs[1..], Took(env, files, fs[0], files[fs[0].path].chunks, s));
    }
  }

  lemma {:induction false} NothingChanged(env: Env, before: seq<SourceFile>, fs: seq<SourceFile>)
    requires forall f <- fs :: f in before
    ensures Changed(env, before, fs) == 0
    decreases |fs|
  {
    if fs != [] {
      NothingChanged(env, before, fs[1..]);
      assert fs[0] in before;
      var i :| 0 <= i < |before| && before[i] == fs[0];
      assert Keys(env, before)[i] == KeyOf(env, fs[0]);
    }
  }

  /** Which files are read: those with an adapter, prose ones only if asked for, in the order of the walk. */
  lemma {:induction false} SourcesAreTheAdaptersFiles(registry: Registry, prose: bool, texts: seq<(string, string)>,
    path: string, text: string, a: LanguageAdapter)
    ensures SourceFile(path, text, a) in Sources(registry, prose, texts)
       <==> (path, text) in texts && registry(path) == Some(a) && (prose || !a.prose)
  {
    if texts != [] {
      SourcesAreTheAdaptersFiles(registry, prose, texts[1..], path, text, a);
      assert (path, text) in texts <==> (path, text) == texts[0] || (path, text) in texts[1..];
    }
  }

  /** When a stored manifest is taken as it is, when it migrates, and when the scan starts from nothing. */
  lemma StoredManifestsAreTaken(env: Env, registry: Registry, ws: Workspace, stored: Stored)
    ensures var files := Load(env, registry, ws, stored).files;
            && (stored.Current? ==>
                 var m := stored.m;
                 files == if && m.version == 2 && m.workspaceId == ws.id && m.workspacePath == ws.path
                             && forall path <- m.files ::
                                  && registry(path).Some? && m.files[path].language == registry(path).value.identifier
                                  && forall c <- m.files[path].chunks ::
                                       c.path == path && c.language == m.files[path].language
                                       && c.contentHash == env.hash(c.code)
                          then m.files else map[])
            && (stored.NoFile? || stored.Junk? ==> files == map[])
  {
  }
}
