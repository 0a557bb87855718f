/** A scan over any history of the cache answers what a scan from nothing would. */
module ScanRuns {
  import opened Wrappers
  import opened Chunks
  import opened Fingerprints
  import opened TextOrder
  import opened Scans

  ghost predicate HashInjective(env: Env) {
    forall s, t :: env.hash(s) == env.hash(t) ==> s == t
  }

  /** Each entry holds what its own adapter version cuts the text it was made from into. */
  ghost predicate Sound(env: Env, files: map<string, CachedFile>) {
    forall path <- files, text ::
      env.hash(text) == files[path].contentHash ==>
        env.parse(path, text, files[path].language, files[path].version) == Some(files[path].chunks)
  }

  lemma {:induction false} ReuseChangesNothing(
    env: Env, previous: map<string, CachedFile>, fs: seq<SourceFile>, s: Scan, clean: Scan)
    requires Sound(env, previous)
    requires s.chunks == clean.chunks && s.files == clean.files && s.fingerprint == clean.fingerprint
    ensures var r, q := ScanFiles(env, previous, fs, s), ScanFiles(env, map[], fs, clean);
            && (r.Some? <==> q.Some?)
            && (r.Some? ==>
                 && r.value.chunks == q.value.chunks && r.value.files == q.value.files
                 && r.value.fingerprint == q.value.fingerprint
                 && r.value.parsed + r.value.reusedFiles == s.parsed + s.reusedFiles + |fs|
                 && r.value.removed == s.removed)
    decreases |fs|
  {
    if fs != [] {
      var f := fs[0];
      assert ChunksFor(env, previous, f) == ChunksFor(env, map[], f);
      var cs := ChunksFor(env, map[], f);
      if cs.Some? {
        var cached := CachedFile(f.adapter.identifier, f.adapter.version, env.hash(f.source), cs.value);
        var reused := Reusable(env, previous, f);
        ReuseChangesNothing(env, previous, fs[1..],
          s.(chunks := s.chunks + cs.value, files := s.files[f.path := cached],
             parsed := s.parsed + if reused then 0 else 1, reusedFiles := s.reusedFiles + if reused then 1 else 0),
          clean.(chunks := clean.chunks + cs.value, files := clean.files[f.path := cached], parsed := clean.parsed + 1));
      }
    }
  }

  /** An incremental scan over a sound cache and a scan from nothing agree on everything but the counts,
      and every file is counted once, as parsed or as unchanged. */
  lemma IncrementalEqualsFresh(env: Env, previous: map<string, CachedFile>, fs: seq<SourceFile>)
    requires Sound(env, previous)
    ensures var r, q := ScanWith(env, previous, fs), ScanWith(env, map[], fs);
            && (r.Some? <==> q.Some?)
            && (r.Some? ==>
                 && r.value.chunks == q.value.chunks && r.value.files == q.value.files
                 && r.value.fingerprint == q.value.fingerprint
                 && r.value.parsed + r.value.reusedFiles == |fs|)
  {
    ReuseChangesNothing(env, previous, fs, Started(env, previous, fs), Started(env, map[], fs));
  }

  lemma {:induction false} ScanFilesSound(env: Env, previous: map<string, CachedFile>, fs: seq<SourceFile>, s: Scan)
    requires HashInjective(env) && Sound(env, previous) && Sound(env, s.files)
    ensures var r := ScanFiles(env, previous, fs, s);
            r.Some? ==> Sound(env, r.value.files)
    decreases |fs|
  {
    if fs != [] {
      var f := fs[0];
      var cs := ChunksFor(env, previous, f);
      if cs.Some? {
        var cached := CachedFile(f.adapter.identifier, f.adapter.version, env.hash(f.source), cs.value);
        var reused := Reusable(env, previous, f);
        ScanFilesSound(env, previous, fs[1..],
          s.(chunks := s.chunks + cs.value, files := s.files[f.path := cached],
             parsed := s.parsed + if reused then 0 else 1, reusedFiles := s.reusedFiles + if reused then 1 else 0));
      }
    }
  }

  // ---------------------------------------------------------------- runs

  /** The workspace as it is: its texts sorted by path, the registered adapters, whether prose is
      indexed, and the manifest file. */
  datatype World = World(texts: seq<(string, string)>, registry: Registry, prose: bool, stored: Stored)

  datatype Event =
    | Edit(texts: seq<(string, string)>)
    | FlipProse
    | Upgrade(registry: Registry)
    | FirstFormatScan
    | ScanAndSave
    | ScanKilled
    | Corrupt
    | LoseManifest

  /** The files the index reads. */
  function Sources(registry: Registry, prose: bool, texts: seq<(string, string)>): seq<SourceFile> {
    if texts == [] then []
    else
      var (path, text) := texts[0];
      var rest := Sources(registry, prose, texts[1..]);
      match registry(path)
      case Some(a) => if prose || !a.prose then [SourceFile(path, text, a)] + rest else rest
      case None => rest
  }

  function Loaded(env: Env, ws: Workspace, w: World): map<string, CachedFile> {
    Load(env, w.registry, ws, w.stored).files
  }

  function Scanned(env: Env, ws: Workspace, w: World): Option<Scan> {
    ScanWith(env, Loaded(env, ws, w), Sources(w.registry, w.prose, w.texts))
  }

  predicate RustPath(registry: Registry, path: string) {
    registry(path).Some? && registry(path).value.identifier == "rust"
  }

  /** What the first version of the program stored: for each Rust file, the chunks its own chunker cut. */
  function FirstFiles(env: Env, registry: Registry, texts: seq<(string, string)>): map<string, CachedFileV1> {
    if texts == [] then map[]
    else
      var (path, text) := texts[0];
      var rest := FirstFiles(env, registry, texts[1..]);
      if !RustPath(registry, path) then rest
      else
        match env.parse(path, text, "rust", FIRST_CHUNKER)
        case Some(cs) => rest[path := CachedFileV1(env.hash(text), cs)]
        case None => rest
  }

  function Next(env: Env, ws: Workspace, w: World, e: Event): World {
    match e
    case Edit(texts) => w.(texts := texts)
    case FlipProse => w.(prose := !w.prose)
    case Upgrade(registry) => w.(registry := registry)
    case FirstFormatScan =>
      w.(stored := First(ManifestV1(1, FIRST_CHUNKER, ws.id, ws.path, "", FirstFiles(env, w.registry, w.texts))))
    case ScanAndSave =>
      (match Scanned(env, ws, w)
       case Some(s) => w.(stored := Current(Manifest(VERSION, ws.id, ws.path, s.fingerprint, s.files)))
       case None => w)
    case ScanKilled => w
    case Corrupt => w.(stored := Junk)
    case LoseManifest => w.(stored := NoFile)
  }

  ghost predicate StoredSound(env: Env, stored: Stored) {
    match stored
    case Current(m) => Sound(env, m.files)
    case First(v1) =>
      forall path <- v1.files, text ::
        env.hash(text) == v1.files[path].contentHash ==>
          env.parse(path, text, "rust", FIRST_CHUNKER) == Some(v1.files[path].chunks)
    case _ => true
  }

  lemma LoadedSound(env: Env, ws: Workspace, w: World)
    requires StoredSound(env, w.stored)
    ensures Sound(env, Loaded(env, ws, w))
  {
  }

  lemma {:induction false} FirstFilesSound(env: Env, registry: Registry, texts: seq<(string, string)>)
    requires HashInjective(env)
    ensures forall path <- FirstFiles(env, registry, texts), text ::
              env.hash(text) == FirstFiles(env, registry, texts)[path].contentHash ==>
                env.parse(path, text, "rust", FIRST_CHUNKER) == Some(FirstFiles(env, registry, texts)[path].chunks)
  {
    if texts != [] {
      FirstFilesSound(env, registry, texts[1..]);
      var (own, source) := texts[0];
      var all := FirstFiles(env, registry, texts);
      forall path <- all, text | env.hash(text) == all[path].contentHash
        ensures env.parse(path, text, "rust", FIRST_CHUNKER) == Some(all[path].chunks)
      {
        if path == own && RustPath(registry, own) && env.parse(own, source, "rust", FIRST_CHUNKER).Some? {
          assert env.hash(text) == env.hash(source);
        }
      }
    }
  }

  /** The first chunker labels its chunks with their file, language and hash. */
  ghost predicate LabelsOwnChunks(env: Env) {
    forall path, text, cs :: env.parse(path, text, "rust", FIRST_CHUNKER) == Some(cs) ==> OwnChunks(env, path, "rust", cs)
  }

  lemma {:induction false} FirstFilesAreOwn(env: Env, registry: Registry, texts: seq<(string, string)>)
    requires LabelsOwnChunks(env)
    ensures forall path <- FirstFiles(env, registry, texts) ::
              RustPath(registry, path) && OwnChunks(env, path, "rust", FirstFiles(env, registry, texts)[path].chunks)
  {
    if texts != [] {
      FirstFilesAreOwn(env, registry, texts[1..]);
      var (own, source) := texts[0];
      var r := env.parse(own, source, "rust", FIRST_CHUNKER);
      assert r.Some? ==> OwnChunks(env, own, "rust", r.value);
    }
  }

  /** A first-format manifest of any workspace, other languages and unindexed files beside the Rust ones,
      migrates whole: no entry is lost, each becomes one of the first chunker. */
  lemma FirstFormatMigrates(env: Env, ws: Workspace, w: World)
    requires LabelsOwnChunks(env)
    ensures var first := FirstFiles(env, w.registry, w.texts);
            Loaded(env, ws, Next(env, ws, w, FirstFormatScan))
            == map path <- first :: CachedFile("rust", FIRST_CHUNKER, first[path].contentHash, first[path].chunks)
  {
    FirstFilesAreOwn(env, w.registry, w.texts);
  }

  lemma StepKeepsSound(env: Env, ws: Workspace, w: World, e: Event)
    requires HashInjective(env) && StoredSound(env, w.stored)
    ensures StoredSound(env, Next(env, ws, w, e).stored)
  {
    match e
    case FirstFormatScan => FirstFilesSound(env, w.registry, w.texts);
    case ScanAndSave =>
      LoadedSound(env, ws, w);
      var fs := Sources(w.registry, w.prose, w.texts);
      ScanFilesSound(env, Loaded(env, ws, w), fs, Started(env, Loaded(env, ws, w), fs));
    case _ =>
  }

  function After(env: Env, ws: Workspace, w: World, es: seq<Event>): World {
    if es == [] then w else Next(env, ws, After(env, ws, w, es[..|es| - 1]), es[|es| - 1])
  }

  lemma {:induction false} RunKeepsSound(env: Env, ws: Workspace, w: World, es: seq<Event>)
    requires HashInjective(env) && StoredSound(env, w.stored)
    ensures StoredSound(env, After(env, ws, w, es).stored)
  {
    if es != [] {
      RunKeepsSound(env, ws, w, es[..|es| - 1]);
      StepKeepsSound(env, ws, After(env, ws, w, es[..|es| - 1]), es[|es| - 1]);
    }
  }

  /** After every history of edits, prose flips, upgrades, first-format manifests, scans, killed scans,
      corruption and loss, the next scan answers the chunks, files and fingerprint of a scan from nothing. */
  lemma {:induction false} AnyHistoryScansFresh(env: Env, ws: Workspace, w: World, es: seq<Event>)
    requires HashInjective(env) && w.stored == NoFile
    ensures var now := After(env, ws, w, es);
            var fs := Sources(now.registry, now.prose, now.texts);
            var r, q := Scanned(env, ws, now), ScanWith(env, map[], fs);
            && (r.Some? <==> q.Some?)
            && (r.Some? ==>
                 && r.value.chunks == q.value.chunks && r.value.files == q.value.files
                 && r.value.fingerprint == q.value.fingerprint
                 && r.value.parsed + r.value.reusedFiles == |fs|)
  {
    RunKeepsSound(env, ws, w, es);
    var now := After(env, ws, w, es);
    LoadedSound(env, ws, now);
    IncrementalEqualsFresh(env, Loaded(env, ws, now), Sources(now.registry, now.prose, now.texts));
  }

  // ---------------------------------------------------------------- the order of a scan's chunks

  ghost predicate InPathLineOrder(cs: seq<Chunk>) {
    forall i, j :: 0 <= i < j < |cs| ==> !PathLineLess(cs[j], cs[i])
  }

  lemma NotLessTransitive(a: Chunk, b: Chunk, c: Chunk)
    requires !PathLineLess(b, a) && !PathLineLess(c, b)
    ensures !PathLineLess(c, a)
  {
    TextLessTotal(a.path, b.path);
    TextLessTotal(b.path, c.path);
    TextLessTotal(a.path, c.path);
    if TextLess(a.path, b.path) && TextLess(b.path, c.path) { TextLessTransitive(a.path, b.path, c.path); }
  }

  lemma {:induction false} InsertChunkKeepsAll(c: Chunk, cs: seq<Chunk>)
    ensures multiset(InsertChunk(c, cs)) == multiset(cs) + multiset{c}
  {
    if cs != [] {
      assert cs == [cs[0]] + cs[1..];
      if !PathLineLess(c, cs[0]) { InsertChunkKeepsAll(c, cs[1..]); }
    }
  }

  lemma {:induction false} InsertChunkSorts(c: Chunk, cs: seq<Chunk>)
    requires InPathLineOrder(cs)
    ensures InPathLineOrder(InsertChunk(c, cs))
  {
    if cs == [] {
    } else if PathLineLess(c, cs[0]) {
      TextLessTotal(c.path, cs[0].path);
      TextLessTotal(cs[0].path, cs[0].path);
      forall j | 0 <= j < |cs|
        ensures !PathLineLess(cs[j], c)
      {
        NotLessTransitive(c, cs[0], cs[j]);
      }
    } else {
      var rest := InsertChunk(c, cs[1..]);
      InsertChunkSorts(c, cs[1..]);
      InsertChunkKeepsAll(c, cs[1..]);
      forall j | 0 <= j < |rest|
        ensures !PathLineLess(rest[j], cs[0])
      {
        assert rest[j] in multiset(rest);
        assert rest[j] in cs[1..] || rest[j] == c;
      }
    }
  }

  /** The chunks of a scan are sorted by path and start line, and none is lost or doubled. */
  lemma {:induction false} SortChunksSorts(cs: seq<Chunk>)
    ensures InPathLineOrder(SortChunks(cs)) && multiset(SortChunks(cs)) == multiset(cs)
  {
    if cs != [] {
      var front := cs[..|cs| - 1];
      SortChunksSorts(front);
      InsertChunkSorts(cs[|cs| - 1], SortChunks(front));
      InsertChunkKeepsAll(cs[|cs| - 1], SortChunks(front));
      assert cs == front + [cs[|cs| - 1]];
    }
  }

  /** The chunks of `cs` with one path and start line, as they come. */
  function Tied(cs: seq<Chunk>, path: string, line: nat): seq<Chunk> {
    if cs == [] then []
    else (if cs[0].path == path && cs[0].startLine == line then [cs[0]] else []) + Tied(cs[1..], path, line)
  }

  lemma {:induction false} TiedSplits(xs: seq<Chunk>, ys: seq<Chunk>, path: string, line: nat)
    ensures Tied(xs + ys, path, line) == Tied(xs, path, line) + Tied(ys, path, line)
    decreases |xs|
  {
    if xs == [] {
      assert xs + ys == ys;
    } else {
      assert (xs + ys)[1..] == xs[1..] + ys;
      TiedSplits(xs[1..], ys, path, line);
    }
  }

  lemma {:induction false} NoneTied(cs: seq<Chunk>, path: string, line: nat)
    requires forall c <- cs :: c.path != path || c.startLine != line
    ensures Tied(cs, path, line) == []
  {
    if cs != [] { NoneTied(cs[1..], path, line); }
  }

  /** An insertion puts a chunk after those it ties with. */
  lemma {:induction false} InsertedAfterTies(c: Chunk, cs: seq<Chunk>, path: string, line: nat)
    requires InPathLineOrder(cs)
    ensures Tied(InsertChunk(c, cs), path, line) == Tied(cs + [c], path, line)
    decreases |cs|
  {
    if cs == [] || PathLineLess(c, cs[0]) {
      if c.path == path && c.startLine == line && cs != [] {
        forall d <- cs
          ensures d.path != path || d.startLine != line
        {
          BehindTheHead(c, cs, d);
        }
        NoneTied(cs, path, line);
      }
      TiedSplits([c], cs, path, line);
      TiedSplits(cs, [c], path, line);
    } else {
      InsertedAfterTies(c, cs[1..], path, line);
      assert (cs + [c])[1..] == cs[1..] + [c];
    }
  }

  lemma BehindTheHead(c: Chunk, cs: seq<Chunk>, d: Chunk)
    requires InPathLineOrder(cs) && cs != [] && PathLineLess(c, cs[0]) && d in cs
    ensures d.path != c.path || d.startLine != c.startLine
  {
    var k :| 0 <= k < |cs| && cs[k] == d;
    TextLessTotal(c.path, cs[0].path);
    TextLessTotal(cs[0].path, cs[0].path);
    if k > 0 { assert !PathLineLess(cs[k], cs[0]); }
  }

  /** The sort is stable: chunks with the same path and start line keep the order they came in. */
  lemma {:induction false} SortChunksStable(cs: seq<Chunk>, path: string, line: nat)
    ensures Tied(SortChunks(cs), path, line) == Tied(cs, path, line)
    decreases |cs|
  {
    if cs != [] {
      var front, last := cs[..|cs| - 1], cs[|cs| - 1];
      assert cs == front + [last];
      SortChunksStable(front, path, line);
      SortChunksSorts(front);
      InsertedAfterTies(last, SortChunks(front), path, line);
      TiedSplits(SortChunks(front), [last], path, line);
      TiedSplits(front, [last], path, line);
    }
  }

  ghost predicate DistinctPaths(fs: seq<SourceFile>) {
    forall i, j :: 0 <= i < j < |fs| ==> fs[i].path != fs[j].path
  }

  /** How many files of `fs` were not in `before` as they are now. */
  function Changed(env: Env, before: seq<SourceFile>, fs: seq<SourceFile>): nat {
    if fs == [] then 0
    else Changed(env, before, fs[1..]) + if KeyOf(env, fs[0]) in Keys(env, before) then 0 else 1
  }

  ghost predicate Caches(env: Env, files: map<string, CachedFile>, fs: seq<SourceFile>) {
    && (forall f <- fs :: f.path in files)
    && (forall path <- files :: exists f <- fs :: f.path == path && CachedAs(env, files, f))
  }

  ghost predicate CachedAs(env: Env, files: map<string, CachedFile>, f: SourceFile) {
    f.path in files && Keyed(f.path, files[f.path].contentHash, files[f.path].language, files[f.path].version) == KeyOf(env, f)
  }

  lemma TookCaches(env: Env, previous: map<string, CachedFile>, fs: seq<SourceFile>, f: SourceFile, cs: seq<Chunk>, s: Scan)
    requires Caches(env, s.files, fs)
    ensures Caches(env, Took(env, previous, f, cs, s).files, fs + [f])
  {
  }

  lemma {:induction false} ScanCaches(env: Env, previous: map<string, CachedFile>, all: seq<SourceFile>, k: nat, s: Scan)
    requires k <= |all| && Caches(env, s.files, all[..k])
    ensures var r := ScanFiles(env, previous, all[k..], s);
            r.Some? ==> Caches(env, r.value.files, all)
    decreases |all| - k
  {
    if k == |all| {
      assert all[..k] == all;
    } else {
      var cs := ChunksFor(env, previous, all[k]);
      assert all[k..][0] == all[k] && all[k..][1..] == all[k + 1..];
      if cs.Some? {
        assert all[..k + 1] == all[..k] + [all[k]];
        TookCaches(env, previous, all[..k], all[k], cs.value, s);
        ScanCaches(env, previous, all, k + 1, Took(env, previous, all[k], cs.value, s));
      }
    }
  }

  lemma UnchangedIsReusable(env: Env, files: map<string, CachedFile>, before: seq<SourceFile>, f: SourceFile, i: nat)
    requires DistinctPaths(before) && Caches(env, files, before)
    requires i < |before| && KeyOf(env, before[i]) == KeyOf(env, f)
    ensures Reusable(env, files, f)
  {
    assert before[i] in before && before[i].path == f.path;
    var g :| g in before && g.path == f.path && CachedAs(env, files, g);
    var j :| 0 <= j < |before| && before[j] == g;
    assert i == j;
  }

  lemma ReusableIsUnchanged(env: Env, files: map<string, CachedFile>, before: seq<SourceFile>, f: SourceFile)
    requires Caches(env, files, before) && Reusable(env, files, f)
    ensures KeyOf(env, f) in Keys(env, before)
  {
    var g :| g in before && g.path == f.path && CachedAs(env, files, g);
    var j :| 0 <= j < |before| && before[j] == g;
    assert Keys(env, before)[j] == KeyOf(env, f);
  }

  lemma ReusableIffUnchanged(env: Env, files: map<string, CachedFile>, before: seq<SourceFile>, f: SourceFile)
    requires DistinctPaths(before) && Caches(env, files, before)
    ensures Reusable(env, files, f) <==> KeyOf(env, f) in Keys(env, before)
  {
    var keys := Keys(env, before);
    if KeyOf(env, f) in keys {
      var i :| 0 <= i < |keys| && keys[i] == KeyOf(env, f);
      UnchangedIsReusable(env, files, before, f, i);
    }
    if Reusable(env, files, f) { ReusableIsUnchanged(env, files, before, f); }
  }

  lemma {:induction false} ParsedCount(
    env: Env, files: map<string, CachedFile>, before: seq<SourceFile>, fs: seq<SourceFile>, s: Scan)
    requires DistinctPaths(before) && Caches(env, files, before)
    ensures var r := ScanFiles(env, files, fs, s);
            r.Some? ==> r.value.parsed == s.parsed + Changed(env, before, fs)
    decreases |fs|
  {
    if fs != [] {
      var f := fs[0];
      ReusableIffUnchanged(env, files, before, f);
      var cs := ChunksFor(env, files, f);
      if cs.Some? {
        var cached := CachedFile(f.adapter.identifier, f.adapter.version, env.hash(f.source), cs.value);
        var reused := Reusable(env, files, f);
        ParsedCount(env, files, before, fs[1..],
          s.(chunks := s.chunks + cs.value, files := s.files[f.path := cached],
             parsed := s.parsed + if reused then 0 else 1, reusedFiles := s.reusedFiles + if reused then 1 else 0));
      }
    }
  }

  /** A scan after a scan parses exactly the files that are new or changed since (another text, another
      language or another adapter version). */
  lemma RescanParsesOnlyChanges(env: Env, previous: map<string, CachedFile>,
    before: seq<SourceFile>, fs: seq<SourceFile>)
    requires DistinctPaths(before)
    ensures var first := ScanWith(env, previous, before);
            first.Some? ==>
              var second := ScanWith(env, first.value.files, fs);
              second.Some? ==> second.value.parsed == Changed(env, before, fs)
  {
    var start := Started(env, previous, before);
    assert before[0..] == before && before[..0] == [];
    ScanCaches(env, previous, before, 0, start);
    var first := ScanWith(env, previous, before);
    if first.Some? {
      ParsedCount(env, first.value.files, before, fs, Started(env, first.value.files, fs));
    }
  }

  // ---------------------------------------------------------------- the fingerprint

  /** Equal fingerprints mean the same paths, texts, languages and adapter versions. */
  lemma FingerprintIdentifiesSources(env: Env, xs: seq<SourceFile>, ys: seq<SourceFile>)
    requires HashInjective(env)
    requires (forall k <- Keys(env, xs) :: Delimited(k)) && (forall k <- Keys(env, ys) :: Delimited(k))
    ensures Fingerprint(env, xs) == Fingerprint(env, ys) <==> Keys(env, xs) == Keys(env, ys)
    ensures Fingerprint(env, xs) == Fingerprint(env, ys) ==>
              |xs| == |ys| && forall i :: 0 <= i < |xs| ==> xs[i].path == ys[i].path && xs[i].source == ys[i].source
  {
    if Fingerprint(env, xs) == Fingerprint(env, ys) {
      MaterialInjective(Keys(env, xs), Keys(env, ys));
      forall i | 0 <= i < |xs|
        ensures xs[i].path == ys[i].path && xs[i].source == ys[i].source
      {
        assert Keys(env, xs)[i] == Keys(env, ys)[i];
      }
    }
  }
}
