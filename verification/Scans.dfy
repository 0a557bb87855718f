/** The incremental scan of lci-core/src/chunk.rs and the manifest of lci-core/src/manifest.rs that
    feeds it. */
module Scans {
  import opened Wrappers
  import opened Chunks
  import opened Fingerprints
  import opened TextOrder

  const VERSION: nat := 2
  const FIRST_CHUNKER := "rust-chunks-v1"

  datatype LanguageAdapter = LanguageAdapter(identifier: string, version: string, prose: bool)

  /** What the scanner is built from: the hash, and the chunks one adapter version cuts a text into
      (`None` when parsing fails). */
  datatype Env = Env(
    hash: string -> string,
    parse: (string, string, string, string) -> Option<seq<Chunk>>)

  datatype SourceFile = SourceFile(path: string, source: string, adapter: LanguageAdapter)

  datatype CachedFile = CachedFile(language: string, version: string, contentHash: string, chunks: seq<Chunk>)

  datatype Scan = Scan(
    chunks: seq<Chunk>, files: map<string, CachedFile>, fingerprint: string,
    parsed: nat, reusedFiles: nat, removed: nat)

  function KeyOf(env: Env, f: SourceFile): Keyed {
    Keyed(f.path, env.hash(f.source), f.adapter.identifier, f.adapter.version)
  }

  predicate Reusable(env: Env, previous: map<string, CachedFile>, f: SourceFile) {
    && f.path in previous
    && previous[f.path].contentHash == env.hash(f.source)
    && previous[f.path].language == f.adapter.identifier
    && previous[f.path].version == f.adapter.version
  }

  function ChunksFor(env: Env, previous: map<string, CachedFile>, f: SourceFile): Option<seq<Chunk>> {
    if Reusable(env, previous, f) then Some(previous[f.path].chunks)
    else env.parse(f.path, f.source, f.adapter.identifier, f.adapter.version)
  }

  /** The scan with one more file, of chunks `cs`. */
  function Took(env: Env, previous: map<string, CachedFile>, f: SourceFile, cs: seq<Chunk>, s: Scan): Scan {
    var cached := CachedFile(f.adapter.identifier, f.adapter.version, env.hash(f.source), cs);
    var reused := Reusable(env, previous, f);
    s.(chunks := s.chunks + cs, files := s.files[f.path := cached],
       parsed := s.parsed + if reused then 0 else 1, reusedFiles := s.reusedFiles + if reused then 1 else 0)
  }

  function ScanFiles(env: Env, previous: map<string, CachedFile>, fs: seq<SourceFile>, s: Scan): Option<Scan>
    decreases |fs|
  {
    if fs == [] then Some(s)
    else
      var cs :- ChunksFor(env, previous, fs[0]);
      ScanFiles(env, previous, fs[1..], Took(env, previous, fs[0], cs, s))
  }

  predicate PathLineLess(a: Chunk, b: Chunk) {
    TextLess(a.path, b.path) || (a.path == b.path && a.startLine < b.startLine)
  }

  function InsertChunk(c: Chunk, cs: seq<Chunk>): seq<Chunk> {
    if cs == [] || PathLineLess(c, cs[0]) then [c] + cs else [cs[0]] + InsertChunk(c, cs[1..])
  }

  /** The stable sort by path and start line. */
  function SortChunks(cs: seq<Chunk>): seq<Chunk> {
    if cs == [] then [] else InsertChunk(cs[|cs| - 1], SortChunks(cs[..|cs| - 1]))
  }

  function Removed(previous: map<string, CachedFile>, fs: seq<SourceFile>): set<string> {
    set path <- previous | forall f <- fs :: f.path != path
  }

  function Keys(env: Env, fs: seq<SourceFile>): seq<Keyed> {
    seq(|fs|, i requires 0 <= i < |fs| => KeyOf(env, fs[i]))
  }

  function Fingerprint(env: Env, fs: seq<SourceFile>): string {
    env.hash(MaterialOf(Keys(env, fs)))
  }

  function Started(env: Env, previous: map<string, CachedFile>, fs: seq<SourceFile>): Scan {
    Scan([], map[], Fingerprint(env, fs), 0, 0, |Removed(previous, fs)|)
  }

  function ScanWith(env: Env, previous: map<string, CachedFile>, fs: seq<SourceFile>): Option<Scan> {
    var s :- ScanFiles(env, previous, fs, Started(env, previous, fs));
    Some(s.(chunks := SortChunks(s.chunks)))
  }

  /** The workspace fingerprint. */
  method FingerprintWith(env: Env, sources: seq<SourceFile>) returns (fingerprint: string)
    ensures fingerprint == Fingerprint(env, sources)
  {
    var material := "";
    var keys := Keys(env, sources);
    for i := 0 to |sources|
      invariant material + MaterialOf(keys[i..]) == MaterialOf(keys)
    {
      assert keys[i..][1..] == keys[i + 1..];
      material := material + Material(KeyOf(env, sources[i]));
    }
    assert keys[|sources|..] == [] && material + "" == material;
    fingerprint := env.hash(material);
  }

  /** The scan, reusing the entries of `previous` whose file is unchanged. */
  method ScanIncremental(env: Env, previous: map<string, CachedFile>, sources: seq<SourceFile>)
    returns (r: Option<Scan>)
    ensures r == ScanWith(env, previous, sources)
  {
    var present := set f <- sources :: f.path;
    var removed := previous.Keys - present;
    assert removed == Removed(previous, sources);
    var fingerprint := FingerprintWith(env, sources);
    var s := Scan([], map[], fingerprint, 0, 0, |removed|);
    ghost var goal := ScanFiles(env, previous, sources, s);
    for i := 0 to |sources|
      invariant goal == ScanFiles(env, previous, sources[i..], s)
    {
      var f := sources[i];
      assert sources[i..][0] == f && sources[i..][1..] == sources[i + 1..];
      var fileChunks: seq<Chunk>;
      if Reusable(env, previous, f) {
        s := s.(reusedFiles := s.reusedFiles + 1);
        fileChunks := previous[f.path].chunks;
      } else {
        var cut := env.parse(f.path, f.source, f.adapter.identifier, f.adapter.version);
        if cut.None? { return None; }
        s := s.(parsed := s.parsed + 1);
        fileChunks := cut.value;
      }
      var cached := CachedFile(f.adapter.identifier, f.adapter.version, env.hash(f.source), fileChunks);
      s := s.(chunks := s.chunks + fileChunks, files := s.files[f.path := cached]);
    }
    r := Some(s.(chunks := SortChunks(s.chunks)));
  }

  // ---------------------------------------------------------------- the manifest

  datatype Workspace = Workspace(id: string, path: string)

  datatype Manifest = Manifest(
    version: nat, workspaceId: string, workspacePath: string, fingerprint: string, files: map<string, CachedFile>)

  datatype CachedFileV1 = CachedFileV1(contentHash: string, chunks: seq<Chunk>)

  datatype ManifestV1 = ManifestV1(
    version: nat, chunkerVersion: string, workspaceId: string, workspacePath: string, fingerprint: string,
    files: map<string, CachedFileV1>)

  /** The manifest file: absent, a current manifest, one of the first format, or unparsable. */
  datatype Stored = NoFile | Current(m: Manifest) | First(v1: ManifestV1) | Junk

  /** The adapter of each path's extension. */
  type Registry = string -> Option<LanguageAdapter>

  function Empty(ws: Workspace): Manifest {
    Manifest(VERSION, ws.id, ws.path, "", map[])
  }

  predicate OwnChunks(env: Env, path: string, language: string, chunks: seq<Chunk>) {
    forall c <- chunks :: c.path == path && c.language == language && c.contentHash == env.hash(c.code)
  }

  predicate Compatible(env: Env, registry: Registry, ws: Workspace, m: Manifest) {
    && m.version == VERSION && m.workspaceId == ws.id && m.workspacePath == ws.path
    && forall path <- m.files ::
         && registry(path).Some? && m.files[path].language == registry(path).value.identifier
         && OwnChunks(env, path, m.files[path].language, m.files[path].chunks)
  }

  function Migrate(env: Env, registry: Registry, ws: Workspace, m: ManifestV1): Option<Manifest> {
    if || m.version != 1 || m.chunkerVersion != FIRST_CHUNKER
       || m.workspaceId != ws.id || m.workspacePath != ws.path
       || (exists path <- m.files ::
             || registry(path).None? || registry(path).value.identifier != "rust"
             || !OwnChunks(env, path, "rust", m.files[path].chunks))
    then None
    else
      Some(Manifest(VERSION, m.workspaceId, m.workspacePath, m.fingerprint,
        map path <- m.files ::
          CachedFile("rust", FIRST_CHUNKER, m.files[path].contentHash, m.files[path].chunks)))
  }

  function Load(env: Env, registry: Registry, ws: Workspace, stored: Stored): Manifest {
    match stored
    case NoFile => Empty(ws)
    case Current(m) => if Compatible(env, registry, ws, m) then m else Empty(ws)
    case First(v1) => (match Migrate(env, registry, ws, v1) case Some(m) => m case None => Empty(ws))
    case Junk => Empty(ws)
  }
}
