/** Node identity: the eight kinds, their canonical strings and the parser of lci-core/src/node.rs. */
module NodeIds {
  import opened Wrappers
  import opened PercentText

  type u32 = n: nat | n < 0x1_0000_0000
  type u16 = n: nat | n < 0x1_0000

  datatype NodeKind =
    | FileKind | ChunkKind | SymKind | CommitKind | TestKind | ConfigKind | DocKind | LiteralKind

  datatype TestRunner = Cargo | Pytest | Jest | Go
  datatype ConfigNamespace = TomlKeys | EnvVars | CargoKeys | RepoFiles
  datatype SymbolKind =
    | Function | Method | Struct | Enum | Union | Trait | Const | Static | TypeAlias | Module | Macro
    | Field | Variable | Interface | Class

  datatype SymbolKey = SymbolKey(
    language: string, modulePath: seq<string>, container: seq<string>, name: string,
    kind: SymbolKind, disambiguator: u16)

  datatype NodeId =
    | File(path: string)
    | ChunkOf(path: string, contentHash: string, ordinal: u32)
    | Symbol(key: SymbolKey)
    | Commit(sha: string)
    | Test(runner: TestRunner, name: string)
    | ConfigKey(namespace: ConfigNamespace, setting: string)
    | DocSection(path: string, headingPath: seq<string>, ordinal: u32)
    | StringLiteral(textHash: string)

  const PATH_SPECIALS: set<char> := {'@', '#', '~'}
  const SEGMENT_SPECIALS: set<char> := {'@', '#', '~', '/', ':'}
  const MODULE_SPECIALS: set<char> := SEGMENT_SPECIALS + {' '}
  const TEXT_SPECIALS: set<char> := {}

  // ---------------------------------------------------------------- names

  function RunnerName(r: TestRunner): string {
    match r case Cargo => "cargo" case Pytest => "pytest" case Jest => "jest" case Go => "go"
  }

  function RunnerNamed(s: string): (r: Option<TestRunner>) {
    match s
    case "cargo" => Some(Cargo)
    case "pytest" => Some(Pytest)
    case "jest" => Some(Jest)
    case "go" => Some(Go)
    case _ => None
  }

  function NamespaceName(n: ConfigNamespace): string {
    match n case TomlKeys => "toml" case EnvVars => "env" case CargoKeys => "cargo" case RepoFiles => "repo"
  }

  function NamespaceNamed(s: string): Option<ConfigNamespace> {
    match s
    case "toml" => Some(TomlKeys)
    case "env" => Some(EnvVars)
    case "cargo" => Some(CargoKeys)
    case "repo" => Some(RepoFiles)
    case _ => None
  }

  function KindName(k: SymbolKind): string {
    match k
    case Function => "fn"
    case Method => "method"
    case Struct => "struct"
    case Enum => "enum"
    case Union => "union"
    case Trait => "trait"
    case Const => "const"
    case Static => "static"
    case TypeAlias => "type"
    case Module => "mod"
    case Macro => "macro"
    case Field => "field"
    case Variable => "variable"
    case Interface => "interface"
    case Class => "class"
  }

  function KindNamed(s: string): Option<SymbolKind> {
    match s
    case "fn" => Some(Function)
    case "method" => Some(Method)
    case "struct" => Some(Struct)
    case "enum" => Some(Enum)
    case "union" => Some(Union)
    case "trait" => Some(Trait)
    case "const" => Some(Const)
    case "static" => Some(Static)
    case "type" => Some(TypeAlias)
    case "mod" => Some(Module)
    case "macro" => Some(Macro)
    case "field" => Some(Field)
    case "variable" => Some(Variable)
    case "interface" => Some(Interface)
    case "class" => Some(Class)
    case _ => None
  }

  // ---------------------------------------------------------------- validity

  predicate BadPath(path: string) {
    path == "" || '\0' in path
  }

  predicate IsHex(s: string, lengths: set<nat>) {
    |s| in lengths && forall c <- s :: '0' <= c <= '9' || 'a' <= c <= 'f'
  }

  predicate Valid(id: NodeId) {
    match id
    case File(path) => !BadPath(path)
    case ChunkOf(path, contentHash, _) => !BadPath(path) && contentHash != ""
    case Symbol(key) =>
      && key.language != "" && key.name != "" && "" !in key.modulePath
      && forall s <- key.container :: ' ' in s
    case Commit(sha) => IsHex(sha, {40, 64})
    case Test(_, name) => name != ""
    case ConfigKey(_, setting) => setting != ""
    case DocSection(path, headingPath, _) => !BadPath(path) && "" !in headingPath
    case StringLiteral(textHash) => IsHex(textHash, {64})
  }

  // ---------------------------------------------------------------- printing

  function EncodeAll(segments: seq<string>, specials: set<char>): (r: seq<string>)
    ensures |r| == |segments|
    ensures forall i :: 0 <= i < |r| ==> r[i] == Encode(segments[i], specials)
  {
    if segments == [] then [] else [Encode(segments[0], specials)] + EncodeAll(segments[1..], specials)
  }

  function Counter(n: nat): string {
    if n > 0 then "~" + Decimal(n) else ""
  }

  function SymbolSegments(key: SymbolKey): seq<string> {
    EncodeAll(key.modulePath, MODULE_SPECIALS) + EncodeAll(key.container, SEGMENT_SPECIALS)
  }

  function SymbolLeaf(key: SymbolKey): string {
    Encode(key.name, MODULE_SPECIALS) + "/" + KindName(key.kind)
  }

  function SymbolPath(key: SymbolKey): string {
    Join(SymbolSegments(key) + [SymbolLeaf(key)], "::")
  }

  function KindOf(id: NodeId): NodeKind {
    match id
    case File(_) => FileKind
    case ChunkOf(_, _, _) => ChunkKind
    case Symbol(_) => SymKind
    case Commit(_) => CommitKind
    case Test(_, _) => TestKind
    case ConfigKey(_, _) => ConfigKind
    case DocSection(_, _, _) => DocKind
    case StringLiteral(_) => LiteralKind
  }

  function Prefix(kind: NodeKind): string {
    match kind
    case FileKind => "file"
    case ChunkKind => "chunk"
    case SymKind => "sym"
    case CommitKind => "commit"
    case TestKind => "test"
    case ConfigKind => "cfg"
    case DocKind => "doc"
    case LiteralKind => "str"
  }

  function Prefixed(prefix: string): Option<NodeKind> {
    match prefix
    case "file" => Some(FileKind)
    case "chunk" => Some(ChunkKind)
    case "sym" => Some(SymKind)
    case "commit" => Some(CommitKind)
    case "test" => Some(TestKind)
    case "cfg" => Some(ConfigKind)
    case "doc" => Some(DocKind)
    case "str" => Some(LiteralKind)
    case _ => None
  }

  /** What follows the prefix and its colon. */
  function Body(id: NodeId): string {
    match id
    case File(path) => Encode(path, PATH_SPECIALS)
    case ChunkOf(path, contentHash, ordinal) =>
      Encode(path, PATH_SPECIALS) + "@" + Encode(contentHash, SEGMENT_SPECIALS) + "#" + Decimal(ordinal)
    case Symbol(key) =>
      Encode(key.language, SEGMENT_SPECIALS) + ":" + (SymbolPath(key) + Counter(key.disambiguator))
    case Commit(sha) => sha
    case Test(runner, name) => RunnerName(runner) + ":" + Encode(name, TEXT_SPECIALS)
    case ConfigKey(namespace, setting) => NamespaceName(namespace) + ":" + Encode(setting, TEXT_SPECIALS)
    case DocSection(path, headingPath, ordinal) =>
      Encode(path, PATH_SPECIALS) + "#" + (Join(EncodeAll(headingPath, SEGMENT_SPECIALS), "/") + Counter(ordinal))
    case StringLiteral(textHash) => textHash
  }

  function Display(id: NodeId): string {
    Prefix(KindOf(id)) + ":" + Body(id)
  }

  // ---------------------------------------------------------------- parsing

  function DecodeAll(segments: seq<string>): Option<seq<string>> {
    if segments == [] then Some([])
    else
      var head :- Decode(segments[0]);
      var tail :- DecodeAll(segments[1..]);
      Some([head] + tail)
  }

  function SplitSegments(value: string, sep: string): Option<seq<string>>
    requires sep != ""
  {
    if value == "" then Some([]) else DecodeAll(Split(value, sep))
  }

  /** A body and the positive number after its last `~`, or the whole text and zero. */
  function SplitCounter(value: string): Option<(string, u32)> {
    match RSplitOnce(value, '~')
    case None => Some((value, 0))
    case Some((body, counter)) =>
      var n :- ParseNat(counter, 0x1_0000_0000);
      if n > 0 then Some((body, n)) else None
  }

  /** How many leading segments hold no raw space: the module path. */
  function LeadingModules(segments: seq<string>): (k: nat)
    ensures k <= |segments|
  {
    if segments == [] || ' ' in segments[0] then 0 else 1 + LeadingModules(segments[1..])
  }

  function ParseChunk(rest: string): Option<NodeId> {
    var (head, ordinal) :- RSplitOnce(rest, '#');
    var (path, contentHash) :- SplitOnce(head, "@");
    var path' :- Decode(path);
    var contentHash' :- Decode(contentHash);
    var ordinal' :- ParseNat(ordinal, 0x1_0000_0000);
    Some(ChunkOf(path', contentHash', ordinal'))
  }

  function ParseSymbolPath(language: string, path: string, disambiguator: u32): Option<NodeId> {
    var segments := Split(path, "::");
    var (name, kind) :- RSplitOnce(segments[|segments| - 1], '/');
    var outer := segments[..|segments| - 1];
    var k := LeadingModules(outer);
    var language' :- Decode(language);
    var modulePath :- DecodeAll(outer[..k]);
    var container :- DecodeAll(outer[k..]);
    var name' :- Decode(name);
    var kind' :- KindNamed(kind);
    if disambiguator < 0x1_0000
    then Some(Symbol(SymbolKey(language', modulePath, container, name', kind', disambiguator)))
    else None
  }

  function ParseSymbol(rest: string): Option<NodeId> {
    var (language, rest) :- SplitOnce(rest, ":");
    var (path, disambiguator) :- SplitCounter(rest);
    ParseSymbolPath(language, path, disambiguator)
  }

  function ParseTest(rest: string): Option<NodeId> {
    var (runner, name) :- SplitOnce(rest, ":");
    var runner' :- RunnerNamed(runner);
    var name' :- Decode(name);
    Some(Test(runner', name'))
  }

  function ParseConfigKey(rest: string): Option<NodeId> {
    var (namespace, setting) :- SplitOnce(rest, ":");
    var namespace' :- NamespaceNamed(namespace);
    var setting' :- Decode(setting);
    Some(ConfigKey(namespace', setting'))
  }

  function ParseDocSection(rest: string): Option<NodeId> {
    var (path, rest) :- SplitOnce(rest, "#");
    var (headings, ordinal) :- SplitCounter(rest);
    var path' :- Decode(path);
    var headingPath :- SplitSegments(headings, "/");
    Some(DocSection(path', headingPath, ordinal))
  }

  function ParseFile(rest: string): Option<NodeId> {
    var path :- Decode(rest);
    Some(File(path))
  }

  function ParseBody(kind: NodeKind, rest: string): Option<NodeId> {
    match kind
    case FileKind => ParseFile(rest)
    case ChunkKind => ParseChunk(rest)
    case SymKind => ParseSymbol(rest)
    case CommitKind => Some(Commit(rest))
    case TestKind => ParseTest(rest)
    case ConfigKind => ParseConfigKey(rest)
    case DocKind => ParseDocSection(rest)
    case LiteralKind => Some(StringLiteral(rest))
  }

  function ParseUnchecked(input: string): Option<NodeId> {
    var (prefix, rest) :- SplitOnce(input, ":");
    var kind :- Prefixed(prefix);
    ParseBody(kind, rest)
  }

  datatype ParseError = Malformed | Invalid | NotCanonical

  function FromStr(input: string): Result<NodeId, ParseError> {
    match ParseUnchecked(input)
    case None => Err(Malformed)
    case Some(id) =>
      if !Valid(id) then Err(Invalid)
      else if Display(id) != input then Err(NotCanonical)
      else Ok(id)
  }
}
