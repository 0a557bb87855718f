/** What ids look like: every field of every kind as it is written, character by character. */
module NodeIdForms {
  import opened Wrappers
  import Utf8
  import opened PercentText
  import opened NodeIds
  import opened NodeIdRoundTrip

  // ---------------------------------------------------------------- bytes and escapes

  /** The table of section 3 of RFC 3629: how many bytes, the lead's range, and the value the bytes stand for. */
  lemma BytesFollowTheTable(c: char)
    ensures var n, bs := c as int, Utf8.Bytes(c);
            if n <= 0x7F then bs == [n]
            else if n <= 0x7FF then
              |bs| == 2 && 0xC0 <= bs[0] <= 0xDF && 0x80 <= bs[1] <= 0xBF && (bs[0] as int - 0xC0) * 0x40 + (bs[1] as int - 0x80) == n
            else if n <= 0xFFFF then
              && |bs| == 3 && 0xE0 <= bs[0] <= 0xEF && 0x80 <= bs[1] <= 0xBF && 0x80 <= bs[2] <= 0xBF
              && (bs[0] as int - 0xE0) * 0x1000 + (bs[1] as int - 0x80) * 0x40 + (bs[2] as int - 0x80) == n
            else
              && |bs| == 4 && 0xF0 <= bs[0] <= 0xF7 && 0x80 <= bs[1] <= 0xBF && 0x80 <= bs[2] <= 0xBF && 0x80 <= bs[3] <= 0xBF
              && (bs[0] as int - 0xF0) * 0x40000 + (bs[1] as int - 0x80) * 0x1000 + (bs[2] as int - 0x80) * 0x40 + (bs[3] as int - 0x80) == n
  {
    Utf8.LeadDigits(c as int);
  }

  ghost predicate Control(c: char) {
    c as int <= 0x1F || 0x7F <= c as int <= 0x9F
  }

  /** A character is written as it is unless it is a percent sign, a control character or one of `specials`. */
  lemma CharactersAsWritten(c: char, specials: set<char>)
    ensures c != '%' && !Control(c) && c !in specials ==> EncodeChar(c, specials) == [c]
    ensures c == '%' || Control(c) || c in specials ==> EncodeChar(c, specials) == EscapeBytes(Utf8.Bytes(c))
  {
  }

  /** A byte is escaped as a percent sign and its two digits in base 16, letters upper case. */
  lemma {:induction false} EscapesAsWritten(bs: seq<Utf8.byte>, k: nat)
    requires k < |bs|
    ensures |EscapeBytes(bs)| == 3 * |bs|
    ensures var digits := "0123456789ABCDEF";
            EscapeBytes(bs)[3 * k..3 * k + 3] == ['%', digits[bs[k] / 16], digits[bs[k] % 16]]
    decreases |bs|
  {
    if |bs| > 1 { EscapesAsWritten(bs[1..], if k > 0 then k - 1 else 0); }
    if k > 0 {
      var rest := EscapeBytes(bs[1..]);
      assert EscapeBytes(bs)[3 * k..3 * k + 3] == rest[3 * (k - 1)..3 * (k - 1) + 3];
    }
  }

  lemma {:induction false} EncodeByCharacter(xs: string, ys: string, specials: set<char>)
    ensures Encode(xs + ys, specials) == Encode(xs, specials) + Encode(ys, specials)
  {
    if xs == "" {
      assert xs + ys == ys;
    } else {
      assert (xs + ys)[1..] == xs[1..] + ys;
      EncodeByCharacter(xs[1..], ys, specials);
    }
  }

  lemma {:induction false} PlainAsWritten(value: string, specials: set<char>)
    requires forall c <- value :: c != '%' && !Control(c) && c !in specials
    ensures Encode(value, specials) == value
  {
    if value != "" {
      assert value[0] in value && forall c <- value[1..] :: c in value;
      PlainAsWritten(value[1..], specials);
      CharactersAsWritten(value[0], specials);
      assert value == [value[0]] + value[1..];
    }
  }

  ghost predicate UpperHex(c: char) {
    '0' <= c <= '9' || 'A' <= c <= 'F'
  }

  /** No control character, and each percent sign followed by two digits in base 16. */
  ghost predicate Clean(s: string) {
    && (forall c <- s :: !Control(c))
    && (forall i :: 0 <= i < |s| && s[i] == '%' ==> i + 2 < |s| && UpperHex(s[i + 1]) && UpperHex(s[i + 2]))
  }

  lemma CleanParts(s: string, t: string)
    requires Clean(s) && Clean(t)
    ensures Clean(s + t)
  {
    var st := s + t;
    forall i | 0 <= i < |st| && st[i] == '%'
      ensures i + 2 < |st| && UpperHex(st[i + 1]) && UpperHex(st[i + 2])
    {
      if i < |s| { assert st[i + 1] == s[i + 1] && st[i + 2] == s[i + 2]; }
    }
  }

  lemma {:induction false} EscapesAreClean(bs: seq<Utf8.byte>)
    ensures Clean(EscapeBytes(bs))
  {
    if bs != [] {
      EscapesAreClean(bs[1..]);
      CleanParts(['%', Hex(bs[0] / 16), Hex(bs[0] % 16)], EscapeBytes(bs[1..]));
    }
  }

  lemma {:induction false} EncodedIsClean(value: string, specials: set<char>)
    ensures Clean(Encode(value, specials))
  {
    if value != "" {
      EscapesAreClean(Utf8.Bytes(value[0]));
      EncodedIsClean(value[1..], specials);
      CleanParts(EncodeChar(value[0], specials), Encode(value[1..], specials));
    }
  }

  // ---------------------------------------------------------------- the fields of each kind

  lemma SpecialsAsWritten()
    ensures PATH_SPECIALS == {'@', '#', '~'} && SEGMENT_SPECIALS == {'@', '#', '~', '/', ':'}
    ensures MODULE_SPECIALS == {'@', '#', '~', '/', ':', ' '} && TEXT_SPECIALS == {}
  {
  }

  lemma PrefixesAsWritten(kind: NodeKind)
    ensures Prefix(kind) + ":" ==
              match kind
              case FileKind => "file:" case ChunkKind => "chunk:" case SymKind => "sym:" case CommitKind => "commit:"
              case TestKind => "test:" case ConfigKind => "cfg:" case DocKind => "doc:" case LiteralKind => "str:"
  {
  }

  /** A slash stays in a path. */
  lemma FilesAsEscaped(path: string)
    ensures Display(File(path)) == "file:" + Encode(path, {'@', '#', '~'})
  {
    SpecialsAsWritten();
    PrefixesAsWritten(FileKind);
  }

  lemma ChunksAsEscaped(path: string, contentHash: string, ordinal: u32)
    ensures Display(ChunkOf(path, contentHash, ordinal))
         == "chunk:" + (Encode(path, {'@', '#', '~'}) + "@" + Encode(contentHash, {'@', '#', '~', '/', ':'})
                        + "#" + Decimal(ordinal))
  {
    SpecialsAsWritten();
    PrefixesAsWritten(ChunkKind);
  }

  lemma HashesAsWritten(s: string)
    ensures Display(Commit(s)) == "commit:" + s && Display(StringLiteral(s)) == "str:" + s
  {
  }

  lemma TestsAsEscaped(runner: TestRunner, name: string)
    ensures Display(Test(runner, name))
         == "test:" + ((match runner case Cargo => "cargo" case Pytest => "pytest" case Jest => "jest" case Go => "go")
                       + ":" + Encode(name, {}))
  {
  }

  lemma KeysAsEscaped(namespace: ConfigNamespace, setting: string)
    ensures Display(ConfigKey(namespace, setting))
         == "cfg:" + ((match namespace
                       case TomlKeys => "toml" case EnvVars => "env" case CargoKeys => "cargo" case RepoFiles => "repo")
                      + ":" + Encode(setting, {}))
  {
  }

  ghost function EachEscaped(segments: seq<string>, specials: set<char>): seq<string> {
    seq(|segments|, i requires 0 <= i < |segments| => Encode(segments[i], specials))
  }

  ghost function Numbered(n: nat): string {
    if n == 0 then "" else "~" + Decimal(n)
  }

  lemma SectionsAsEscaped(path: string, headings: seq<string>, ordinal: u32)
    ensures Display(DocSection(path, headings, ordinal))
         == "doc:" + (Encode(path, {'@', '#', '~'}) + "#"
                      + (Join(EachEscaped(headings, {'@', '#', '~', '/', ':'}), "/") + Numbered(ordinal)))
  {
    SpecialsAsWritten();
    PrefixesAsWritten(DocKind);
    assert Counter(ordinal) == Numbered(ordinal);
    assert EncodeAll(headings, SEGMENT_SPECIALS) == EachEscaped(headings, SEGMENT_SPECIALS);
  }

  lemma KindsAsWritten(kind: SymbolKind)
    ensures KindName(kind) ==
              match kind
              case Function => "fn" case Method => "method" case Struct => "struct" case Enum => "enum"
              case Union => "union" case Trait => "trait" case Const => "const" case Static => "static"
              case TypeAlias => "type" case Module => "mod" case Macro => "macro" case Field => "field"
              case Variable => "variable" case Interface => "interface" case Class => "class"
  {
  }

  lemma SymbolsAsEscaped(key: SymbolKey)
    ensures Display(Symbol(key)) == "sym:" + (Encode(key.language, {'@', '#', '~', '/', ':'}) + ":"
              + (Join(EachEscaped(key.modulePath, {'@', '#', '~', '/', ':', ' '})
                      + EachEscaped(key.container, {'@', '#', '~', '/', ':'})
                      + [Encode(key.name, {'@', '#', '~', '/', ':', ' '}) + "/" + KindName(key.kind)], "::")
                 + Numbered(key.disambiguator)))
  {
    SpecialsAsWritten();
    PrefixesAsWritten(SymKind);
    assert Counter(key.disambiguator) == Numbered(key.disambiguator);
    assert EncodeAll(key.modulePath, MODULE_SPECIALS) == EachEscaped(key.modulePath, MODULE_SPECIALS);
    assert EncodeAll(key.container, SEGMENT_SPECIALS) == EachEscaped(key.container, SEGMENT_SPECIALS);
  }

  /** Texts joined by a separator: the first, then the separator and the next, and so on. */
  lemma JoinedAsWritten(first: string, rest: seq<string>, sep: string)
    ensures Join([], sep) == "" && Join([first], sep) == first
    ensures rest != [] ==> Join([first] + rest, sep) == first + (sep + Join(rest, sep))
  {
    assert ([first] + rest)[1..] == rest;
  }

  /** Decimal digits, highest first, no leading zero. */
  lemma DecimalAsWritten(n: nat)
    ensures n < 10 ==> Decimal(n) == ["0123456789"[n]]
    ensures n >= 10 ==> Decimal(n) == Decimal(n / 10) + Decimal(n % 10)
  {
  }

  // ---------------------------------------------------------------- plain ids, read and written

  ghost predicate Plain(s: string, specials: set<char>) {
    forall c <- s :: c != '%' && !Control(c) && c !in specials
  }

  /** An ordinary path stands in its id as it is, and any nonempty one is accepted. */
  lemma PlainFiles(path: string)
    requires Plain(path, {'@', '#', '~'})
    ensures Display(File(path)) == "file:" + path
    ensures FromStr("file:" + path) == if path == "" then Err(Invalid) else Ok(File(path))
  {
    FilesAsEscaped(path);
    PlainAsWritten(path, {'@', '#', '~'});
    ParsesBackExactly(File(path));
    assert '\0' !in path;
  }

  lemma PlainChunks(path: string, contentHash: string, ordinal: u32)
    requires Plain(path, {'@', '#', '~'}) && Plain(contentHash, {'@', '#', '~', '/', ':'})
    ensures Display(ChunkOf(path, contentHash, ordinal)) == "chunk:" + (path + "@" + contentHash + "#" + Decimal(ordinal))
  {
    ChunksAsEscaped(path, contentHash, ordinal);
    PlainAsWritten(path, {'@', '#', '~'});
    PlainAsWritten(contentHash, {'@', '#', '~', '/', ':'});
  }

  /** Test names and configuration keys keep every character but percent signs and control characters. */
  lemma PlainTexts(text: string, runner: TestRunner, namespace: ConfigNamespace)
    requires Plain(text, {})
    ensures Display(Test(runner, text)) == "test:" + (RunnerName(runner) + ":" + text)
    ensures Display(ConfigKey(namespace, text)) == "cfg:" + (NamespaceName(namespace) + ":" + text)
  {
    TestsAsEscaped(runner, text);
    KeysAsEscaped(namespace, text);
    PlainAsWritten(text, {});
  }

  lemma {:induction false} PlainSegments(segments: seq<string>, specials: set<char>)
    requires forall s <- segments :: Plain(s, specials)
    ensures EachEscaped(segments, specials) == segments
  {
    forall i | 0 <= i < |segments|
      ensures Encode(segments[i], specials) == segments[i]
    {
      assert segments[i] in segments;
      PlainAsWritten(segments[i], specials);
    }
  }

  lemma PlainSections(path: string, headings: seq<string>, ordinal: u32)
    requires Plain(path, {'@', '#', '~'}) && forall s <- headings :: Plain(s, {'@', '#', '~', '/', ':'})
    ensures Display(DocSection(path, headings, ordinal)) == "doc:" + (path + "#" + (Join(headings, "/") + Numbered(ordinal)))
  {
    SectionsAsEscaped(path, headings, ordinal);
    PlainAsWritten(path, {'@', '#', '~'});
    PlainSegments(headings, {'@', '#', '~', '/', ':'});
  }

  /** A container segment keeps its spaces; module segments and names have none to keep. */
  lemma PlainSymbols(key: SymbolKey)
    requires Plain(key.language, {'@', '#', '~', '/', ':'}) && Plain(key.name, {'@', '#', '~', '/', ':', ' '})
    requires forall s <- key.modulePath :: Plain(s, {'@', '#', '~', '/', ':', ' '})
    requires forall s <- key.container :: Plain(s, {'@', '#', '~', '/', ':'})
    ensures Display(Symbol(key)) == "sym:" + (key.language + ":"
              + (Join(key.modulePath + key.container + [key.name + "/" + KindName(key.kind)], "::") + Numbered(key.disambiguator)))
  {
    SymbolsAsEscaped(key);
    PlainAsWritten(key.language, {'@', '#', '~', '/', ':'});
    PlainAsWritten(key.name, {'@', '#', '~', '/', ':', ' '});
    PlainSegments(key.modulePath, {'@', '#', '~', '/', ':', ' '});
    PlainSegments(key.container, {'@', '#', '~', '/', ':'});
  }

  // ---------------------------------------------------------------- which ids are valid

  ghost predicate LowerHex(s: string) {
    forall c <- s :: '0' <= c <= '9' || 'a' <= c <= 'f'
  }

  /** A commit id of either length is accepted, and nothing else after that prefix; a literal hash has 64 digits. */
  lemma HashesAccepted(s: string)
    ensures FromStr("commit:" + s).Ok? <==> (|s| == 40 || |s| == 64) && LowerHex(s)
    ensures FromStr("str:" + s).Ok? <==> |s| == 64 && LowerHex(s)
  {
    ParsesBackExactly(Commit(s));
    ParsesBackExactly(StringLiteral(s));
    HashesAsWritten(s);
  }

  /** No path is empty or holds a NUL; no hash, name, key, module or heading is empty; every container segment
      holds a space. Nothing else is refused. */
  lemma ValidFields(id: NodeId)
    ensures id.File? ==> (Valid(id) <==> id.path != "" && '\0' !in id.path)
    ensures id.ChunkOf? ==> (Valid(id) <==> id.path != "" && '\0' !in id.path && id.contentHash != "")
    ensures id.Test? ==> (Valid(id) <==> id.name != "")
    ensures id.ConfigKey? ==> (Valid(id) <==> id.setting != "")
    ensures id.DocSection? ==> (Valid(id) <==> id.path != "" && '\0' !in id.path && "" !in id.headingPath)
    ensures id.Symbol? ==>
              (Valid(id) <==> id.key.language != "" && id.key.name != "" && "" !in id.key.modulePath
                              && forall s <- id.key.container :: ' ' in s)
  {
  }
}
