/** Parsing undoes printing: the canonical string is the identity. */
module NodeIdRoundTrip {
  import opened Wrappers
  import opened PercentText
  import opened NodeIds

  lemma KindNames(k: SymbolKind)
    ensures KindNamed(KindName(k)) == Some(k)
    ensures forall c <- KindName(k) :: !Separator(c)
  {
  }

  lemma PrefixNames(k: NodeKind)
    ensures Prefixed(Prefix(k)) == Some(k) && ':' !in Prefix(k)
  {
  }

  lemma RunnerNames(r: TestRunner)
    ensures RunnerNamed(RunnerName(r)) == Some(r) && ':' !in RunnerName(r)
  {
  }

  lemma NamespaceNames(n: ConfigNamespace)
    ensures NamespaceNamed(NamespaceName(n)) == Some(n) && ':' !in NamespaceName(n)
  {
  }

  lemma {:induction false} DecodeEncodeAll(segments: seq<string>, specials: set<char>)
    ensures DecodeAll(EncodeAll(segments, specials)) == Some(segments)
  {
    if segments != [] {
      DecodeEncode(segments[0], specials);
      DecodeEncodeAll(segments[1..], specials);
      assert EncodeAll(segments, specials)[1..] == EncodeAll(segments[1..], specials);
      assert [segments[0]] + segments[1..] == segments;
    }
  }

  lemma CounterSplits(body: string, n: u32)
    requires '~' !in body
    ensures SplitCounter(body + Counter(n)) == Some((body, n))
  {
    if n > 0 {
      ParseDecimal(n, 0x1_0000_0000);
      assert '~' !in Decimal(n);
      assert body + Counter(n) == body + ['~'] + Decimal(n);
      RSplitOnceAt(body, '~', Decimal(n));
    } else {
      assert body + Counter(n) == body;
      RSplitOnceNone(body, '~');
    }
  }

  lemma ChunkParses(id: NodeId)
    requires id.ChunkOf?
    ensures ParseBody(KindOf(id), Body(id)) == Some(id)
  {
    var path, contentHash := Encode(id.path, PATH_SPECIALS), Encode(id.contentHash, SEGMENT_SPECIALS);
    SeparatorInEncoded(id.path, PATH_SPECIALS, '@');
    ParseDecimal(id.ordinal, 0x1_0000_0000);
    assert '#' !in Decimal(id.ordinal);
    var head := path + "@" + contentHash;
    assert Body(id) == head + ['#'] + Decimal(id.ordinal);
    RSplitOnceAt(head, '#', Decimal(id.ordinal));
    SplitOnceAt(path, "@", contentHash);
    DecodeEncode(id.path, PATH_SPECIALS);
    DecodeEncode(id.contentHash, SEGMENT_SPECIALS);
  }

  lemma TestParses(id: NodeId)
    requires id.Test?
    ensures ParseBody(KindOf(id), Body(id)) == Some(id)
  {
    RunnerNames(id.runner);
    SplitOnceAt(RunnerName(id.runner), ":", Encode(id.name, TEXT_SPECIALS));
    DecodeEncode(id.name, TEXT_SPECIALS);
  }

  lemma ConfigKeyParses(id: NodeId)
    requires id.ConfigKey?
    ensures ParseBody(KindOf(id), Body(id)) == Some(id)
  {
    NamespaceNames(id.namespace);
    SplitOnceAt(NamespaceName(id.namespace), ":", Encode(id.setting, TEXT_SPECIALS));
    DecodeEncode(id.setting, TEXT_SPECIALS);
  }

  lemma EncodedSegmentsAvoid(segments: seq<string>, specials: set<char>, c: char)
    requires Separator(c) && c in specials
    ensures forall s <- EncodeAll(segments, specials) :: c !in s
  {
    var encoded := EncodeAll(segments, specials);
    forall s <- encoded
      ensures c !in s
    {
      var i :| 0 <= i < |encoded| && encoded[i] == s;
      SeparatorInEncoded(segments[i], specials, c);
    }
  }

  lemma {:induction false} HeadingsParse(headings: seq<string>)
    ensures headings != [""] ==>
              SplitSegments(Join(EncodeAll(headings, SEGMENT_SPECIALS), "/"), "/") == Some(headings)
    ensures '~' !in Join(EncodeAll(headings, SEGMENT_SPECIALS), "/")
  {
    var encoded := EncodeAll(headings, SEGMENT_SPECIALS);
    EncodedSegmentsAvoid(headings, SEGMENT_SPECIALS, '~');
    AbsentFromJoin(encoded, "/", '~');
    if headings == [] {
    } else if headings != [""] {
      EncodedSegmentsAvoid(headings, SEGMENT_SPECIALS, '/');
      if |headings| == 1 { EncodedEmpty(headings[0], SEGMENT_SPECIALS); }
      assert Join(encoded, "/") != "";
      SplitJoin(encoded, "/");
      DecodeEncodeAll(headings, SEGMENT_SPECIALS);
    }
  }

  lemma DocSectionParses(id: NodeId)
    requires id.DocSection? && id.headingPath != [""]
    ensures ParseBody(KindOf(id), Body(id)) == Some(id)
  {
    var path := Encode(id.path, PATH_SPECIALS);
    var headings := Join(EncodeAll(id.headingPath, SEGMENT_SPECIALS), "/");
    SeparatorInEncoded(id.path, PATH_SPECIALS, '#');
    SplitOnceAt(path, "#", headings + Counter(id.ordinal));
    HeadingsParse(id.headingPath);
    CounterSplits(headings, id.ordinal);
    DecodeEncode(id.path, PATH_SPECIALS);
  }

  // ---------------------------------------------------------------- symbols

  /** Printing a key loses where its module path ends unless its first container segment holds a space. */
  predicate ModulesEndVisibly(key: SymbolKey) {
    key.container == [] || ' ' in key.container[0]
  }

  lemma {:induction false} LeadingModulesAt(modules: seq<string>, rest: seq<string>)
    requires forall s <- modules :: ' ' !in s
    requires rest == [] || ' ' in rest[0]
    ensures LeadingModules(modules + rest) == |modules|
  {
    if modules == [] {
      assert modules + rest == rest;
    } else {
      assert (modules + rest)[1..] == modules[1..] + rest;
      LeadingModulesAt(modules[1..], rest);
    }
  }

  lemma SymbolPartsAvoid(key: SymbolKey, c: char)
    requires c == '~' || c == ':'
    ensures forall s <- SymbolSegments(key) + [SymbolLeaf(key)] :: c !in s
  {
    EncodedSegmentsAvoid(key.modulePath, MODULE_SPECIALS, c);
    EncodedSegmentsAvoid(key.container, SEGMENT_SPECIALS, c);
    SeparatorInEncoded(key.name, MODULE_SPECIALS, c);
    KindNames(key.kind);
  }

  lemma SymbolPathSplits(key: SymbolKey)
    ensures Split(SymbolPath(key), "::") == SymbolSegments(key) + [SymbolLeaf(key)]
    ensures RSplitOnce(SymbolLeaf(key), '/') == Some((Encode(key.name, MODULE_SPECIALS), KindName(key.kind)))
  {
    SymbolPartsAvoid(key, ':');
    SplitJoin(SymbolSegments(key) + [SymbolLeaf(key)], "::");
    KindNames(key.kind);
    RSplitOnceAt(Encode(key.name, MODULE_SPECIALS), '/', KindName(key.kind));
  }

  lemma SymbolModulesEnd(key: SymbolKey)
    requires ModulesEndVisibly(key)
    ensures var outer := SymbolSegments(key);
            && LeadingModules(outer) == |key.modulePath|
            && outer[..|key.modulePath|] == EncodeAll(key.modulePath, MODULE_SPECIALS)
            && outer[|key.modulePath|..] == EncodeAll(key.container, SEGMENT_SPECIALS)
  {
    var modules, container := EncodeAll(key.modulePath, MODULE_SPECIALS), EncodeAll(key.container, SEGMENT_SPECIALS);
    EncodedSegmentsAvoid(key.modulePath, MODULE_SPECIALS, ' ');
    if container != [] { SeparatorInEncoded(key.container[0], SEGMENT_SPECIALS, ' '); }
    LeadingModulesAt(modules, container);
  }

  lemma SymbolPathParses(key: SymbolKey)
    requires ModulesEndVisibly(key)
    ensures ParseSymbolPath(Encode(key.language, SEGMENT_SPECIALS), SymbolPath(key), key.disambiguator)
         == Some(Symbol(key))
  {
    var segments := SymbolSegments(key) + [SymbolLeaf(key)];
    SymbolPathSplits(key);
    SymbolModulesEnd(key);
    assert segments[..|segments| - 1] == SymbolSegments(key);
    KindNames(key.kind);
    DecodeEncode(key.language, SEGMENT_SPECIALS);
    DecodeEncode(key.name, MODULE_SPECIALS);
    DecodeEncodeAll(key.modulePath, MODULE_SPECIALS);
    DecodeEncodeAll(key.container, SEGMENT_SPECIALS);
  }

  lemma SymbolBodySplits(key: SymbolKey)
    ensures var language, path := Encode(key.language, SEGMENT_SPECIALS), SymbolPath(key);
            && SplitOnce(language + ":" + (path + Counter(key.disambiguator)), ":")
               == Some((language, path + Counter(key.disambiguator)))
            && SplitCounter(path + Counter(key.disambiguator)) == Some((path, key.disambiguator))
  {
    SeparatorInEncoded(key.language, SEGMENT_SPECIALS, ':');
    SplitOnceAt(Encode(key.language, SEGMENT_SPECIALS), ":", SymbolPath(key) + Counter(key.disambiguator));
    SymbolPartsAvoid(key, '~');
    AbsentFromJoin(SymbolSegments(key) + [SymbolLeaf(key)], "::", '~');
    CounterSplits(SymbolPath(key), key.disambiguator);
  }

  lemma SymbolParses(id: NodeId)
    requires id.Symbol? && ModulesEndVisibly(id.key)
    ensures ParseBody(KindOf(id), Body(id)) == Some(id)
  {
    SymbolBodySplits(id.key);
    SymbolPathParses(id.key);
  }

  // ---------------------------------------------------------------- main results

  predicate Separable(id: NodeId) {
    && (id.DocSection? ==> id.headingPath != [""])
    && (id.Symbol? ==> ModulesEndVisibly(id.key))
  }

  lemma FileParses(id: NodeId)
    requires id.File?
    ensures ParseBody(KindOf(id), Body(id)) == Some(id)
  {
    DecodeEncode(id.path, PATH_SPECIALS);
  }

  lemma BodyParses(id: NodeId)
    requires Separable(id)
    ensures ParseBody(KindOf(id), Body(id)) == Some(id)
  {
    match id
    case File(_) => FileParses(id);
    case ChunkOf(_, _, _) => ChunkParses(id);
    case Symbol(_) => SymbolParses(id);
    case Commit(_) =>
    case Test(_, _) => TestParses(id);
    case ConfigKey(_, _) => ConfigKeyParses(id);
    case DocSection(_, _, _) => DocSectionParses(id);
    case StringLiteral(_) =>
  }

  lemma ParsesBack(id: NodeId)
    requires Separable(id)
    ensures ParseUnchecked(Display(id)) == Some(id)
  {
    PrefixNames(KindOf(id));
    SplitOnceAt(Prefix(KindOf(id)), ":", Body(id));
    BodyParses(id);
  }

  lemma {:induction false} EncodeAllAppend(xs: seq<string>, s: string, specials: set<char>)
    ensures EncodeAll(xs + [s], specials) == EncodeAll(xs, specials) + [Encode(s, specials)]
  {
  }

  lemma NoSpaceEncodesAlike(s: string)
    requires ' ' !in s
    ensures Encode(s, MODULE_SPECIALS) == Encode(s, SEGMENT_SPECIALS)
  {
  }

  lemma ShiftedSegments(modules: seq<string>, container: seq<string>)
    requires container != [] && ' ' !in container[0]
    ensures EncodeAll(modules + [container[0]], MODULE_SPECIALS) + EncodeAll(container[1..], SEGMENT_SPECIALS)
         == EncodeAll(modules, MODULE_SPECIALS) + EncodeAll(container, SEGMENT_SPECIALS)
  {
    NoSpaceEncodesAlike(container[0]);
    EncodeAllAppend(modules, container[0], MODULE_SPECIALS);
    Reassociate(EncodeAll(modules, MODULE_SPECIALS), Encode(container[0], SEGMENT_SPECIALS),
      EncodeAll(container[1..], SEGMENT_SPECIALS));
  }

  lemma Reassociate(xs: seq<string>, y: string, zs: seq<string>)
    ensures xs + [y] + zs == xs + ([y] + zs)
  {
  }

  /** An id that is not separable prints as another id does. */
  lemma HasTwin(id: NodeId) returns (twin: NodeId)
    requires !Separable(id)
    ensures twin != id && Display(twin) == Display(id)
    ensures id.DocSection? ==> Separable(twin)
    ensures id.Symbol? ==> twin.Symbol? && |twin.key.container| < |id.key.container|
  {
    if id.DocSection? {
      twin := id.(headingPath := []);
      assert EncodeAll([""], SEGMENT_SPECIALS) == [""];
    } else {
      var key := id.key;
      ShiftedSegments(key.modulePath, key.container);
      var twinKey := key.(modulePath := key.modulePath + [key.container[0]], container := key.container[1..]);
      assert SymbolPath(twinKey) == SymbolPath(key);
      twin := Symbol(twinKey);
    }
  }

  /** The unchecked parser undoes printing for exactly the separable ids, valid or not. */
  lemma {:induction false} ParsesBackExactly(id: NodeId)
    ensures ParseUnchecked(Display(id)) == Some(id) <==> Separable(id)
  {
    if Separable(id) {
      ParsesBack(id);
    } else {
      ParsesBackToTwin(id);
    }
  }

  lemma {:induction false} ParsesBackToTwin(id: NodeId)
    requires !Separable(id)
    ensures ParseUnchecked(Display(id)).Some? && ParseUnchecked(Display(id)) != Some(id)
    ensures id.Symbol? ==>
              var parsed := ParseUnchecked(Display(id)).value;
              parsed.Symbol? && |parsed.key.container| < |id.key.container|
    decreases if id.Symbol? then |id.key.container| else 0
  {
    var twin := HasTwin(id);
    if Separable(twin) { ParsesBack(twin); } else { ParsesBackToTwin(twin); }
  }

  lemma ValidIsSeparable(id: NodeId)
    requires Valid(id)
    ensures Separable(id)
  {
  }

  /** Parsing the printed form of a valid id gives the id back, for all eight kinds. */
  lemma FromStrDisplay(id: NodeId)
    requires Valid(id)
    ensures FromStr(Display(id)) == Ok(id)
  {
    ValidIsSeparable(id);
    ParsesBack(id);
  }

  /** The accepted strings are exactly the printed forms of valid ids. */
  lemma AcceptsExactlyCanonicalForms(input: string)
    ensures FromStr(input).Ok? <==> exists id :: Valid(id) && Display(id) == input
  {
    if id :| Valid(id) && Display(id) == input { FromStrDisplay(id); }
  }

  /** Two valid ids of any kinds print alike only if they are the same id. */
  lemma DisplayInjective(x: NodeId, y: NodeId)
    requires Valid(x) && Valid(y) && Display(x) == Display(y)
    ensures x == y
  {
    FromStrDisplay(x);
    FromStrDisplay(y);
  }
}
