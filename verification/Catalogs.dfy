/** Recognising a Qt Linguist catalog from the start of a `.ts` file: lci-core/src/language.rs.
    A byte is a character below U+0100. */
module Catalogs {
  import opened Wrappers

  const UTF16_PREFIX_UNITS: nat := 512

  predicate Space(c: char) {
    c == ' ' || c == '\t' || c == '\n' || c == '\r' || c == '\U{C}'
  }

  predicate NameChar(c: char) {
    || 'a' <= c <= 'z' || 'A' <= c <= 'Z' || '0' <= c <= '9'
    || c == '_' || c == '-' || c == '.' || c == ':'
  }

  function TrimStart(s: string): (r: string)
    ensures |r| <= |s|
    ensures r != "" ==> !Space(r[0])
  {
    if s != "" && Space(s[0]) then TrimStart(s[1..]) else s
  }

  predicate StartsWith(s: string, prefix: string) {
    |prefix| <= |s| && s[..|prefix|] == prefix
  }

  /** The text after the first `-->`. */
  function AfterComment(s: string): (r: Option<string>)
    ensures r.Some? ==> |r.value| < |s|
  {
    if |s| < 3 then None
    else if s[0] == '-' && s[1] == '-' && s[2] == '>' then Some(s[3..])
    else AfterComment(s[1..])
  }

  /** The text after the `>` that closes a document type, outside quotes and internal subsets. */
  function AfterClose(s: string, quote: Option<char>, depth: nat): (r: Option<string>)
    ensures r.Some? ==> |r.value| < |s|
    decreases |s|
  {
    if s == "" then None
    else
      var c := s[0];
      if quote.Some? then AfterClose(s[1..], if c == quote.value then None else quote, depth)
      else if c == '\'' || c == '"' then AfterClose(s[1..], Some(c), depth)
      else if c == '[' then AfterClose(s[1..], None, depth + 1)
      else if c == ']' then AfterClose(s[1..], None, if depth > 0 then depth - 1 else 0)
      else if c == '>' && depth == 0 then Some(s[1..])
      else AfterClose(s[1..], None, depth)
  }

  function AfterDoctype(s: string): (r: Option<string>)
    ensures r.Some? ==> |r.value| < |s|
  {
    if !StartsWith(s, "<!DOCTYPE") then None
    else
      var rest := s[9..];
      if rest == "" || !Space(rest[0]) then None else AfterClose(rest, None, 0)
  }

  /** The text after leading comments and document types, trimmed. */
  function AfterProlog(s: string): Option<string>
    decreases |s|
  {
    if StartsWith(s, "<!--") then
      var rest :- AfterComment(s[4..]);
      AfterProlog(TrimStart(rest))
    else if StartsWith(s, "<!DOCTYPE") then
      var rest :- AfterDoctype(s);
      AfterProlog(TrimStart(rest))
    else Some(s)
  }

  function NameLength(s: string): (n: nat)
    ensures n <= |s|
    ensures forall i :: 0 <= i < n ==> NameChar(s[i])
    ensures n < |s| ==> !NameChar(s[n])
  {
    if s != "" && NameChar(s[0]) then 1 + NameLength(s[1..]) else 0
  }

  predicate HasAttribute(afterTag: string) {
    var attributes := TrimStart(afterTag);
    var n := NameLength(attributes);
    var rest := TrimStart(attributes[n..]);
    |attributes| != |afterTag| && n > 0 && rest != "" && rest[0] == '='
  }

  predicate IsRoot(s: string) {
    StartsWith(s, "<?xml") || (StartsWith(s, "<TS") && HasAttribute(s[3..]))
  }

  predicate IsCatalogStart(s: string) {
    var root := AfterProlog(TrimStart(s));
    root.Some? && IsRoot(root.value)
  }

  // ---------------------------------------------------------------- the procedures

  method FindCommentEnd(s: string) returns (r: Option<string>)
    ensures r == AfterComment(s)
  {
    var i := 0;
    assert s[0..] == s;
    while i + 3 <= |s|
      invariant 0 <= i <= |s| && AfterComment(s) == AfterComment(s[i..])
    {
      ghost var rest := s[i..];
      assert rest[3..] == s[i + 3..] && rest[1..] == s[i + 1..];
      assert rest[0] == s[i] && rest[1] == s[i + 1] && rest[2] == s[i + 2];
      if s[i] == '-' && s[i + 1] == '-' && s[i + 2] == '>' { return Some(s[i + 3..]); }
      i := i + 1;
    }
    return None;
  }

  method SkipDoctype(s: string) returns (r: Option<string>)
    ensures r == AfterDoctype(s)
  {
    if !StartsWith(s, "<!DOCTYPE") { return None; }
    var rest := s[9..];
    if rest == "" || !Space(rest[0]) { return None; }
    var quote: Option<char> := None;
    var depth: nat := 0;
    assert rest[0..] == rest;
    for i := 0 to |rest|
      invariant AfterClose(rest, None, 0) == AfterClose(rest[i..], quote, depth)
    {
      var c := rest[i];
      assert rest[i..][0] == c && rest[i..][1..] == rest[i + 1..];
      if quote.Some? {
        if c == quote.value { quote := None; }
        continue;
      }
      if c == '\'' || c == '"' {
        quote := Some(c);
      } else if c == '[' {
        depth := depth + 1;
      } else if c == ']' {
        depth := if depth > 0 then depth - 1 else 0;
      } else if c == '>' && depth == 0 {
        return Some(rest[i + 1..]);
      }
    }
    return None;
  }

  method CatalogStart(s: string) returns (catalog: bool)
    ensures catalog == IsCatalogStart(s)
  {
    var text := TrimStart(s);
    while StartsWith(text, "<!--") || StartsWith(text, "<!DOCTYPE")
      invariant AfterProlog(TrimStart(s)) == AfterProlog(text)
      decreases |text|
    {
      if StartsWith(text, "<!--") {
        var rest := FindCommentEnd(text[4..]);
        if rest.None? { return false; }
        text := rest.value;
      } else {
        var rest := SkipDoctype(text);
        if rest.None? { return false; }
        text := rest.value;
      }
      text := TrimStart(text);
    }
    catalog := IsRoot(text);
  }

  // ---------------------------------------------------------------- longer texts

  lemma {:induction false} TrimExtends(s: string, more: string)
    requires TrimStart(s) != ""
    ensures TrimStart(s + more) == TrimStart(s) + more
  {
    if Space(s[0]) {
      assert (s + more)[1..] == s[1..] + more;
      TrimExtends(s[1..], more);
    }
  }

  lemma {:induction false} CommentExtends(s: string, more: string)
    requires AfterComment(s).Some?
    ensures AfterComment(s + more) == Some(AfterComment(s).value + more)
  {
    if s[0] == '-' && s[1] == '-' && s[2] == '>' {
      assert (s + more)[3..] == s[3..] + more;
    } else {
      assert (s + more)[1..] == s[1..] + more;
      CommentExtends(s[1..], more);
    }
  }

  lemma {:induction false} CloseExtends(s: string, more: string, quote: Option<char>, depth: nat)
    requires AfterClose(s, quote, depth).Some?
    ensures AfterClose(s + more, quote, depth) == Some(AfterClose(s, quote, depth).value + more)
    decreases |s|
  {
    var c := s[0];
    assert (s + more)[0] == c && (s + more)[1..] == s[1..] + more;
    if quote.Some? {
      CloseExtends(s[1..], more, if c == quote.value then None else quote, depth);
    } else if c == '\'' || c == '"' {
      CloseExtends(s[1..], more, Some(c), depth);
    } else if c == '[' {
      CloseExtends(s[1..], more, None, depth + 1);
    } else if c == ']' {
      CloseExtends(s[1..], more, None, if depth > 0 then depth - 1 else 0);
    } else if !(c == '>' && depth == 0) {
      CloseExtends(s[1..], more, None, depth);
    }
  }

  lemma StartsExtends(s: string, more: string, prefix: string)
    requires StartsWith(s, prefix)
    ensures StartsWith(s + more, prefix) && (s + more)[|prefix|..] == s[|prefix|..] + more
  {
  }

  lemma DoctypeExtends(s: string, more: string)
    requires AfterDoctype(s).Some?
    ensures AfterDoctype(s + more) == Some(AfterDoctype(s).value + more)
  {
    StartsExtends(s, more, "<!DOCTYPE");
    CloseExtends(s[9..], more, None, 0);
  }

  lemma {:induction false} NameExtends(s: string, more: string)
    requires NameLength(s) < |s|
    ensures NameLength(s + more) == NameLength(s)
  {
    if NameChar(s[0]) {
      assert (s + more)[1..] == s[1..] + more;
      NameExtends(s[1..], more);
    }
  }

  lemma AttributeExtends(s: string, more: string)
    requires HasAttribute(s)
    ensures HasAttribute(s + more)
  {
    var attributes := TrimStart(s);
    var n := NameLength(attributes);
    TrimExtends(s, more);
    NameExtends(attributes, more);
    TrimExtends(attributes[n..], more);
    assert (attributes + more)[n..] == attributes[n..] + more;
  }

  lemma StartsAt(s: string, prefix: string, k: nat)
    requires StartsWith(s, prefix) && k < |prefix|
    ensures s[k] == prefix[k]
  {
  }

  lemma RootHasNoProlog(s: string)
    requires IsRoot(s)
    ensures AfterProlog(s) == Some(s)
  {
    if StartsWith(s, "<?xml") { StartsAt(s, "<?xml", 1); } else { StartsAt(s, "<TS", 1); }
    assert |s| >= 4 ==> s[..4][1] == s[1];
    assert |s| >= 9 ==> s[..9][1] == s[1];
  }

  lemma RootExtends(s: string, more: string)
    requires IsRoot(s)
    ensures IsRoot(s + more)
  {
    if StartsWith(s, "<?xml") {
      StartsExtends(s, more, "<?xml");
    } else {
      StartsExtends(s, more, "<TS");
      AttributeExtends(s[3..], more);
    }
  }

  lemma {:induction false} PrologExtends(s: string, more: string)
    requires AfterProlog(s).Some? && IsRoot(AfterProlog(s).value)
    ensures AfterProlog(s + more) == Some(AfterProlog(s).value + more)
    decreases |s|, 0
  {
    if StartsWith(s, "<!--") {
      StartsExtends(s, more, "<!--");
      CommentExtends(s[4..], more);
      PrologStep(AfterComment(s[4..]).value, more);
    } else if StartsWith(s, "<!DOCTYPE") {
      StartsExtends(s, more, "<!DOCTYPE");
      NotComment(s + more);
      DoctypeExtends(s, more);
      PrologStep(AfterDoctype(s).value, more);
    } else {
      RootExtends(s, more);
      RootHasNoProlog(s + more);
    }
  }

  lemma NotComment(s: string)
    requires StartsWith(s, "<!DOCTYPE")
    ensures !StartsWith(s, "<!--")
  {
    assert s[2] == s[..9][2] == 'D' && s[2] == s[..4][2];
  }

  lemma {:induction false} PrologStep(rest: string, more: string)
    requires AfterProlog(TrimStart(rest)).Some? && IsRoot(AfterProlog(TrimStart(rest)).value)
    ensures AfterProlog(TrimStart(rest + more)) == Some(AfterProlog(TrimStart(rest)).value + more)
    decreases |TrimStart(rest)|, 1
  {
    TrimExtends(rest, more);
    PrologExtends(TrimStart(rest), more);
  }

  /** Once a prefix of a file is recognised, every continuation of it is. */
  lemma RecognitionIsMonotone(s: string, more: string)
    requires IsCatalogStart(s)
    ensures IsCatalogStart(s + more)
  {
    PrologStep(s, more);
    RootExtends(AfterProlog(TrimStart(s)).value, more);
  }

  // ---------------------------------------------------------------- encodings

  /** The units of UTF-16 bytes; a trailing odd byte is ignored. */
  function Units(bytes: string, bigEndian: bool): seq<int> {
    if |bytes| < 2 then []
    else
      var high, low := if bigEndian then bytes[0] else bytes[1], if bigEndian then bytes[1] else bytes[0];
      [high as int * 0x100 + low as int] + Units(bytes[2..], bigEndian)
  }

  predicate SpaceUnit(u: int) {
    0 <= u < 0x100 && Space(u as char)
  }

  function SkipSpaceUnits(us: seq<int>): seq<int> {
    if us != [] && SpaceUnit(us[0]) then SkipSpaceUnits(us[1..]) else us
  }

  /** A unit outside ASCII becomes a byte no check accepts. */
  function AsciiByte(u: int): char {
    if 0 <= u < 0x80 then u as char else '\U{80}'
  }

  function Utf16AsciiPrefix(bytes: string, bigEndian: bool): string {
    var us := SkipSpaceUnits(Units(bytes, bigEndian));
    seq(if |us| < UTF16_PREFIX_UNITS then |us| else UTF16_PREFIX_UNITS, i requires 0 <= i < |us| => AsciiByte(us[i]))
  }

  predicate QtLinguist(content: string) {
    if StartsWith(content, "\U{FF}\U{FE}") then IsCatalogStart(Utf16AsciiPrefix(content[2..], false))
    else if StartsWith(content, "\U{FE}\U{FF}") then IsCatalogStart(Utf16AsciiPrefix(content[2..], true))
    else if StartsWith(content, "\U{EF}\U{BB}\U{BF}") then IsCatalogStart(content[3..])
    else IsCatalogStart(content)
  }

  predicate Ascii(s: string) {
    forall i :: 0 <= i < |s| ==> s[i] as int < 0x80
  }

  /** ASCII text in UTF-16, after its byte order mark. */
  function ToUtf16(s: string, bigEndian: bool): string {
    if s == "" then ""
    else (if bigEndian then ['\0', s[0]] else [s[0], '\0']) + ToUtf16(s[1..], bigEndian)
  }

  function Mark(bigEndian: bool): string {
    if bigEndian then "\U{FE}\U{FF}" else "\U{FF}\U{FE}"
  }

  function AsUnits(s: string): seq<int> {
    seq(|s|, i requires 0 <= i < |s| => s[i] as int)
  }

  lemma {:induction false} UnitsOfUtf16(s: string, bigEndian: bool)
    requires Ascii(s)
    ensures Units(ToUtf16(s, bigEndian), bigEndian) == AsUnits(s)
  {
    if s != "" {
      var bytes := ToUtf16(s, bigEndian);
      assert bytes[2..] == ToUtf16(s[1..], bigEndian);
      UnitsOfUtf16(s[1..], bigEndian);
    }
  }

  lemma {:induction false} SkipsSameSpace(s: string)
    requires Ascii(s)
    ensures SkipSpaceUnits(AsUnits(s)) == AsUnits(TrimStart(s)) && Ascii(TrimStart(s))
  {
    if s != "" && Space(s[0]) {
      assert AsUnits(s)[1..] == AsUnits(s[1..]);
      SkipsSameSpace(s[1..]);
    }
  }

  function Bounded(s: string): string {
    s[..if |s| < UTF16_PREFIX_UNITS then |s| else UTF16_PREFIX_UNITS]
  }

  lemma PrefixOfAscii(s: string, bigEndian: bool)
    requires Ascii(s)
    ensures Utf16AsciiPrefix(ToUtf16(s, bigEndian), bigEndian) == Bounded(TrimStart(s))
  {
    UnitsOfUtf16(s, bigEndian);
    SkipsSameSpace(s);
  }

  lemma {:induction false} MarkedUtf16(s: string, bigEndian: bool)
    requires Ascii(s)
    ensures QtLinguist(Mark(bigEndian) + ToUtf16(s, bigEndian)) 
       <==> IsCatalogStart(TrimStart(s)[..if |TrimStart(s)| < 512 then |TrimStart(s)| else 512])
  {
    var content := Mark(bigEndian) + ToUtf16(s, bigEndian);
    assert content[..2] == Mark(bigEndian) && content[2..] == ToUtf16(s, bigEndian);
    if bigEndian { assert content[..2][0] == '\U{FE}'; }
    PrefixOfAscii(s, bigEndian);
  }

  lemma PlainAscii(s: string)
    requires Ascii(s)
    ensures QtLinguist(s) <==> IsCatalogStart(s)
  {
  }

  lemma {:induction false} BoundedRecognition(s: string)
    ensures IsCatalogStart(Bounded(TrimStart(s))) ==> IsCatalogStart(s)
    ensures |TrimStart(s)| <= 512 ==> (IsCatalogStart(Bounded(TrimStart(s))) <==> IsCatalogStart(s))
  {
    var trimmed := TrimStart(s);
    var head := Bounded(trimmed);
    assert trimmed == head + trimmed[|head|..];
    assert |trimmed| <= UTF16_PREFIX_UNITS ==> head == trimmed;
    if IsCatalogStart(head) { RecognitionIsMonotone(head, trimmed[|head|..]); }
  }

  /** The same ASCII text is recognised in UTF-16 only if it is in UTF-8; and exactly when it is in UTF-8
      if the text after leading white space fits in 512 units. */
  lemma {:induction false} EncodingsAgree(s: string, bigEndian: bool)
    requires Ascii(s)
    ensures QtLinguist(Mark(bigEndian) + ToUtf16(s, bigEndian)) ==> QtLinguist(s)
    ensures |TrimStart(s)| <= 512 ==>
              (QtLinguist(Mark(bigEndian) + ToUtf16(s, bigEndian)) <==> QtLinguist(s))
  {
    MarkedUtf16(s, bigEndian);
    PlainAscii(s);
    BoundedRecognition(s);
  }

  function Filler(n: nat): (r: string)
    ensures |r| == n && forall i :: 0 <= i < n ==> r[i] == 'x'
  {
    seq(n, _ => 'x')
  }

  lemma {:induction false} FillerEndsNoComment(s: string)
    requires forall i :: 0 <= i < |s| ==> s[i] == 'x'
    ensures AfterComment(s) == None
  {
    if |s| >= 3 { FillerEndsNoComment(s[1..]); }
  }

  lemma {:induction false} CommentEndsAfterFiller(n: nat, more: string)
    ensures AfterComment(Filler(n) + "-->" + more) == Some(more)
  {
    var s := Filler(n) + "-->" + more;
    if n == 0 {
      assert s[..3] == "-->" && s[3..] == more;
      assert s[0] == s[..3][0] && s[1] == s[..3][1] && s[2] == s[..3][2];
    } else {
      assert s[1..] == Filler(n - 1) + "-->" + more;
      assert s[0] == 'x';
      CommentEndsAfterFiller(n - 1, more);
    }
  }

  function Commented(n: nat): string {
    "<!--" + (Filler(n) + "-->" + "<?xml")
  }

  lemma CommentedIsCatalog(n: nat)
    ensures IsCatalogStart(Commented(n)) && Ascii(Commented(n)) && TrimStart(Commented(n)) == Commented(n)
  {
    var after := Filler(n) + "-->" + "<?xml";
    var s := Commented(n);
    assert s[..4] == "<!--" && s[4..] == after && s[0] == '<';
    CommentEndsAfterFiller(n, "<?xml");
    RootHasNoProlog("<?xml");
    assert Ascii("<!--") && Ascii("-->") && Ascii("<?xml");
  }

  lemma HeadIsFiller(n: nat)
    requires n >= 508
    ensures var head := Bounded(Commented(n));
            |head| == 512 && head[..4] == "<!--" && forall i :: 0 <= i < 508 ==> head[4..][i] == 'x'
  {
    var head := Bounded(Commented(n));
    assert head[..4] == "<!--";
    forall i | 0 <= i < 508
      ensures head[4..][i] == 'x'
    {
      assert head[4..][i] == head[4 + i] == Commented(n)[4 + i] == Filler(n)[i];
    }
  }

  lemma UnendedCommentIsNoCatalog(head: string)
    requires StartsWith(head, "<!--") && AfterComment(head[4..]) == None
    ensures !IsCatalogStart(head)
  {
    StartsAt(head, "<!--", 0);
    assert TrimStart(head) == head;
  }

  /** A leading comment of at least 508 characters hides a UTF-16 catalog, and only a UTF-16 one. */
  lemma LongCommentsHideUtf16(n: nat, bigEndian: bool)
    requires n >= 508
    ensures QtLinguist(Commented(n)) && !QtLinguist(Mark(bigEndian) + ToUtf16(Commented(n), bigEndian))
  {
    CommentedIsCatalog(n);
    PlainAscii(Commented(n));
    MarkedUtf16(Commented(n), bigEndian);
    HeadIsFiller(n);
    FillerEndsNoComment(Bounded(Commented(n))[4..]);
    UnendedCommentIsNoCatalog(Bounded(Commented(n)));
  }

  lemma {:induction false} ByteOrdersAgree(s: string)
    requires Ascii(s)
    ensures QtLinguist(Mark(true) + ToUtf16(s, true)) <==> QtLinguist(Mark(false) + ToUtf16(s, false))
  {
    MarkedUtf16(s, true);
    MarkedUtf16(s, false);
  }
}
