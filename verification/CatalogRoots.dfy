/** Which texts begin a catalog, written out as they stand. */
module CatalogRoots {
  import opened Wrappers
  import opened Catalogs

  predicate Blank(s: string) {
    forall i :: 0 <= i < |s| ==> s[i] in {' ', '\t', '\n', '\r', '\U{C}'}
  }

  predicate Name(s: string) {
    forall i :: 0 <= i < |s| ==>
      'a' <= s[i] <= 'z' || 'A' <= s[i] <= 'Z' || '0' <= s[i] <= '9' || s[i] in {'_', '-', '.', ':'}
  }

  predicate StartsBlank(s: string) {
    s != "" && s[0] in {' ', '\t', '\n', '\r', '\U{C}'}
  }

  lemma {:induction false} TrimBlank(blank: string, s: string)
    requires Blank(blank) && !StartsBlank(s)
    ensures TrimStart(blank + s) == s
  {
    if blank == "" {
      assert blank + s == s;
    } else {
      assert (blank + s)[1..] == blank[1..] + s;
      TrimBlank(blank[1..], s);
    }
  }

  lemma {:induction false} NameEnds(name: string, s: string)
    requires Name(name) && (s == "" || !Name([s[0]]))
    ensures NameLength(name + s) == |name|
  {
    if name == "" {
      assert name + s == s;
      if s != "" { assert [s[0]][0] == s[0] && !NameChar(s[0]); }
    } else {
      assert (name + s)[1..] == name[1..] + s;
      NameEnds(name[1..], s);
    }
  }

  lemma TagWithAttribute(space: string, name: string, gap: string, rest: string)
    requires Blank(space) && space != "" && Name(name) && name != "" && Blank(gap)
    ensures HasAttribute(space + (name + (gap + ("=" + rest))))
  {
    var value := "=" + rest;
    var afterName := gap + value;
    assert !StartsBlank(name + afterName);
    TrimBlank(space, name + afterName);
    assert afterName != "" && !Name([afterName[0]]) by {
      var c := afterName[0];
      assert c == if gap == "" then '=' else gap[0];
      assert [c][0] == c;
    }
    NameEnds(name, afterName);
    TrimBlank(gap, value);
    assert (name + afterName)[|name|..] == afterName;
  }

  /** An XML declaration begins a catalog, and so does a `TS` tag with an attribute, after any white space. */
  lemma RootsBeginCatalogs(blank: string, space: string, name: string, gap: string, rest: string)
    requires Blank(blank)
    ensures IsCatalogStart(blank + ("<?xml" + rest))
    ensures Blank(space) && space != "" && Name(name) && name != "" && Blank(gap) ==>
              IsCatalogStart(blank + ("<TS" + (space + (name + (gap + ("=" + rest))))))
  {
    var xml := "<?xml" + rest;
    assert xml[..5] == "<?xml";
    TrimBlank(blank, xml);
    PlainProlog(xml);
    if Blank(space) && space != "" && Name(name) && name != "" && Blank(gap) {
      var attribute := space + (name + (gap + ("=" + rest)));
      var tag := "<TS" + attribute;
      assert tag[..3] == "<TS" && tag[3..] == attribute;
      TagWithAttribute(space, name, gap, rest);
      TrimBlank(blank, tag);
      PlainProlog(tag);
    }
  }

  lemma PlainProlog(s: string)
    requires |s| >= 2 && s[1] != '!'
    ensures AfterProlog(s) == Some(s)
  {
    assert "<!--"[1] == '!' && "<!DOCTYPE"[1] == '!';
    if StartsWith(s, "<!--") { StartsAt(s, "<!--", 1); }
    if StartsWith(s, "<!DOCTYPE") { StartsAt(s, "<!DOCTYPE", 1); }
  }

  lemma {:induction false} TrimSplits(s: string)
    ensures TrimStart(s) == s[|s| - |TrimStart(s)|..] && Blank(s[..|s| - |TrimStart(s)|])
  {
    if s != "" && Space(s[0]) { TrimSplits(s[1..]); }
  }

  /** White space, a name and an equals sign, possibly after more white space. */
  ghost predicate Attribute(s: string, space: string, name: string, gap: string, rest: string) {
    && s == space + (name + (gap + ("=" + rest)))
    && Blank(space) && space != "" && Name(name) && name != "" && Blank(gap)
  }

  lemma CutInTwo(s: string, n: nat)
    requires n <= |s|
    ensures s == s[..n] + s[n..]
  {
  }

  lemma AttributeFound(s: string) returns (space: string, name: string, gap: string, rest: string)
    requires HasAttribute(s)
    ensures Attribute(s, space, name, gap, rest)
  {
    var attributes := TrimStart(s);
    var n := NameLength(attributes);
    space, name := s[..|s| - |attributes|], attributes[..n];
    TrimSplits(s);
    gap, rest := ValueFound(attributes[n..]);
    CutInTwo(attributes, n);
    CutInTwo(s, |s| - |attributes|);
  }

  lemma ValueFound(s: string) returns (gap: string, rest: string)
    requires TrimStart(s) != "" && TrimStart(s)[0] == '='
    ensures s == gap + ("=" + rest) && Blank(gap)
  {
    var value := TrimStart(s);
    TrimSplits(s);
    gap, rest := s[..|s| - |value|], value[1..];
    assert value == "=" + rest && s == gap + value;
  }

  /** After white space, comments and document types nothing else begins a catalog. */
  lemma OnlyRootsBeginCatalogs(blank: string, s: string)
    requires Blank(blank) && !StartsBlank(s) && !StartsWith(s, "<!--") && !StartsWith(s, "<!DOCTYPE")
    ensures IsCatalogStart(blank + s) ==>
              || StartsWith(s, "<?xml")
              || exists space, name, gap, rest :: StartsWith(s, "<TS") && Attribute(s[3..], space, name, gap, rest)
  {
    TrimBlank(blank, s);
    if IsCatalogStart(blank + s) && !StartsWith(s, "<?xml") {
      var space, name, gap, rest := AttributeFound(s[3..]);
    }
  }

  // ---------------------------------------------------------------- what is skipped

  predicate Open(s: string) {
    forall i :: 0 <= i < |s| - 2 ==> !(s[i] == '-' && s[i + 1] == '-' && s[i + 2] == '>')
  }

  lemma {:induction false} CommentEnds(body: string, s: string)
    requires Open(body)
    ensures AfterComment(body + ("-->" + s)) == Some(s)
  {
    var all := body + ("-->" + s);
    if body == "" {
      assert all == "-->" + s && all[3..] == s;
    } else {
      assert all[1..] == body[1..] + ("-->" + s);
      assert all[0] == '-' && all[1] == '-' && all[2] == '>' ==> |body| > 2;
      CommentEnds(body[1..], s);
    }
  }

  /** A comment before a text changes nothing. */
  lemma CommentsAreSkipped(blank: string, body: string, s: string)
    requires Blank(blank) && Open(body)
    ensures IsCatalogStart(blank + ("<!--" + (body + ("-->" + s)))) <==> IsCatalogStart(s)
  {
    var afterOpen := body + ("-->" + s);
    var text := "<!--" + afterOpen;
    TrimBlank(blank, text);
    assert text[..4] == "<!--" && text[4..] == afterOpen;
    CommentEnds(body, s);
  }

  /** No quotation mark, bracket or closing character. */
  predicate Simple(s: string) {
    forall i :: 0 <= i < |s| ==> s[i] !in {'\'', '"', '[', ']', '>'}
  }

  lemma {:induction false} DoctypeEnds(body: string, s: string)
    requires Simple(body)
    ensures AfterClose(body + (">" + s), None, 0) == Some(s)
    decreases |body|
  {
    var all := body + (">" + s);
    if body == "" {
      assert all == ">" + s && all[1..] == s;
    } else {
      assert all[0] == body[0] && all[1..] == body[1..] + (">" + s);
      DoctypeEnds(body[1..], s);
    }
  }

  /** Nor does a document type without quotes or brackets. */
  lemma DoctypesAreSkipped(blank: string, space: char, body: string, s: string)
    requires Blank(blank) && Blank([space]) && Simple(body)
    ensures IsCatalogStart(blank + ("<!DOCTYPE" + ([space] + body + (">" + s)))) <==> IsCatalogStart(s)
  {
    assert [space][0] == space;
    var rest := [space] + body + (">" + s);
    var text := "<!DOCTYPE" + rest;
    TrimBlank(blank, text);
    assert text[..9] == "<!DOCTYPE" && text[9..] == rest;
    assert text[2] == 'D';
    if StartsWith(text, "<!--") { StartsAt(text, "<!--", 2); }
    assert Simple([space] + body);
    DoctypeEnds([space] + body, s);
  }

  /** Nor does the byte order mark of UTF-8. */
  lemma MarkedUtf8(s: string)
    ensures QtLinguist("\U{EF}\U{BB}\U{BF}" + s) <==> IsCatalogStart(s)
  {
    var content := "\U{EF}\U{BB}\U{BF}" + s;
    assert content[..3] == "\U{EF}\U{BB}\U{BF}" && content[3..] == s;
    assert content[0] == '\U{EF}' && content[..2][0] == content[0];
  }
}
