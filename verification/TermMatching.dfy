/** Crediting a line with the terms it holds: `TermMatcher` of lci-core/src/lexical.rs. */
module TermMatching {
  import opened Masks

  const WORD_MATCH_MAX_CHARS: nat := 4

  predicate IsAscii(c: char) {
    c as int < 0x80
  }

  predicate AsciiUpper(c: char) {
    'A' <= c <= 'Z'
  }

  predicate AsciiAlnum(c: char) {
    AsciiUpper(c) || 'a' <= c <= 'z' || '0' <= c <= '9'
  }

  function AsciiLower(c: char): char {
    if AsciiUpper(c) then (c as int + 32) as char else c
  }

  predicate AllAscii(s: string) {
    forall c <- s :: IsAscii(c)
  }

  /** The Unicode character classes and folding, which on ASCII are the ASCII ones. */
  datatype Unicode = Unicode(alnum: char -> bool, upper: char -> bool, foldOther: char -> char) {
    ghost predicate ExtendsAscii() {
      forall c :: IsAscii(c) ==> alnum(c) == AsciiAlnum(c) && upper(c) == AsciiUpper(c)
    }

    function Fold(c: char): char {
      if IsAscii(c) then AsciiLower(c) else foldOther(c)
    }
  }

  function Lowered(s: string): string {
    seq(|s|, i requires 0 <= i < |s| => AsciiLower(s[i]))
  }

  // ---------------------------------------------------------------- the two matchers, position by position

  /** The byte matcher at one start; its needle is the term in lower case. */
  predicate AsciiAt(needle: string, line: string, start: nat)
    requires start + |needle| <= |line|
  {
    var end := start + |needle|;
    && Lowered(line[start..end]) == needle
    && (|needle| <= WORD_MATCH_MAX_CHARS ==>
         && (start == 0 || !AsciiAlnum(line[start - 1]))
         && (end == |line| || !AsciiAlnum(line[end]) || AsciiUpper(line[end])))
  }

  function Folded(u: Unicode, s: string): string {
    seq(|s|, i requires 0 <= i < |s| => u.Fold(s[i]))
  }

  predicate UnicodeAt(u: Unicode, term: string, line: string, start: nat)
    requires start + |term| <= |line|
  {
    var end := start + |term|;
    && Folded(u, line)[start..end] == term
    && (|term| <= WORD_MATCH_MAX_CHARS ==>
         && (start == 0 || !u.alnum(line[start - 1]))
         && (end == |line| || !u.alnum(line[end]) || u.upper(line[end])))
  }

  ghost predicate AsciiCredits(term: string, line: string) {
    AllAscii(term) && exists start: nat :: start + |term| <= |line| && AsciiAt(Lowered(term), line, start)
  }

  ghost predicate UnicodeCredits(u: Unicode, term: string, line: string) {
    exists start: nat :: start + |term| <= |line| && UnicodeAt(u, term, line, start)
  }

  // ---------------------------------------------------------------- the procedures

  /** One start of the byte matcher: first byte, whole needle, word bounds. */
  method MatchesAscii(needle: string, line: string, start: nat) returns (matches: bool)
    requires needle != "" && start + |needle| <= |line|
    ensures matches <==> AsciiAt(needle, line, start)
  {
    var end := start + |needle|;
    var slice := Lowered(line[start..end]);
    assert slice[0] == AsciiLower(line[start]);
    if AsciiLower(line[start]) != needle[0] || slice != needle { return false; }
    var wholeWord := |needle| <= WORD_MATCH_MAX_CHARS;
    var before := start == 0 || !AsciiAlnum(line[start - 1]);
    var after := end == |line| || !AsciiAlnum(line[end]) || AsciiUpper(line[end]);
    return !wholeWord || (before && after);
  }

  method MatchesUnicode(u: Unicode, term: string, line: string, folded: string, start: nat) returns (matches: bool)
    requires folded == Folded(u, line) && start + |term| <= |line|
    ensures matches <==> UnicodeAt(u, term, line, start)
  {
    var end := start + |term|;
    if folded[start..end] != term { return false; }
    var wholeWord := |term| <= WORD_MATCH_MAX_CHARS;
    var before := start == 0 || !u.alnum(line[start - 1]);
    var after := end == |line| || !u.alnum(line[end]) || u.upper(line[end]);
    return !wholeWord || (before && after);
  }

  method CreditAscii(terms: seq<string>, line: string) returns (mask: Mask)
    requires |terms| <= WIDTH && forall t <- terms :: t != ""
    ensures forall i: nat :: i < WIDTH ==> (mask[i] <==> i < |terms| && AsciiCredits(terms[i], line))
  {
    mask := Zero();
    for index := 0 to |terms|
      invariant forall i: nat :: i < WIDTH ==> (mask[i] <==> i < index && AsciiCredits(terms[i], line))
    {
      var term := terms[index];
      if !(forall c <- term :: IsAscii(c)) { continue; }
      var needle := Lowered(term);
      if |line| < |needle| { continue; }
      var credited := false;
      var start := 0;
      while start <= |line| - |needle| && !credited
        invariant 0 <= start <= |line| - |needle| + 1
        invariant !credited ==> forall k: nat :: k < start ==> !AsciiAt(needle, line, k)
        invariant credited ==> AsciiCredits(term, line)
        decreases |line| - start, !credited
      {
        assert term in terms;
        credited := MatchesAscii(needle, line, start);
        if !credited { start := start + 1; }
      }
      if credited { mask := Or(mask, Bit(index)); }
    }
  }

  method CreditUnicode(u: Unicode, terms: seq<string>, line: string) returns (mask: Mask)
    requires |terms| <= WIDTH
    ensures forall i: nat :: i < WIDTH ==> (mask[i] <==> i < |terms| && UnicodeCredits(u, terms[i], line))
  {
    var folded := Folded(u, line);
    mask := Zero();
    for index := 0 to |terms|
      invariant forall i: nat :: i < WIDTH ==> (mask[i] <==> i < index && UnicodeCredits(u, terms[i], line))
    {
      var term := terms[index];
      if |folded| < |term| { continue; }
      var credited := false;
      var start := 0;
      while start <= |folded| - |term| && !credited
        invariant 0 <= start <= |line| - |term| + 1
        invariant !credited ==> forall k: nat :: k < start ==> !UnicodeAt(u, term, line, k)
        invariant credited ==> UnicodeCredits(u, term, line)
        decreases |line| - start, !credited
      {
        credited := MatchesUnicode(u, term, line, folded, start);
        if !credited { start := start + 1; }
      }
      if credited { mask := Or(mask, Bit(index)); }
    }
  }

  method Credit(u: Unicode, terms: seq<string>, line: string) returns (mask: Mask)
    requires |terms| <= WIDTH && forall t <- terms :: t != ""
    requires u.ExtendsAscii() && forall t <- terms :: Lowercase(t)
    ensures forall i: nat :: i < WIDTH ==> (mask[i] <==> i < |terms| && UnicodeCredits(u, terms[i], line))
  {
    if forall c <- line :: IsAscii(c) {
      mask := CreditAscii(terms, line);
      forall i: nat | i < |terms|
        ensures AsciiCredits(terms[i], line) <==> UnicodeCredits(u, terms[i], line)
      {
        assert terms[i] in terms;
        AsciiLineCreditsAgree(u, terms[i], line);
      }
    } else {
      mask := CreditUnicode(u, terms, line);
    }
  }

  // ---------------------------------------------------------------- agreement

  /** What every query term is: an ASCII term holds no upper-case letter. */
  predicate Lowercase(term: string) {
    AllAscii(term) ==> forall c <- term :: !AsciiUpper(c)
  }

  lemma AsciiPositionsAgree(u: Unicode, term: string, line: string, start: nat)
    requires u.ExtendsAscii() && AllAscii(line) && AllAscii(term) && Lowercase(term)
    requires start + |term| <= |line|
    ensures AsciiAt(Lowered(term), line, start) <==> UnicodeAt(u, term, line, start)
  {
    var end := start + |term|;
    assert Lowered(term) == term by {
      assert forall i :: 0 <= i < |term| ==> term[i] in term;
    }
    assert Lowered(line[start..end]) == Folded(u, line)[start..end] by {
      forall i | 0 <= i < |term|
        ensures Lowered(line[start..end])[i] == Folded(u, line)[start + i]
      {
        assert line[start + i] in line;
      }
    }
    assert start > 0 ==> line[start - 1] in line;
    assert end < |line| ==> line[end] in line;
  }

  lemma ForeignTermMisses(u: Unicode, term: string, line: string, start: nat)
    requires AllAscii(line) && !AllAscii(term) && start + |term| <= |line|
    ensures !UnicodeAt(u, term, line, start)
  {
  }

  /** On an ASCII line the byte matcher and the character matcher credit a lower-case term alike, the
      whole-word rule for short terms included. */
  lemma AsciiLineCreditsAgree(u: Unicode, term: string, line: string)
    requires u.ExtendsAscii() && AllAscii(line) && Lowercase(term)
    ensures AsciiCredits(term, line) <==> UnicodeCredits(u, term, line)
  {
    forall start: nat | start + |term| <= |line|
      ensures AllAscii(term) ==> (AsciiAt(Lowered(term), line, start) <==> UnicodeAt(u, term, line, start))
      ensures !AllAscii(term) ==> !UnicodeAt(u, term, line, start)
    {
      if AllAscii(term) {
        AsciiPositionsAgree(u, term, line, start);
      } else {
        ForeignTermMisses(u, term, line, start);
      }
    }
  }

  /** And for no other terms: one with an upper-case ASCII letter is credited by the byte matcher on the
      line that is the term itself, and by the character matcher on no ASCII line. */
  lemma AgreeExactlyOnLowercase(u: Unicode, term: string)
    requires u.ExtendsAscii()
    ensures Lowercase(term) <==>
              forall line :: AllAscii(line) ==> (AsciiCredits(term, line) <==> UnicodeCredits(u, term, line))
  {
    if Lowercase(term) {
      forall line | AllAscii(line)
        ensures AsciiCredits(term, line) <==> UnicodeCredits(u, term, line)
      {
        AsciiLineCreditsAgree(u, term, line);
      }
    } else {
      var c :| c in term && AsciiUpper(c);
      var i :| 0 <= i < |term| && term[i] == c;
      assert term[0..|term|] == term;
      assert AsciiAt(Lowered(term), term, 0);
      assert AsciiCredits(term, term);
      forall start: nat | start + |term| <= |term|
        ensures !UnicodeAt(u, term, term, start)
      {
        assert IsAscii(term[start + i]) by { assert term[start + i] in term; }
        assert Folded(u, term)[start..start + |term|][i] == u.Fold(term[start + i]);
      }
      assert !UnicodeCredits(u, term, term);
    }
  }
}
