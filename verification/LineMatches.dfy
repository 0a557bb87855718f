/** When a line is credited with a term, said as a cut of the line. */
module LineMatches {
  import opened TermMatching

  /** The line is `before`, the term in some case, `after`; a term of at most four characters must stand as
      a word of its own, ended by no letter or digit or by a capital. */
  ghost predicate HoldsTerm(u: Unicode, term: string, before: string, found: string, after: string) {
    && |found| == |term| && (forall i :: 0 <= i < |term| ==> u.Fold(found[i]) == term[i])
    && (|term| <= 4 ==>
         && (before == "" || !u.alnum(before[|before| - 1]))
         && (after == "" || !u.alnum(after[0]) || u.upper(after[0])))
  }

  lemma CutAt(u: Unicode, term: string, line: string, start: nat)
    requires start + |term| <= |line|
    ensures UnicodeAt(u, term, line, start) <==>
              HoldsTerm(u, term, line[..start], line[start..start + |term|], line[start + |term|..])
  {
    var found := line[start..start + |term|];
    assert forall i :: 0 <= i < |term| ==> Folded(u, line)[start..start + |term|][i] == u.Fold(found[i]);
  }

  lemma CreditsExactly(u: Unicode, term: string, line: string)
    ensures UnicodeCredits(u, term, line) <==>
              exists before, found, after :: line == before + found + after && HoldsTerm(u, term, before, found, after)
  {
    if UnicodeCredits(u, term, line) {
      var start: nat :| start + |term| <= |line| && UnicodeAt(u, term, line, start);
      CutAt(u, term, line, start);
      assert line == line[..start] + line[start..start + |term|] + line[start + |term|..];
    }
    forall before, found, after | line == before + found + after && HoldsTerm(u, term, before, found, after)
      ensures UnicodeCredits(u, term, line)
    {
      assert line[..|before|] == before && line[|before|..|before| + |term|] == found;
      assert line[|before| + |term|..] == after;
      CutAt(u, term, line, |before|);
    }
  }

  /** On ASCII the case fold is the 26 letters' own. */
  lemma FoldsAscii(u: Unicode, c: char)
    requires c as int < 0x80
    ensures 'A' <= c <= 'Z' ==> u.Fold(c) as int == c as int + 32
    ensures !('A' <= c <= 'Z') ==> u.Fold(c) == c
  {
  }
}
