/** What each chunk of a file holds, range by range, with its lines counted from 1. */
module ChunkTexts {
  import opened Ranges
  import opened Chunks
  import opened Extraction

  lemma {:induction false} NewlinesCount(s: string)
    ensures Newlines(s) == multiset(s)['\n']
  {
    if s != "" {
      NewlinesCount(s[..|s| - 1]);
      assert s == s[..|s| - 1] + [s[|s| - 1]];
    }
  }

  /** Besides white space there is more in the range than braces and semicolons. */
  ghost predicate HasText(t: Text, source: string, r: Range)
    requires 0 <= r.lo <= r.hi <= |source|
  {
    exists k :: r.lo <= k < r.hi && !t.space(source[k]) && source[k] !in {'{', '}', ';'}
  }

  /** `c` is the text of the range without the white space around it, on the lines it stands on. */
  ghost predicate IsTextOf(t: Text, path: string, language: string, source: string, r: Range, c: Chunk)
    requires 0 <= r.lo <= r.hi <= |source|
  {
    exists begin: nat, finish: nat :: IsTextAt(t, path, language, source, r, c, begin, finish)
  }

  ghost predicate IsTextAt(t: Text, path: string, language: string, source: string, r: Range, c: Chunk,
    begin: nat, finish: nat)
    requires 0 <= r.lo <= r.hi <= |source|
  {
    && r.lo <= begin < finish <= r.hi && c.code == source[begin..finish]
    && (forall k :: r.lo <= k < begin || finish <= k < r.hi ==> t.space(source[k]))
    && !t.space(source[begin]) && !t.space(source[finish - 1])
    && c.startLine == 1 + multiset(source[..begin])['\n'] && c.endLine == 1 + multiset(source[..finish])['\n']
    && c.path == path && c.language == language && c.contentHash == t.hash(c.code)
  }

  /** The ranges with text, in order. */
  ghost function TextRanges(t: Text, source: string, rs: seq<Range>): (r: seq<Range>)
    requires Within(rs, |source|)
    ensures Within(r, |source|)
  {
    if rs == [] then []
    else
      assert rs[|rs| - 1] in rs;
      TextRanges(t, source, rs[..|rs| - 1]) + if HasText(t, source, rs[|rs| - 1]) then [rs[|rs| - 1]] else []
  }

  lemma TrimmedKeepsText(t: Text, source: string, r: Range)
    requires 0 <= r.lo <= r.hi <= |source|
    ensures Kept(t, source, Trimmed(t, source, r.lo, r.hi)) <==> HasText(t, source, r)
  {
    var p := Trimmed(t, source, r.lo, r.hi);
    if HasText(t, source, r) {
      var k :| r.lo <= k < r.hi && !t.space(source[k]) && source[k] !in {'{', '}', ';'};
      TrimmedLosesSpaceOnly(t, source, r.lo, r.hi, k);
      assert !Braces(source[k]);
    }
  }

  lemma TrimmedIsText(t: Text, path: string, language: string, source: string, r: Range)
    requires 0 <= r.lo <= r.hi <= |source| && HasText(t, source, r)
    ensures IsTextOf(t, path, language, source, r, ChunkAt(t, path, language, source, Trimmed(t, source, r.lo, r.hi)))
  {
    var p := Trimmed(t, source, r.lo, r.hi);
    var c := ChunkAt(t, path, language, source, p);
    TrimmedKeepsText(t, source, r);
    TrimmedEdges(t, source, r.lo, r.hi);
    forall k | r.lo <= k < p.begin || p.finish <= k < r.hi
      ensures t.space(source[k])
    {
      TrimmedLosesSpaceOnly(t, source, r.lo, r.hi, k);
    }
    NewlinesCount(source[..p.begin]);
    NewlinesCount(source[..p.finish]);
    assert IsTextAt(t, path, language, source, r, c, p.begin, p.finish);
  }

  /** One chunk for each range with text, in the order of the ranges, and no other: the range's text without
      the white space around it, on the lines it stands on, counted from 1. */
  lemma {:induction false} ChunksAreTheRangesTexts(t: Text, path: string, language: string, source: string, rs: seq<Range>)
    requires Within(rs, |source|)
    ensures var cs, texts := ChunksOf(t, path, language, source, rs), TextRanges(t, source, rs);
            |cs| == |texts| && forall i :: 0 <= i < |cs| ==> IsTextOf(t, path, language, source, texts[i], cs[i])
    decreases |rs|
  {
    if rs != [] {
      var front, r := rs[..|rs| - 1], rs[|rs| - 1];
      assert r in rs && Within(front, |source|);
      ChunksAreTheRangesTexts(t, path, language, source, front);
      ChunksOfStep(t, path, language, source, rs, |rs| - 1);
      assert rs[..|rs|] == rs;
      TrimmedKeepsText(t, source, r);
      if HasText(t, source, r) { TrimmedIsText(t, path, language, source, r); }
    }
  }
}
