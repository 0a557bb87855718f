/** `score_chunks` of lci-core/src/lexical.rs: one pass over the credited lines, against counting the
    lines of each chunk and term. */
module ChunkScoring {
  import opened Masks
  import opened Bm25
  import opened Scoring
  import opened IndexSets
  import opened Numbers

  /** What the pass gathers of one chunk. */
  datatype Evidence = Evidence(perTerm: seq<nat>, creditedLines: nat)

  /** What a score is computed from besides the lines. */
  datatype Weights = Weights(selected: seq<nat>, idf: nat -> real, lengths: seq<nat>)

  function Scored(lines: seq<CreditedLine>, w: Weights, c: nat): ScoredChunk
    requires Within(w.selected, WIDTH)
  {
    ScoredChunk(c, ScoreOf(lines, c, w.selected, w.idf, LengthOf(w.lengths, c), AverageLength(w.lengths)),
      CreditedLinesOf(lines, c, w.selected))
  }

  // ---------------------------------------------------------------- the pass over the lines

  method SelectedMask(selected: seq<nat>) returns (mask: Mask)
    requires Within(selected, WIDTH)
    ensures forall t: nat :: t < WIDTH ==> (mask[t] <==> t in selected)
  {
    mask := Zero();
    for i := 0 to |selected|
      invariant forall t: nat :: t < WIDTH ==> (mask[t] <==> t in selected[..i])
    {
      mask := Or(mask, Bit(selected[i]));
      assert selected[..i + 1] == selected[..i] + [selected[i]];
    }
    assert selected[..|selected|] == selected;
  }

  /** The evidence of each chunk counts its lines; chunks without a scoring line have none. */
  ghost predicate Gathered(evidence: map<nat, Evidence>, lines: seq<CreditedLine>, selected: seq<nat>)
    requires Within(selected, MAX_QUERY_TERMS)
  {
    && (forall c: nat :: c in evidence <==> CreditedLinesOf(lines, c, selected) > 0)
    && (forall c <- evidence :: EvidenceRight(evidence[c], lines, selected, c))
  }

  ghost predicate EvidenceRight(e: Evidence, lines: seq<CreditedLine>, selected: seq<nat>, c: nat)
    requires Within(selected, MAX_QUERY_TERMS)
  {
    && |e.perTerm| == MAX_QUERY_TERMS && e.creditedLines == CreditedLinesOf(lines, c, selected)
    && forall i :: 0 <= i < |selected| ==> e.perTerm[selected[i]] == CountOf(lines, c, selected[i])
  }

  lemma {:induction false} NoScoringLineNoCount(lines: seq<CreditedLine>, c: nat, selected: seq<nat>, i: nat)
    requires Within(selected, WIDTH) && i < |selected| && CreditedLinesOf(lines, c, selected) == 0
    ensures CountOf(lines, c, selected[i]) == 0
    decreases |lines|
  {
    if lines != [] { NoScoringLineNoCount(lines[..|lines| - 1], c, selected, i); }
  }

  /** Adds one scoring line to the evidence of its chunk. */
  method AddLine(e: Evidence, scoring: Mask, selected: seq<nat>) returns (r: Evidence)
    requires Within(selected, MAX_QUERY_TERMS) && |e.perTerm| == MAX_QUERY_TERMS
    requires forall i, j :: 0 <= i < j < |selected| ==> selected[i] != selected[j]
    ensures |r.perTerm| == MAX_QUERY_TERMS && r.creditedLines == e.creditedLines + 1
    ensures forall i :: 0 <= i < |selected| ==>
              r.perTerm[selected[i]] == e.perTerm[selected[i]] + if scoring[selected[i]] then 1 else 0
  {
    var counts := e.perTerm;
    for k := 0 to |selected|
      invariant |counts| == MAX_QUERY_TERMS
      invariant forall i :: 0 <= i < k ==>
                  counts[selected[i]] == e.perTerm[selected[i]] + if scoring[selected[i]] then 1 else 0
      invariant forall i :: k <= i < |selected| ==> counts[selected[i]] == e.perTerm[selected[i]]
    {
      HasIsBit(scoring, selected[k]);
      if Has(scoring, selected[k]) { counts := counts[selected[k] := counts[selected[k]] + 1]; }
    }
    r := Evidence(counts, e.creditedLines + 1);
  }

  lemma ScoringBits(line: CreditedLine, mask: Mask, selected: seq<nat>)
    requires Within(selected, MAX_QUERY_TERMS)
    requires forall t: nat :: t < WIDTH ==> (mask[t] <==> t in selected)
    ensures And(line.mask, mask) == Zero() <==> !Scores(line, selected)
    ensures forall i :: 0 <= i < |selected| ==> And(line.mask, mask)[selected[i]] == line.mask[selected[i]]
  {
    var scoring := And(line.mask, mask);
    ZeroIffNoBits(scoring);
    forall i | 0 <= i < |selected|
      ensures scoring[selected[i]] == line.mask[selected[i]]
    {
      assert selected[i] in selected;
    }
    if scoring != Zero() {
      var t :| 0 <= t < WIDTH && scoring[t];
      var i :| 0 <= i < |selected| && selected[i] == t;
    }
  }

  lemma LineGathered(evidence: map<nat, Evidence>, lines: seq<CreditedLine>, line: CreditedLine, selected: seq<nat>,
    after: map<nat, Evidence>)
    requires Within(selected, MAX_QUERY_TERMS) && Gathered(evidence, lines, selected)
    requires if Scores(line, selected) then
               && after.Keys == evidence.Keys + {line.chunk}
               && (forall c <- evidence :: c != line.chunk ==> after[c] == evidence[c])
               && EvidenceRight(after[line.chunk], lines + [line], selected, line.chunk)
             else after == evidence
    ensures Gathered(after, lines + [line], selected)
  {
  }

  lemma LineCounted(e: Evidence, r: Evidence, lines: seq<CreditedLine>, line: CreditedLine, selected: seq<nat>)
    requires Within(selected, MAX_QUERY_TERMS) && Scores(line, selected)
    requires EvidenceRight(e, lines, selected, line.chunk)
    requires |r.perTerm| == MAX_QUERY_TERMS && r.creditedLines == e.creditedLines + 1
    requires forall i :: 0 <= i < |selected| ==>
               r.perTerm[selected[i]] == e.perTerm[selected[i]] + if line.mask[selected[i]] then 1 else 0
    ensures EvidenceRight(r, lines + [line], selected, line.chunk)
  {
  }

  lemma FirstEvidence(lines: seq<CreditedLine>, selected: seq<nat>, c: nat, e: Evidence)
    requires Within(selected, MAX_QUERY_TERMS) && CreditedLinesOf(lines, c, selected) == 0
    requires e.creditedLines == 0 && |e.perTerm| == MAX_QUERY_TERMS
    requires forall t :: 0 <= t < MAX_QUERY_TERMS ==> e.perTerm[t] == 0
    ensures EvidenceRight(e, lines, selected, c)
  {
  }

  method Gather(lines: seq<CreditedLine>, selected: seq<nat>) returns (evidence: map<nat, Evidence>)
    requires Within(selected, MAX_QUERY_TERMS)
    requires forall i, j :: 0 <= i < j < |selected| ==> selected[i] != selected[j]
    ensures Gathered(evidence, lines, selected)
  {
    var selectedMask := SelectedMask(selected);
    evidence := map[];
    for k := 0 to |lines|
      invariant Gathered(evidence, lines[..k], selected)
    {
      var line := lines[k];
      var scoring := And(line.mask, selectedMask);
      ghost var before := evidence;
      ScoringBits(line, selectedMask, selected);
      if scoring != Zero() {
        var none := Evidence(seq(MAX_QUERY_TERMS, i => 0), 0);
        var e := if line.chunk in evidence then evidence[line.chunk] else none;
        if line.chunk !in evidence { FirstEvidence(lines[..k], selected, line.chunk, none); }
        var r := AddLine(e, scoring, selected);
        LineCounted(e, r, lines[..k], line, selected);
        evidence := evidence[line.chunk := r];
      }
      LineGathered(before, lines[..k], line, selected, evidence);
      assert lines[..k + 1] == lines[..k] + [line];
    }
    assert lines[..|lines|] == lines;
  }

  // ---------------------------------------------------------------- scores

  lemma NothingScoresNothing(idf: real, length: real, average: real)
    requires length >= 0.0 && average > 0.0
    ensures TermScore(idf, 0, length, average) == 0.0
  {
  }

  /** The sum over the selected terms with a line in the chunk. */
  method ScoreEvidence(e: Evidence, w: Weights, c: nat, ghost lines: seq<CreditedLine>) returns (score: real)
    requires Within(w.selected, MAX_QUERY_TERMS) && EvidenceRight(e, lines, w.selected, c)
    ensures score == Scored(lines, w, c).score
  {
    var length, average := LengthOf(w.lengths, c), AverageLength(w.lengths);
    score := 0.0;
    for i := 0 to |w.selected|
      invariant score == ScoreOf(lines, c, w.selected[..i], w.idf, length, average)
    {
      var t := w.selected[i];
      assert w.selected[..i + 1][..i] == w.selected[..i];
      if e.perTerm[t] > 0 {
        score := score + TermScore(w.idf(t), e.perTerm[t], length, average);
      } else {
        NothingScoresNothing(w.idf(t), length, average);
      }
    }
    assert w.selected[..|w.selected|] == w.selected;
  }

  /** Higher scores first, then lower chunk indices. */
  predicate Better(a: ScoredChunk, b: ScoredChunk) {
    a.score > b.score || (a.score == b.score && a.chunk < b.chunk)
  }

  ghost predicate Ranked(s: seq<ScoredChunk>) {
    forall i, j :: 0 <= i < j < |s| ==> Better(s[i], s[j])
  }

  method InsertScored(s: seq<ScoredChunk>, x: ScoredChunk) returns (r: seq<ScoredChunk>)
    requires Ranked(s) && forall i :: 0 <= i < |s| ==> s[i].chunk != x.chunk
    ensures Ranked(r) && forall y :: y in r <==> y in s || y == x
  {
    var k := |s|;
    while k > 0 && Better(x, s[k - 1])
      invariant 0 <= k <= |s| && forall i :: k <= i < |s| ==> Better(x, s[i])
    {
      k := k - 1;
    }
    r := s[..k] + [x] + s[k..];
    InsertedRanked(s, x, k);
    assert s == s[..k] + s[k..];
  }

  lemma InsertedRanked(s: seq<ScoredChunk>, x: ScoredChunk, k: nat)
    requires Ranked(s) && k <= |s| && (k > 0 ==> Better(s[k - 1], x))
    requires forall i :: k <= i < |s| ==> Better(x, s[i])
    ensures Ranked(s[..k] + [x] + s[k..])
  {
    forall i | 0 <= i < k
      ensures Better(s[i], x)
    {
      if i < k - 1 { assert Better(s[i], s[k - 1]); }
    }
  }

  /** The answer: every chunk with a scoring line, once, with its score, best first. */
  ghost predicate IsScoring(out: seq<ScoredChunk>, lines: seq<CreditedLine>, w: Weights)
    requires Within(w.selected, WIDTH)
  {
    && Ranked(out)
    && (forall i :: 0 <= i < |out| ==> out[i] == Scored(lines, w, out[i].chunk))
    && (forall c: nat :: (exists i :: 0 <= i < |out| && out[i].chunk == c) <==> CreditedLinesOf(lines, c, w.selected) > 0)
  }

  method RankEvidence(evidence: map<nat, Evidence>, w: Weights, ghost lines: seq<CreditedLine>)
    returns (out: seq<ScoredChunk>)
    requires Within(w.selected, MAX_QUERY_TERMS) && Gathered(evidence, lines, w.selected)
    ensures Ranked(out)
    ensures forall x :: x in out <==> CreditedLinesOf(lines, x.chunk, w.selected) > 0 && x == Scored(lines, w, x.chunk)
  {
    out := [];
    var rest := evidence.Keys;
    while rest != {}
      invariant rest <= evidence.Keys && Ranked(out)
      invariant forall x :: x in out <==> x.chunk in evidence.Keys - rest && x == Scored(lines, w, x.chunk)
      decreases rest
    {
      var c :| c in rest;
      var score := ScoreEvidence(evidence[c], w, c, lines);
      assert EvidenceRight(evidence[c], lines, w.selected, c);
      forall i | 0 <= i < |out|
        ensures out[i].chunk != c
      {
        assert out[i] in out;
      }
      out := InsertScored(out, ScoredChunk(c, score, evidence[c].creditedLines));
      rest := rest - {c};
    }
  }

  /** What `score_chunks` means: count files, select terms, and score every chunk with a scoring line. */
  ghost predicate ScoredFrom(termCount: nat, totalFiles: nat, lengths: seq<nat>, lines: seq<CreditedLine>,
    ln: real -> real, frequencies: seq<nat>, selection: seq<nat>, out: seq<ScoredChunk>)
  {
    && |frequencies| == Min(termCount, MAX_QUERY_TERMS)
    && (forall t :: 0 <= t < |frequencies| ==> frequencies[t] == DocumentFrequency(lines, t))
    && Selection(frequencies, totalFiles, selection)
    && IsScoring(out, lines, WeightsOf(selection, frequencies, totalFiles, lengths, ln))
  }

  method ScoreChunks(termCount: nat, totalFiles: nat, lengths: seq<nat>, lines: seq<CreditedLine>, ln: real -> real)
    returns (out: seq<ScoredChunk>, frequencies: seq<nat>, selection: seq<nat>)
    ensures ScoredFrom(termCount, totalFiles, lengths, lines, ln, frequencies, selection, out)
  {
    frequencies := DocumentFrequencies(termCount, lines);
    selection := SelectTerms(frequencies, totalFiles);
    var w := WeightsOf(selection, frequencies, totalFiles, lengths, ln);
    var evidence := Gather(lines, selection);
    out := RankEvidence(evidence, w, lines);
    RankedIsScoring(out, lines, w);
  }

  function WeightsOf(selected: seq<nat>, frequencies: seq<nat>, totalFiles: nat, lengths: seq<nat>, ln: real -> real): Weights {
    Weights(selected,
      (t: nat) => if t < |frequencies| then InverseDocumentFrequency(ln, frequencies[t], totalFiles) else 0.0, lengths)
  }

  lemma RankedIsScoring(out: seq<ScoredChunk>, lines: seq<CreditedLine>, w: Weights)
    requires Within(w.selected, WIDTH) && Ranked(out)
    requires forall x :: x in out <==> CreditedLinesOf(lines, x.chunk, w.selected) > 0 && x == Scored(lines, w, x.chunk)
    ensures IsScoring(out, lines, w)
  {
    forall i | 0 <= i < |out|
      ensures out[i] == Scored(lines, w, out[i].chunk) && CreditedLinesOf(lines, out[i].chunk, w.selected) > 0
    {
      assert out[i] in out;
    }
    forall c: nat | CreditedLinesOf(lines, c, w.selected) > 0
      ensures exists i :: 0 <= i < |out| && out[i].chunk == c
    {
      assert Scored(lines, w, c) in out;
    }
  }

  // ---------------------------------------------------------------- the order of the lines

  lemma {:induction false} CountsSplit(xs: seq<CreditedLine>, ys: seq<CreditedLine>, c: nat, t: nat, selected: seq<nat>)
    requires t < WIDTH && Within(selected, WIDTH)
    ensures CountOf(xs + ys, c, t) == CountOf(xs, c, t) + CountOf(ys, c, t)
    ensures CreditedLinesOf(xs + ys, c, selected) == CreditedLinesOf(xs, c, selected) + CreditedLinesOf(ys, c, selected)
    decreases |ys|
  {
    if ys == [] {
      assert xs + ys == xs;
    } else {
      assert (xs + ys)[..|xs + ys| - 1] == xs + ys[..|ys| - 1];
      CountsSplit(xs, ys[..|ys| - 1], c, t, selected);
    }
  }

  lemma TakeOut(ys: seq<CreditedLine>, k: nat, c: nat, t: nat, selected: seq<nat>)
    requires k < |ys| && t < WIDTH && Within(selected, WIDTH)
    ensures var rest := ys[..k] + ys[k + 1..];
            && CountOf(ys, c, t) == CountOf(rest, c, t) + CountOf([ys[k]], c, t)
            && CreditedLinesOf(ys, c, selected) == CreditedLinesOf(rest, c, selected) + CreditedLinesOf([ys[k]], c, selected)
            && multiset(rest) == multiset(ys) - multiset{ys[k]}
  {
    var before, after := ys[..k], ys[k + 1..];
    assert ys == before + ([ys[k]] + after);
    CountsSplit(before, after, c, t, selected);
    CountsSplit(before, [ys[k]] + after, c, t, selected);
    CountsSplit([ys[k]], after, c, t, selected);
  }

  lemma FindsFirst(xs: seq<CreditedLine>, ys: seq<CreditedLine>) returns (k: nat)
    requires multiset(xs) == multiset(ys) && xs != []
    ensures k < |ys| && ys[k] == xs[0]
  {
    assert xs[0] in multiset(ys);
    k :| 0 <= k < |ys| && ys[k] == xs[0];
  }

  lemma BothEmpty(ys: seq<CreditedLine>)
    requires multiset(ys) == multiset{}
    ensures ys == []
  {
    assert |multiset(ys)| == |ys|;
  }

  lemma {:induction false} CountsIgnoreOrder(xs: seq<CreditedLine>, ys: seq<CreditedLine>, c: nat, t: nat, selected: seq<nat>)
    requires multiset(xs) == multiset(ys) && t < WIDTH && Within(selected, WIDTH)
    ensures CountOf(xs, c, t) == CountOf(ys, c, t)
    ensures CreditedLinesOf(xs, c, selected) == CreditedLinesOf(ys, c, selected)
    decreases |xs|
  {
    if xs == [] {
      BothEmpty(ys);
    } else {
      var k := FindsFirst(xs, ys);
      TakeOut(xs, 0, c, t, selected);
      TakeOut(ys, k, c, t, selected);
      CountsIgnoreOrder(xs[..0] + xs[1..], ys[..k] + ys[k + 1..], c, t, selected);
    }
  }

  lemma {:induction false} ScoreIgnoresOrder(xs: seq<CreditedLine>, ys: seq<CreditedLine>, c: nat, selected: seq<nat>,
    idf: nat -> real, length: real, average: real)
    requires multiset(xs) == multiset(ys) && Within(selected, WIDTH) && length >= 0.0 && average > 0.0
    ensures ScoreOf(xs, c, selected, idf, length, average) == ScoreOf(ys, c, selected, idf, length, average)
    decreases |selected|
  {
    if selected != [] {
      var front := selected[..|selected| - 1];
      ScoreIgnoresOrder(xs, ys, c, front, idf, length, average);
      CountsIgnoreOrder(xs, ys, c, selected[|selected| - 1], selected);
    }
  }

  lemma {:induction false} RankedUnique(s: seq<ScoredChunk>, t: seq<ScoredChunk>)
    requires Ranked(s) && Ranked(t) && forall x :: x in s <==> x in t
    ensures s == t
    decreases |s|
  {
    assert t != [] ==> t[0] in t;
    if s != [] {
      assert s[0] in s && s[0] in t;
      assert t[0] in t && t[0] in s;
      assert s[0] == t[0];
      HeadNotInTail(s);
      HeadNotInTail(t);
      TailMembers(s);
      TailMembers(t);
      RankedUnique(s[1..], t[1..]);
      assert s == [s[0]] + s[1..] && t == [t[0]] + t[1..];
    }
  }

  lemma TailMembers<T>(s: seq<T>)
    requires s != [] && s[0] !in s[1..]
    ensures forall x :: x in s[1..] <==> x in s && x != s[0]
  {
  }

  lemma HeadNotInTail(s: seq<ScoredChunk>)
    requires Ranked(s) && s != []
    ensures s[0] !in s[1..]
  {
  }

  /** The answer depends on which lines there are, not on the order they come in. */
  lemma ScoringIgnoresLineOrder(xs: seq<CreditedLine>, ys: seq<CreditedLine>, w: Weights,
    out: seq<ScoredChunk>, out': seq<ScoredChunk>)
    requires multiset(xs) == multiset(ys) && Within(w.selected, WIDTH)
    requires IsScoring(out, xs, w) && IsScoring(out', ys, w)
    ensures out == out'
  {
    forall c: nat
      ensures Scored(xs, w, c) == Scored(ys, w, c)
    {
      CountsIgnoreOrder(xs, ys, c, 0, w.selected);
      ScoreIgnoresOrder(xs, ys, c, w.selected, w.idf, LengthOf(w.lengths, c), AverageLength(w.lengths));
    }
    forall x
      ensures x in out <==> x in out'
    {
      ScoringMembers(xs, w, out, x);
      ScoringMembers(ys, w, out', x);
    }
    RankedUnique(out, out');
  }

  lemma ScoringMembers(lines: seq<CreditedLine>, w: Weights, out: seq<ScoredChunk>, x: ScoredChunk)
    requires Within(w.selected, WIDTH) && IsScoring(out, lines, w)
    ensures x in out <==> x == Scored(lines, w, x.chunk) && x.creditedLines > 0
  {
  }

  /** And the terms that score are the same too: document frequencies count files. */
  lemma FrequenciesIgnoreOrder(xs: seq<CreditedLine>, ys: seq<CreditedLine>, t: nat)
    requires multiset(xs) == multiset(ys) && t < WIDTH
    ensures DocumentFrequency(xs, t) == DocumentFrequency(ys, t)
  {
    forall f: nat
      ensures f in FilesOf(xs, t) <==> f in FilesOf(ys, t)
    {
      assert forall l :: l in xs <==> l in multiset(xs);
      assert forall l :: l in ys <==> l in multiset(ys);
    }
    assert FilesOf(xs, t) == FilesOf(ys, t);
  }

  lemma SelectionUnique(frequencies: seq<nat>, totalFiles: nat, s: seq<nat>, t: seq<nat>)
    requires Selection(frequencies, totalFiles, s) && Selection(frequencies, totalFiles, t)
    ensures s == t
  {
    forall x
      ensures x in s <==> x in t
    {
      if x in s { SelectionSubset(frequencies, totalFiles, s, t, x); }
      if x in t { SelectionSubset(frequencies, totalFiles, t, s, x); }
    }
    SortedUnique(frequencies, s, t);
  }

  lemma {:induction false} SortedUnique(frequencies: seq<nat>, s: seq<nat>, t: seq<nat>)
    requires Within(s, |frequencies|) && Within(t, |frequencies|)
    requires SortedByRarity(frequencies, s) && SortedByRarity(frequencies, t)
    requires forall x :: x in s <==> x in t
    ensures s == t
    decreases |s|
  {
    assert t != [] ==> t[0] in t;
    if s != [] {
      assert s[0] in s && s[0] in t;
      assert t[0] in t && t[0] in s;
      assert s[0] == t[0];
      assert s[0] !in s[1..] && t[0] !in t[1..];
      TailMembers(s);
      TailMembers(t);
      SortedUnique(frequencies, s[1..], t[1..]);
      assert s == [s[0]] + s[1..] && t == [t[0]] + t[1..];
    }
  }

  /** Every term of `t` is rarer than one that `t` left out, so `s`, which has that one, has them all. */
  lemma LeftOutIsCommoner(frequencies: seq<nat>, totalFiles: nat, s: seq<nat>, t: seq<nat>, k: nat, i: nat)
    requires Selection(frequencies, totalFiles, s) && Selection(frequencies, totalFiles, t)
    requires k < |s| && s[k] !in t && i < |t|
    ensures t[i] in s && t[i] != s[k]
  {
    assert t[i] in t && s[k] in s;
    assert Rarer(frequencies, t[i], s[k]);
  }

  lemma OthersAreIn(frequencies: seq<nat>, totalFiles: nat, s: seq<nat>, t: seq<nat>, x: nat)
    requires Selection(frequencies, totalFiles, s) && Selection(frequencies, totalFiles, t)
    requires x in s && x !in t
    ensures Elements(t) <= Elements(s) - {x}
  {
    var k :| 0 <= k < |s| && s[k] == x;
    forall y <- Elements(t)
      ensures y in Elements(s) - {x}
    {
      var i :| 0 <= i < |t| && t[i] == y;
      LeftOutIsCommoner(frequencies, totalFiles, s, t, k, i);
    }
  }

  lemma SelectionSubset(frequencies: seq<nat>, totalFiles: nat, s: seq<nat>, t: seq<nat>, x: nat)
    requires Selection(frequencies, totalFiles, s) && Selection(frequencies, totalFiles, t) && x in s
    ensures x in t
  {
    if x !in t {
      OthersAreIn(frequencies, totalFiles, s, t, x);
      SubsetSize(Elements(t), Elements(s) - {x});
      DistinctSize(frequencies, s);
      DistinctSize(frequencies, t);
    }
  }

  lemma DistinctSize(frequencies: seq<nat>, s: seq<nat>)
    requires Within(s, |frequencies|) && SortedByRarity(frequencies, s)
    ensures |Elements(s)| == |s|
  {
    forall i, j | 0 <= i < j < |s|
      ensures s[i] != s[j]
    {
      assert Rarer(frequencies, s[i], s[j]);
    }
    ElementCount(s);
  }

  /** The whole answer is one function of which lines are credited: no order of the lines, and no order
      the chunks and files are gone through in, changes it. */
  lemma ScoreChunksIgnoresLineOrder(termCount: nat, totalFiles: nat, lengths: seq<nat>, ln: real -> real,
    xs: seq<CreditedLine>, frequencies: seq<nat>, selection: seq<nat>, out: seq<ScoredChunk>,
    ys: seq<CreditedLine>, frequencies': seq<nat>, selection': seq<nat>, out': seq<ScoredChunk>)
    requires multiset(xs) == multiset(ys)
    requires ScoredFrom(termCount, totalFiles, lengths, xs, ln, frequencies, selection, out)
    requires ScoredFrom(termCount, totalFiles, lengths, ys, ln, frequencies', selection', out')
    ensures frequencies == frequencies' && selection == selection' && out == out'
  {
    forall t: nat | t < |frequencies|
      ensures frequencies[t] == frequencies'[t]
    {
      FrequenciesIgnoreOrder(xs, ys, t);
    }
    assert frequencies == frequencies';
    SelectionUnique(frequencies, totalFiles, selection, selection');
    ScoringIgnoresLineOrder(xs, ys, WeightsOf(selection, frequencies, totalFiles, lengths, ln), out, out');
  }
}
