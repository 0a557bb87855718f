/** Lexical scoring of chunks: `document_frequencies`, `select_terms` and `score_chunks` of
    lci-core/src/lexical.rs, over the reals. */
module Scoring {
  import opened Masks
  import opened Numbers
  import opened IndexSets
  import opened Bm25

  const MAX_SCORING_TERMS: nat := 12
  const MAX_DOCUMENT_FREQUENCY: real := 0.25

  datatype CreditedLine = CreditedLine(file: nat, chunk: nat, mask: Mask)

  datatype ScoredChunk = ScoredChunk(chunk: nat, score: real, creditedLines: nat)

  // ---------------------------------------------------------------- document frequencies

  /** The files in which term `t` is credited on some line. */
  function FilesOf(lines: seq<CreditedLine>, t: nat): set<nat>
    requires t < WIDTH
  {
    set l <- lines | l.mask[t] :: l.file
  }

  function DocumentFrequency(lines: seq<CreditedLine>, t: nat): nat
    requires t < WIDTH
  {
    |FilesOf(lines, t)|
  }

  function Files(lines: seq<CreditedLine>): set<nat> {
    set l <- lines :: l.file
  }

  /** Each file's mask holds the terms credited anywhere in it. */
  ghost predicate Masked(masks: map<nat, Mask>, lines: seq<CreditedLine>) {
    && masks.Keys == Files(lines)
    && forall f <- masks, t: nat :: t < WIDTH ==> (masks[f][t] <==> f in FilesOf(lines, t))
  }

  method FileMasks(lines: seq<CreditedLine>) returns (masks: map<nat, Mask>)
    ensures Masked(masks, lines)
  {
    masks := map[];
    for i := 0 to |lines|
      invariant Masked(masks, lines[..i])
    {
      var line := lines[i];
      FileMaskStep(lines[..i], line, masks);
      masks := masks[line.file := Or(if line.file in masks then masks[line.file] else Zero(), line.mask)];
      assert lines[..i + 1] == lines[..i] + [line];
    }
    assert lines[..|lines|] == lines;
  }

  lemma FileMaskStep(seen: seq<CreditedLine>, line: CreditedLine, masks: map<nat, Mask>)
    requires Masked(masks, seen)
    ensures Masked(masks[line.file := Or(if line.file in masks then masks[line.file] else Zero(), line.mask)],
              seen + [line])
  {
    var after := masks[line.file := Or(if line.file in masks then masks[line.file] else Zero(), line.mask)];
    assert line in seen + [line] && forall l <- seen :: l in seen + [line];
    assert Files(seen + [line]) == Files(seen) + {line.file};
    forall f <- after, t: nat | t < WIDTH
      ensures after[f][t] <==> f in FilesOf(seen + [line], t)
    {
      FilesOfStep(seen, line, t);
      assert FilesOf(seen, t) <= Files(seen);
    }
  }

  lemma FilesOfStep(seen: seq<CreditedLine>, line: CreditedLine, t: nat)
    requires t < WIDTH
    ensures FilesOf(seen + [line], t) == FilesOf(seen, t) + if line.mask[t] then {line.file} else {}
  {
  }

  /** Adds one file's terms to the counts. */
  method CountFile(frequencies: seq<nat>, mask: Mask) returns (r: seq<nat>)
    requires |frequencies| <= WIDTH
    ensures |r| == |frequencies|
    ensures forall t :: 0 <= t < |r| ==> r[t] == frequencies[t] + if mask[t] then 1 else 0
  {
    r := frequencies;
    for t := 0 to |frequencies|
      invariant |r| == |frequencies|
      invariant forall u :: 0 <= u < t ==> r[u] == frequencies[u] + if mask[u] then 1 else 0
      invariant forall u :: t <= u < |r| ==> r[u] == frequencies[u]
    {
      HasIsBit(mask, t);
      if Has(mask, t) { r := r[t := r[t] + 1]; }
    }
  }

  /** The counts so far: of the files in `counted`. */
  ghost predicate Tallied(frequencies: seq<nat>, lines: seq<CreditedLine>, counted: set<nat>) {
    |frequencies| <= WIDTH && forall t :: 0 <= t < |frequencies| ==> frequencies[t] == |counted * FilesOf(lines, t)|
  }

  lemma OneMoreFile(before: seq<nat>, after: seq<nat>, lines: seq<CreditedLine>, counted: set<nat>, f: nat, mask: Mask)
    requires Tallied(before, lines, counted) && f !in counted && |after| == |before|
    requires forall t: nat :: t < WIDTH ==> (mask[t] <==> f in FilesOf(lines, t))
    requires forall t :: 0 <= t < |after| ==> after[t] == before[t] + if mask[t] then 1 else 0
    ensures Tallied(after, lines, counted + {f})
  {
    forall t: nat | t < |after|
      ensures after[t] == |(counted + {f}) * FilesOf(lines, t)|
    {
      CountWithOne(FilesOf(lines, t), counted, f);
      assert FilesOf(lines, t) * (counted + {f}) == (counted + {f}) * FilesOf(lines, t);
      assert FilesOf(lines, t) * counted == counted * FilesOf(lines, t);
    }
  }

  /** Counts the files one mask at a time, in any order. */
  method CountFiles(masks: map<nat, Mask>, n: nat, ghost lines: seq<CreditedLine>) returns (frequencies: seq<nat>)
    requires Masked(masks, lines) && n <= WIDTH
    ensures |frequencies| == n && Tallied(frequencies, lines, Files(lines))
  {
    frequencies := seq(n, t => 0);
    var rest := masks.Keys;
    ghost var counted: set<nat> := {};
    while rest != {}
      invariant rest <= masks.Keys && counted !! rest && counted + rest == masks.Keys
      invariant |frequencies| == n && Tallied(frequencies, lines, counted)
      decreases rest
    {
      var f :| f in rest;
      var after := CountFile(frequencies, masks[f]);
      OneMoreFile(frequencies, after, lines, counted, f, masks[f]);
      frequencies := after;
      rest := rest - {f};
      counted := counted + {f};
    }
  }

  /** In how many distinct files each term is credited; at most 24 terms are tracked. */
  method DocumentFrequencies(termCount: nat, lines: seq<CreditedLine>) returns (frequencies: seq<nat>)
    ensures |frequencies| == Min(termCount, MAX_QUERY_TERMS)
    ensures forall t :: 0 <= t < |frequencies| ==> frequencies[t] == DocumentFrequency(lines, t)
  {
    var masks := FileMasks(lines);
    frequencies := CountFiles(masks, Min(termCount, MAX_QUERY_TERMS), lines);
    forall t: nat | t < |frequencies|
      ensures frequencies[t] == DocumentFrequency(lines, t)
    {
      assert Files(lines) * FilesOf(lines, t) == FilesOf(lines, t);
    }
  }

  // ---------------------------------------------------------------- the terms that score

  ghost predicate Within(s: seq<nat>, n: nat) {
    forall i :: 0 <= i < |s| ==> s[i] < n
  }

  ghost predicate Ascending(s: seq<nat>) {
    forall i, j :: 0 <= i < j < |s| ==> s[i] < s[j]
  }

  /** Rarer first, then in query order. */
  predicate Rarer(frequencies: seq<nat>, a: nat, b: nat)
    requires a < |frequencies| && b < |frequencies|
  {
    frequencies[a] < frequencies[b] || (frequencies[a] == frequencies[b] && a < b)
  }

  predicate Rare(frequencies: seq<nat>, totalFiles: nat, t: nat)
    requires t < |frequencies|
  {
    frequencies[t] as real <= MAX_DOCUMENT_FREQUENCY * totalFiles as real
  }

  /** The terms below `n` credited in some file, only the rare ones if asked. */
  function CreditedTerms(frequencies: seq<nat>, totalFiles: nat, rareOnly: bool, n: nat): (r: seq<nat>)
    requires n <= |frequencies|
    ensures Within(r, n) && Ascending(r)
    ensures forall t: nat :: t < n ==>
              (t in r <==> frequencies[t] > 0 && (rareOnly ==> Rare(frequencies, totalFiles, t)))
  {
    if n == 0 then []
    else
      var front := CreditedTerms(frequencies, totalFiles, rareOnly, n - 1);
      if frequencies[n - 1] > 0 && (!rareOnly || Rare(frequencies, totalFiles, n - 1)) then front + [n - 1] else front
  }

  /** The terms before the cut to twelve: the rare credited ones, or every credited one when none is rare. */
  function Eligible(frequencies: seq<nat>, totalFiles: nat): (r: seq<nat>)
    ensures Within(r, |frequencies|) && Ascending(r)
  {
    var rare := CreditedTerms(frequencies, totalFiles, true, |frequencies|);
    if rare == [] then CreditedTerms(frequencies, totalFiles, false, |frequencies|) else rare
  }

  ghost predicate SortedByRarity(frequencies: seq<nat>, s: seq<nat>)
    requires Within(s, |frequencies|)
  {
    forall i, j :: 0 <= i < j < |s| ==> Rarer(frequencies, s[i], s[j])
  }

  method InsertByRarity(frequencies: seq<nat>, s: seq<nat>, t: nat) returns (r: seq<nat>)
    requires Within(s, |frequencies|) && SortedByRarity(frequencies, s) && t < |frequencies| && t !in s
    ensures Within(r, |frequencies|) && SortedByRarity(frequencies, r) && |r| == |s| + 1
    ensures forall x :: x in r <==> x in s || x == t
  {
    var k := |s|;
    while k > 0 && Rarer(frequencies, t, s[k - 1])
      invariant 0 <= k <= |s|
      invariant forall i {:trigger s[i]} :: k <= i < |s| ==> Rarer(frequencies, t, s[i])
    {
      k := k - 1;
    }
    InsertedSorted(frequencies, s, t, k);
    r := s[..k] + [t] + s[k..];
    assert s == s[..k] + s[k..];
  }

  lemma InsertedSorted(frequencies: seq<nat>, s: seq<nat>, t: nat, k: nat)
    requires Within(s, |frequencies|) && SortedByRarity(frequencies, s) && t < |frequencies| && t !in s && k <= |s|
    requires k == 0 || !Rarer(frequencies, t, s[k - 1])
    requires forall i {:trigger s[i]} :: k <= i < |s| ==> Rarer(frequencies, t, s[i])
    ensures var r := s[..k] + [t] + s[k..]; Within(r, |frequencies|) && SortedByRarity(frequencies, r)
  {
  }

  /** Which terms score: at most twelve of the eligible ones, and no other eligible term is rarer. */
  ghost predicate Selection(frequencies: seq<nat>, totalFiles: nat, selected: seq<nat>) {
    && Within(selected, |frequencies|) && SortedByRarity(frequencies, selected)
    && (forall t <- selected :: t in Eligible(frequencies, totalFiles))
    && |selected| == Min(|Eligible(frequencies, totalFiles)|, MAX_SCORING_TERMS)
    && (forall t <- Eligible(frequencies, totalFiles), i | t < |frequencies| && t !in selected && 0 <= i < |selected| ::
          Rarer(frequencies, selected[i], t))
  }

  method SelectTerms(frequencies: seq<nat>, totalFiles: nat) returns (selected: seq<nat>)
    ensures Selection(frequencies, totalFiles, selected)
  {
    var eligible := Eligible(frequencies, totalFiles);
    var sorted: seq<nat> := [];
    for i := 0 to |eligible|
      invariant Within(sorted, |frequencies|) && SortedByRarity(frequencies, sorted) && |sorted| == i
      invariant forall x :: x in sorted <==> x in eligible[..i]
    {
      assert eligible[i] !in eligible[..i];
      sorted := InsertByRarity(frequencies, sorted, eligible[i]);
      assert eligible[..i + 1] == eligible[..i] + [eligible[i]];
    }
    assert eligible[..|eligible|] == eligible;
    selected := sorted[..Min(|sorted|, MAX_SCORING_TERMS)];
  }

  // ---------------------------------------------------------------- evidence

  /** How many lines of chunk `c` are credited with term `t`. */
  function CountOf(lines: seq<CreditedLine>, c: nat, t: nat): nat
    requires t < WIDTH
  {
    if lines == [] then 0
    else
      var l := lines[|lines| - 1];
      CountOf(lines[..|lines| - 1], c, t) + if l.chunk == c && l.mask[t] then 1 else 0
  }

  predicate Scores(l: CreditedLine, selected: seq<nat>)
    requires Within(selected, WIDTH)
  {
    exists i :: 0 <= i < |selected| && l.mask[selected[i]]
  }

  /** How many lines of chunk `c` are credited with some scoring term. */
  function CreditedLinesOf(lines: seq<CreditedLine>, c: nat, selected: seq<nat>): nat
    requires Within(selected, WIDTH)
  {
    if lines == [] then 0
    else
      var l := lines[|lines| - 1];
      CreditedLinesOf(lines[..|lines| - 1], c, selected) + if l.chunk == c && Scores(l, selected) then 1 else 0
  }

  /** What the scoring terms add up to, in selection order. */
  function ScoreOf(lines: seq<CreditedLine>, c: nat, selected: seq<nat>, idf: nat -> real, length: real, average: real): real
    requires Within(selected, WIDTH) && length >= 0.0 && average > 0.0
  {
    if selected == [] then 0.0
    else
      var t := selected[|selected| - 1];
      ScoreOf(lines, c, selected[..|selected| - 1], idf, length, average)
      + TermScore(idf(t), CountOf(lines, c, t), length, average)
  }

  function Total(lengths: seq<nat>): real {
    if lengths == [] then 0.0 else Total(lengths[..|lengths| - 1]) + AtLeastOne(lengths[|lengths| - 1])
  }

  function AtLeastOne(length: nat): real {
    if length == 0 then 1.0 else length as real
  }

  lemma {:induction false} TotalAtLeast(lengths: seq<nat>)
    ensures Total(lengths) >= |lengths| as real
  {
    if lengths != [] { TotalAtLeast(lengths[..|lengths| - 1]); }
  }

  function AverageLength(lengths: seq<nat>): (r: real)
    ensures r > 0.0
  {
    if lengths == [] then 1.0
    else
      TotalAtLeast(lengths);
      QuotientLess(0.0, 1.0, Total(lengths), |lengths| as real);
      Total(lengths) / |lengths| as real
  }

  function LengthOf(lengths: seq<nat>, c: nat): (r: real)
    ensures r > 0.0
  {
    if c < |lengths| then AtLeastOne(lengths[c]) else AverageLength(lengths)
  }
}
