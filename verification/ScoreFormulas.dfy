/** The numbers behind a score, each said apart from the functions that compute it. */
module ScoreFormulas {
  import opened Masks
  import opened Bm25
  import opened Scoring
  import opened ChunkScoring

  // ---------------------------------------------------------------- the terms that score

  /** A term may score if some file has it and at most a quarter of the files do; if no term is like that,
      every term some file has may. The twelve rarest do, in that order, the earlier of equally rare ones first. */
  lemma EligibleAreRare(frequencies: seq<nat>, totalFiles: nat, selected: seq<nat>)
    requires Selection(frequencies, totalFiles, selected)
    ensures forall t: nat :: t in Eligible(frequencies, totalFiles) <==>
              && t < |frequencies| && frequencies[t] > 0
              && (4 * frequencies[t] <= totalFiles
                  || forall u :: 0 <= u < |frequencies| ==> frequencies[u] == 0 || 4 * frequencies[u] > totalFiles)
    ensures |selected| == if |Eligible(frequencies, totalFiles)| > 12 then 12 else |Eligible(frequencies, totalFiles)|
    ensures forall i, j :: 0 <= i < j < |selected| ==>
              frequencies[selected[i]] < frequencies[selected[j]]
              || (frequencies[selected[i]] == frequencies[selected[j]] && selected[i] < selected[j])
  {
    forall t: nat | t < |frequencies|
      ensures Rare(frequencies, totalFiles, t) <==> 4 * frequencies[t] <= totalFiles
    {
      AQuarter(frequencies[t], totalFiles);
    }
    var rare := CreditedTerms(frequencies, totalFiles, true, |frequencies|);
    if rare != [] { assert rare[0] in rare; }
  }

  lemma AQuarter(n: nat, total: nat)
    ensures n as real <= 0.25 * total as real <==> 4 * n <= total
  {
    assert 4.0 * n as real == (4 * n) as real;
  }

  // ---------------------------------------------------------------- counts and lengths

  predicate CreditedAt(lines: seq<CreditedLine>, i: int, c: nat, t: nat)
    requires t < WIDTH
  {
    0 <= i < |lines| && lines[i].chunk == c && lines[i].mask[t]
  }

  /** A term counts in a chunk once for each of its lines that has the term. */
  lemma {:induction false} CountsLines(lines: seq<CreditedLine>, n: nat, c: nat, t: nat)
    requires t < WIDTH && n <= |lines|
    ensures CountOf(lines[..n], c, t) == |set i | 0 <= i < n && CreditedAt(lines, i, c, t)|
  {
    if n > 0 {
      CountsLines(lines, n - 1, c, t);
      assert lines[..n][..n - 1] == lines[..n - 1];
      var before := set i | 0 <= i < n - 1 && CreditedAt(lines, i, c, t);
      var now := set i | 0 <= i < n && CreditedAt(lines, i, c, t);
      assert now == if CreditedAt(lines, n - 1, c, t) then before + {n - 1} else before;
    } else {
      assert (set i | 0 <= i < 0 && CreditedAt(lines, i, c, t)) == {};
    }
  }

  predicate ScoringAt(lines: seq<CreditedLine>, i: int, c: nat, selected: seq<nat>)
    requires Within(selected, WIDTH)
  {
    0 <= i < |lines| && lines[i].chunk == c && exists k :: 0 <= k < |selected| && lines[i].mask[selected[k]]
  }

  function ScoringLines(lines: seq<CreditedLine>, n: nat, c: nat, selected: seq<nat>): set<int>
    requires Within(selected, WIDTH)
  {
    set i | 0 <= i < n && ScoringAt(lines, i, c, selected)
  }

  lemma OneMoreScoring(lines: seq<CreditedLine>, n: nat, c: nat, selected: seq<nat>)
    requires Within(selected, WIDTH)
    ensures |ScoringLines(lines, n + 1, c, selected)|
         == |ScoringLines(lines, n, c, selected)| + if ScoringAt(lines, n, c, selected) then 1 else 0
  {
    var before := ScoringLines(lines, n, c, selected);
    assert ScoringLines(lines, n + 1, c, selected) == if ScoringAt(lines, n, c, selected) then before + {n} else before;
  }

  /** And a line is credited once, however many scoring terms it has. */
  lemma {:induction false} CountsScoringLines(lines: seq<CreditedLine>, n: nat, c: nat, selected: seq<nat>)
    requires Within(selected, WIDTH) && n <= |lines|
    ensures CreditedLinesOf(lines[..n], c, selected) == |ScoringLines(lines, n, c, selected)|
  {
    if n > 0 {
      CountsScoringLines(lines, n - 1, c, selected);
      OneMoreScoring(lines, n - 1, c, selected);
      assert lines[..n][..n - 1] == lines[..n - 1];
    } else {
      assert ScoringLines(lines, 0, c, selected) == {};
    }
  }

  /** The lengths added up from the front, an empty chunk counting as one. */
  function Sum(lengths: seq<nat>): nat {
    if lengths == [] then 0 else (if lengths[0] < 1 then 1 else lengths[0]) + Sum(lengths[1..])
  }

  lemma {:induction false} SumOfFront(front: seq<nat>, last: nat)
    ensures Sum(front + [last]) == Sum(front) + if last < 1 then 1 else last
  {
    if front != [] {
      assert (front + [last])[1..] == front[1..] + [last];
      SumOfFront(front[1..], last);
    }
  }

  lemma {:induction false} TotalIsSum(lengths: seq<nat>)
    ensures Total(lengths) == Sum(lengths) as real
  {
    if lengths != [] {
      var front, last := lengths[..|lengths| - 1], lengths[|lengths| - 1];
      assert lengths == front + [last];
      TotalIsSum(front);
      SumOfFront(front, last);
    }
  }

  /** The average length is the mean, or one when there are no chunks. */
  lemma AverageIsTheMean(lengths: seq<nat>)
    ensures AverageLength(lengths) == if lengths == [] then 1.0 else Sum(lengths) as real / |lengths| as real
  {
    TotalIsSum(lengths);
  }

  /** A chunk past the known lengths has the average one, and none is shorter than one. */
  lemma LengthOfChunk(lengths: seq<nat>, c: nat)
    ensures LengthOf(lengths, c)
         == if c >= |lengths| then AverageLength(lengths) else if lengths[c] > 1 then lengths[c] as real else 1.0
  {
  }

  /** A chunk's score adds up over the scoring terms, each by its own count in the chunk. */
  lemma {:induction false} ScoresAddUp(lines: seq<CreditedLine>, c: nat, xs: seq<nat>, ys: seq<nat>, idf: nat -> real,
    length: real, average: real)
    requires Scoring.Within(xs, WIDTH) && Scoring.Within(ys, WIDTH) && length >= 0.0 && average > 0.0
    ensures ScoreOf(lines, c, xs + ys, idf, length, average)
         == ScoreOf(lines, c, xs, idf, length, average) + ScoreOf(lines, c, ys, idf, length, average)
    ensures forall t: nat :: t < WIDTH ==>
              ScoreOf(lines, c, [t], idf, length, average) == TermScore(idf(t), CountOf(lines, c, t), length, average)
    decreases |ys|
  {
    if ys == [] {
      assert xs + ys == xs;
    } else {
      assert (xs + ys)[..|xs + ys| - 1] == xs + ys[..|ys| - 1];
      ScoresAddUp(lines, c, xs, ys[..|ys| - 1], idf, length, average);
    }
    forall t: nat | t < WIDTH
      ensures ScoreOf(lines, c, [t], idf, length, average) == TermScore(idf(t), CountOf(lines, c, t), length, average)
    {
      assert [t][..0] == [];
    }
  }

  /** The answer goes from higher to lower scores, by chunk index among equal ones. */
  lemma AnswersByScore(out: seq<ScoredChunk>, lines: seq<CreditedLine>, w: Weights, i: nat, j: nat)
    requires Scoring.Within(w.selected, WIDTH) && IsScoring(out, lines, w) && i < j < |out|
    ensures out[i].score > out[j].score || (out[i].score == out[j].score && out[i].chunk < out[j].chunk)
  {
  }

  // ---------------------------------------------------------------- the formula

  lemma QuotientTimesDivisor(r: real, a: real, b: real)
    requires b > 0.0 && r == a / b
    ensures r * b == a
  {
  }

  /** The BM25 term of Robertson, with k1 = 1.2 and b = 0.75, multiplied out. */
  lemma TermScoreMultipliedOut(idf: real, tf: nat, length: real, average: real)
    requires length >= 0.0 && average > 0.0
    ensures TermScore(idf, tf, length, average) * (tf as real * average + 0.3 * average + 0.9 * length)
         == 2.2 * idf * tf as real * average
  {
    NormPositive(length, average);
    var n, d := idf * tf as real * 2.2, tf as real + 1.2 * Norm(length, average);
    NormMultipliedOut(length, average);
    assert d * average == tf as real * average + 0.3 * average + 0.9 * length;
    QuotientTimesDivisor(n / d, n, d);
    Regrouped(n / d, d, average, n);
    assert n * average == 2.2 * idf * tf as real * average;
  }

  lemma Regrouped(q: real, d: real, average: real, n: real)
    requires q * d == n
    ensures q * (d * average) == n * average
  {
    assert q * (d * average) == (q * d) * average;
  }

  lemma NormMultipliedOut(length: real, average: real)
    requires average > 0.0
    ensures 1.2 * Norm(length, average) * average == 0.3 * average + 0.9 * length
  {
    var x := 0.75 * length / average;
    QuotientTimesDivisor(x, 0.75 * length, average);
    assert Norm(length, average) == 0.25 + x;
    assert 1.2 * (0.25 + x) * average == 0.3 * average + 1.2 * (x * average);
  }

  /** One line of a term in a chunk of average length scores the term's weight. */
  lemma OneLineScoresTheWeight(idf: real, average: real)
    requires average > 0.0
    ensures TermScore(idf, 1, average, average) == idf
  {
    var x := 0.75 * average / average;
    QuotientTimesDivisor(x, 0.75 * average, average);
    assert (x - 0.75) * average == 0.0;
    assert x == 0.75;
    assert Norm(average, average) == 1.0;
  }

  /** The weight of a term is the logarithm of the files and one more over its files and a half. */
  lemma WeightIsLogOfQuotient(ln: real -> real, documentFrequency: nat, totalFiles: nat)
    ensures InverseDocumentFrequency(ln, documentFrequency, totalFiles)
         == ln((totalFiles as real + 1.0) / (documentFrequency as real + 0.5))
  {
    var df := documentFrequency as real;
    OneMore(totalFiles as real - df + 0.5, df + 0.5);
  }
}
