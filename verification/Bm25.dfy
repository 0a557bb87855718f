/** The BM25 contribution of one term, over the reals: `bm25_term_score` and
    `inverse_document_frequency` of lci-core/src/lexical.rs. */
module Bm25 {
  const BM25_K1: real := 1.2
  const BM25_B: real := 0.75

  function Norm(length: real, average: real): real
    requires average > 0.0
  {
    1.0 - BM25_B + BM25_B * length / average
  }

  function TermScore(idf: real, tf: nat, length: real, average: real): real
    requires length >= 0.0 && average > 0.0
  {
    NormPositive(length, average);
    idf * tf as real * (BM25_K1 + 1.0) / (tf as real + BM25_K1 * Norm(length, average))
  }

  /** `ln` is the natural logarithm. */
  function InverseDocumentFrequency(ln: real -> real, documentFrequency: nat, totalFiles: nat): real {
    var df := documentFrequency as real;
    ln((totalFiles as real - df + 0.5) / (df + 0.5) + 1.0)
  }

  lemma NormPositive(length: real, average: real)
    requires length >= 0.0 && average > 0.0
    ensures Norm(length, average) >= 0.25
  {
  }

  lemma QuotientLess(a: real, b: real, c: real, d: real)
    requires b > 0.0 && d > 0.0 && a * d < c * b
    ensures a / b < c / d
  {
    var x, y := a / b, c / d;
    assert x * b == a && y * d == c;
    assert x * (b * d) == a * d && y * (b * d) == c * b;
    if x >= y { Scaled(y, x, b * d); }
  }

  lemma Scaled(x: real, y: real, p: real)
    requires x <= y && p > 0.0
    ensures x * p <= y * p
  {
  }

  lemma ScaledStrictly(x: real, y: real, p: real)
    requires x < y && p > 0.0
    ensures x * p < y * p
  {
  }

  /** The score as `w * t / (t + k)`. */
  lemma Saturation(idf: real, tf: nat, length: real, average: real) returns (w: real, k: real)
    requires idf > 0.0 && length >= 0.0 && average > 0.0
    ensures w == idf * 2.2 && w > 0.0 && k == 1.2 * Norm(length, average) && k > 0.0
    ensures TermScore(idf, tf, length, average) == w * tf as real / (tf as real + k)
  {
    NormPositive(length, average);
    w, k := idf * 2.2, 1.2 * Norm(length, average);
    assert idf * tf as real * 2.2 == w * tf as real;
  }

  /** More credited lines of a term always score more. */
  lemma RisesWithCount(idf: real, tf: nat, more: nat, length: real, average: real)
    requires idf > 0.0 && tf < more && length >= 0.0 && average > 0.0
    ensures TermScore(idf, tf, length, average) < TermScore(idf, more, length, average)
  {
    var w, k := Saturation(idf, tf, length, average);
    var _, _ := Saturation(idf, more, length, average);
    var t, m := tf as real, more as real;
    ScaledStrictly(t, m, w * k);
    assert w * t * (m + k) == w * t * m + t * (w * k);
    assert w * m * (t + k) == w * t * m + m * (w * k);
    QuotientLess(w * t, t + k, w * m, m + k);
  }

  /** The same lines in a longer chunk score less. */
  lemma FallsWithLength(idf: real, tf: nat, length: real, longer: real, average: real)
    requires idf > 0.0 && 0 < tf && 0.0 <= length < longer && average > 0.0
    ensures TermScore(idf, tf, longer, average) < TermScore(idf, tf, length, average)
  {
    var w, k := Saturation(idf, tf, length, average);
    var w', k' := Saturation(idf, tf, longer, average);
    NormGrows(length, longer, average);
    var a := w * tf as real;
    ScaledStrictly(tf as real + k, tf as real + k', a);
    QuotientLess(a, tf as real + k', a, tf as real + k);
  }

  lemma NormGrows(length: real, longer: real, average: real)
    requires length < longer && average > 0.0
    ensures Norm(length, average) < Norm(longer, average)
  {
    ScaledStrictly(BM25_B * length, BM25_B * longer, average);
    QuotientLess(BM25_B * length, average, BM25_B * longer, average);
  }

  /** However many lines, a term scores less than 2.2 times its inverse document frequency, and with any
      line more than nothing. */
  lemma StaysBelowSaturation(idf: real, tf: nat, length: real, average: real)
    requires idf > 0.0 && length >= 0.0 && average > 0.0
    ensures TermScore(idf, tf, length, average) < idf * 2.2
    ensures 0 < tf ==> TermScore(idf, tf, length, average) > 0.0
    ensures tf == 0 ==> TermScore(idf, tf, length, average) == 0.0
  {
    var w, k := Saturation(idf, tf, length, average);
    var t := tf as real;
    ScaledStrictly(t, t + k, w);
    assert w * t * 1.0 < w * (t + k);
    QuotientLess(w * t, t + k, w, 1.0);
    if tf == 0 { assert w * 0.0 == 0.0; } else {
      ScaledStrictly(0.0, t, w);
      assert 0.0 * (t + k) < (w * t) * 1.0;
      QuotientLess(0.0, 1.0, w * t, t + k);
    }
  }

  /** A term's weight is positive exactly when the document frequency is one the index can report: it
      counts some of its files. */
  lemma WeightPositive(ln: real -> real, documentFrequency: nat, totalFiles: nat)
    requires forall x :: x > 0.0 ==> (ln(x) > 0.0 <==> x > 1.0)
    ensures InverseDocumentFrequency(ln, documentFrequency, totalFiles) > 0.0 <==> documentFrequency <= totalFiles
  {
    var df, n := documentFrequency as real, totalFiles as real;
    OneMore(n - df + 0.5, df + 0.5);
    assert 0.0 * (df + 0.5) < (n + 1.0) * 1.0;
    QuotientLess(0.0, 1.0, n + 1.0, df + 0.5);
    if documentFrequency <= totalFiles {
      QuotientLess(1.0, 1.0, n + 1.0, df + 0.5);
    } else {
      QuotientLess(n + 1.0, df + 0.5, 1.0, 1.0);
    }
  }

  /** A rarer term weighs more. */
  lemma RarerWeighsMore(ln: real -> real, rarer: nat, commoner: nat, totalFiles: nat)
    requires forall x, y :: 1.0 <= x < y ==> ln(x) < ln(y)
    requires rarer < commoner <= totalFiles
    ensures InverseDocumentFrequency(ln, commoner, totalFiles) < InverseDocumentFrequency(ln, rarer, totalFiles)
  {
    var n, r, c := totalFiles as real, rarer as real, commoner as real;
    ScaledStrictly(r + 0.5, c + 0.5, n + 1.0);
    QuotientLess(n + 1.0, c + 0.5, n + 1.0, r + 0.5);
    OneMore(n - c + 0.5, c + 0.5);
    OneMore(n - r + 0.5, r + 0.5);
  }

  lemma OneMore(a: real, b: real)
    requires b > 0.0
    ensures a / b + 1.0 == (a + b) / b
  {
    var x, y := a / b + 1.0, (a + b) / b;
    assert (x - 1.0) * b == a && y * b == a + b;
    assert x * b == a + b;
    if x < y { ScaledStrictly(x, y, b); }
    if y < x { ScaledStrictly(y, x, b); }
  }
}
