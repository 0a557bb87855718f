/** What an answer of the search names: the rows its hits stand for, and the row its cap report counts to. */
module SearchReports {
  import opened Numbers
  import opened Searches

  predicate PassesAt(lane: Lane, rows: seq<Row>, q: int) {
    0 <= q < |rows| && lane.passes(rows[q].chunk)
  }

  /** How many of the first `p` rows pass. */
  function PassingBefore(lane: Lane, rows: seq<Row>, p: nat): nat {
    |set q | 0 <= q < p && PassesAt(lane, rows, q)|
  }

  lemma {:induction false} PassingCounts(lane: Lane, rows: seq<Row>, p: nat)
    requires p <= |rows|
    ensures |Passing(lane, rows[..p])| == PassingBefore(lane, rows, p)
  {
    if p > 0 {
      PassingCounts(lane, rows, p - 1);
      PassingStep(lane, rows, p - 1);
      var before := set q | 0 <= q < p - 1 && PassesAt(lane, rows, q);
      var now := set q | 0 <= q < p && PassesAt(lane, rows, q);
      assert now == if lane.passes(rows[p - 1].chunk) then before + {p - 1} else before;
    } else {
      assert rows[..0] == [];
      assert (set q | 0 <= q < 0 && PassesAt(lane, rows, q)) == {};
    }
  }

  lemma PassingPlace(lane: Lane, rows: seq<Row>, p: nat)
    requires PassesAt(lane, rows, p)
    ensures var k := PassingBefore(lane, rows, p);
            k < |Passing(lane, rows)| && Passing(lane, rows)[k] == rows[p]
  {
    PassingCounts(lane, rows, p);
    PassingStep(lane, rows, p);
    PassingPrefix(lane, rows, p + 1);
  }

  lemma {:induction false} WidenReads(lane: Lane, ranking: seq<Row>, limit: nat, matching: nat, maxRows: nat,
    proseExempt: bool, fetch: nat) returns (n: nat)
    requires 0 < limit && 0 < fetch && maxRows <= USIZE_MAX
    ensures n <= |ranking|
    ensures var r := Widen(lane, ranking, limit, matching, maxRows, proseExempt, fetch);
            r.Ok? ==> r.value.hits == Ranked(Take(Passing(lane, ranking[..n]), limit))
    decreases if fetch > |ranking| then 0 else |ranking| + 1 - fetch
  {
    var rows := Take(ranking, fetch);
    var taken := Take(Passing(lane, rows), limit);
    var allowed := Allowed(lane, rows, maxRows, proseExempt);
    if |taken| >= Min(limit, matching) || |rows| < fetch || fetch >= allowed {
      n := |rows|;
    } else {
      n := WidenReads(lane, ranking, limit, matching, maxRows, proseExempt, Min(SaturatingMul(fetch, 4), allowed));
    }
  }

  /** Whatever the count: the hits of an answer are the nearest passing rows. The passing row with k passing
      rows before it is hit k, with rank k + 1. */
  lemma HitsAreTheNearestPassing(lane: Lane, ranking: seq<Row>, limit: nat, matching: nat, maxRows: nat,
    proseExempt: bool, p: nat)
    requires maxRows <= USIZE_MAX && PassesAt(lane, ranking, p)
    ensures var r := SearchSpec(lane, ranking, limit, matching, maxRows, proseExempt);
            var k := PassingBefore(lane, ranking, p);
            r.Ok? && k < |r.value.hits| ==>
              |r.value.hits| <= limit && r.value.hits[k].chunk == ranking[p].chunk && r.value.hits[k].rank == k + 1
  {
    if limit > 0 {
      var n := WidenReads(lane, ranking, limit, matching, maxRows, proseExempt, FirstFetch(limit));
      PassingPlace(lane, ranking, p);
      PassingPrefix(lane, ranking, n);
    }
  }

  // ---------------------------------------------------------------- the cap

  predicate RejectedProseAt(lane: Lane, rows: seq<Row>, q: int) {
    0 <= q < |rows| && !lane.passes(rows[q].chunk) && lane.proseLanguage(rows[q].chunk.language)
  }

  lemma {:induction false} ProseCounts(lane: Lane, rows: seq<Row>, p: nat)
    requires p <= |rows|
    ensures ProseRejected(lane, rows[..p]) == |set q | 0 <= q < p && RejectedProseAt(lane, rows, q)|
  {
    if p > 0 {
      ProseCounts(lane, rows, p - 1);
      PassingStep(lane, rows, p - 1);
      var before := set q | 0 <= q < p - 1 && RejectedProseAt(lane, rows, q);
      var now := set q | 0 <= q < p && RejectedProseAt(lane, rows, q);
      assert now == if RejectedProseAt(lane, rows, p - 1) then before + {p - 1} else before;
    } else {
      assert rows[..0] == [];
      assert (set q | 0 <= q < 0 && RejectedProseAt(lane, rows, q)) == {};
    }
  }

  /** The row `n` of a cap report: what was read up to it is `maxRows` rows, exempt ones not counted. */
  ghost predicate CountsTo(lane: Lane, ranking: seq<Row>, maxRows: nat, proseExempt: bool, n: nat) {
    n <= |ranking|
    && n == maxRows + if proseExempt then |set q | 0 <= q < n && RejectedProseAt(lane, ranking, q)| else 0
  }

  lemma MoreProse(lane: Lane, ranking: seq<Row>, i: nat, j: nat)
    requires i <= j
    ensures ProseRejected(lane, Take(ranking, i)) <= ProseRejected(lane, Take(ranking, j)) <= |ranking|
  {
    assert Take(Take(ranking, j), i) == Take(ranking, i);
    PassingPrefix(lane, Take(ranking, j), |Take(ranking, i)|);
  }

  lemma {:induction false} WidenCapsAt(lane: Lane, ranking: seq<Row>, limit: nat, matching: nat, maxRows: nat,
    proseExempt: bool, fetch: nat)
    requires 0 < limit && 0 < fetch && maxRows + |ranking| <= USIZE_MAX
    requires fetch <= Allowed(lane, Take(ranking, fetch), maxRows, proseExempt)
    ensures var r := Widen(lane, ranking, limit, matching, maxRows, proseExempt, fetch);
            r.Ok? && r.value.cappedAt.Some? ==> CountsTo(lane, ranking, maxRows, proseExempt, r.value.cappedAt.value)
    decreases if fetch > |ranking| then 0 else |ranking| + 1 - fetch
  {
    var rows := Take(ranking, fetch);
    var taken := Take(Passing(lane, rows), limit);
    var allowed := Allowed(lane, rows, maxRows, proseExempt);
    if !AllFinite(taken) || |taken| >= Min(limit, matching) || |rows| < fetch {
    } else if fetch >= allowed {
      ProseCounts(lane, ranking, fetch);
    } else {
      var wider := Min(SaturatingMul(fetch, 4), allowed);
      MoreProse(lane, ranking, fetch, wider);
      WidenCapsAt(lane, ranking, limit, matching, maxRows, proseExempt, wider);
    }
  }

  /** A plain search reports its cap at row 10240; the code lane reports the row by which it has read 10240 rows
      besides the prose it rejected. */
  lemma CapCountsTo(lane: Lane, ranking: seq<Row>, limit: nat, matching: nat, proseExempt: bool)
    requires |ranking| + 10240 <= USIZE_MAX
    ensures var r := SearchSpec(lane, ranking, limit, matching, MAX_FILTERED_SEMANTIC_ROWS, proseExempt);
            r.Ok? && r.value.cappedAt.Some? ==> CountsTo(lane, ranking, 10240, proseExempt, r.value.cappedAt.value)
  {
    if limit > 0 {
      WidenCapsAt(lane, ranking, limit, matching, MAX_FILTERED_SEMANTIC_ROWS, proseExempt, FirstFetch(limit));
    }
  }
}
