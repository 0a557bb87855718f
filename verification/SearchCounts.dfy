/** Exactly which caller's counts make an uncapped answer the filtered ranking. */
module SearchCounts {
  import opened Wrappers
  import opened Numbers
  import opened Searches
  import opened SearchFacts

  /** An answer that reports no cap is the filtered ranking cut to `limit`. */
  ghost predicate Truthful(r: Result<Hits, SearchError>, lane: Lane, ranking: seq<Row>, limit: nat) {
    r.Ok? && r.value.cappedAt.None? ==> r.value.hits == Ranked(Take(Passing(lane, ranking), limit))
  }

  // ---------------------------------------------------------------- counts past the cap

  lemma {:induction false} PassingOrRejected(lane: Lane, rows: seq<Row>)
    ensures |Passing(lane, rows)| + ProseRejected(lane, rows) <= |rows|
  {
    if rows != [] { PassingOrRejected(lane, rows[..|rows| - 1]); }
  }

  /** A count past the row cap never ends the search, so it cannot end it early. */
  lemma {:induction false} CountPastTheCap(lane: Lane, ranking: seq<Row>, limit: nat, matching: nat, maxRows: nat,
    proseExempt: bool, fetch: nat)
    requires 0 < limit && 0 < fetch && maxRows + |ranking| <= USIZE_MAX && maxRows < matching
    requires WithinBudget(lane, ranking, maxRows, proseExempt, fetch)
    ensures Truthful(Widen(lane, ranking, limit, matching, maxRows, proseExempt, fetch), lane, ranking, limit)
    decreases if fetch > |ranking| then 0 else |ranking| + 1 - fetch
  {
    var rows := Take(ranking, fetch);
    var taken := Take(Passing(lane, rows), limit);
    PassingPrefix(lane, ranking, |rows|);
    PassingOrRejected(lane, rows);
    if !AllFinite(taken) {
    } else if |taken| >= Min(limit, matching) || |rows| < fetch {
      assert |rows| < fetch ==> rows == ranking;
      assert taken == Take(Passing(lane, ranking), limit);
    } else {
      var allowed := Allowed(lane, rows, maxRows, proseExempt);
      if fetch < allowed {
        BudgetKept(lane, ranking, maxRows, proseExempt, fetch);
        CountPastTheCap(lane, ranking, limit, matching, maxRows, proseExempt, Min(SaturatingMul(fetch, 4), allowed));
      }
    }
  }

  // ---------------------------------------------------------------- counts that are too small

  lemma {:induction false} AllPass(lane: Lane, rows: seq<Row>)
    requires forall i :: 0 <= i < |rows| ==> lane.passes(rows[i].chunk)
    ensures Passing(lane, rows) == rows && ProseRejected(lane, rows) == 0
  {
    if rows != [] { AllPass(lane, rows[..|rows| - 1]); }
  }

  lemma {:induction false} NonePass(lane: Lane, rows: seq<Row>)
    requires forall i :: 0 <= i < |rows| ==> !lane.passes(rows[i].chunk)
    ensures Passing(lane, rows) == []
  {
    if rows != [] { NonePass(lane, rows[..|rows| - 1]); }
  }

  function Copies(r: Row, n: nat): (rows: seq<Row>)
    ensures |rows| == n && forall i :: 0 <= i < n ==> rows[i] == r
  {
    seq(n, i => r)
  }

  /** `count` passing rows, more rejected ones than any fetch reads that still looks for them, then the rest. */
  function Hiding(good: Row, bad: Row, count: nat, n: nat): seq<Row>
    requires count <= n
  {
    Copies(good, count) + Copies(bad, 160 + 4 * count) + Copies(good, n - count)
  }

  lemma HidingPasses(lane: Lane, good: Row, bad: Row, count: nat, n: nat)
    requires count <= n && lane.passes(good.chunk) && !lane.passes(bad.chunk)
    ensures |Passing(lane, Hiding(good, bad, count, n))| == n
  {
    var xs, ys, zs := Copies(good, count), Copies(bad, 160 + 4 * count), Copies(good, n - count);
    AllPass(lane, xs);
    NonePass(lane, ys);
    AllPass(lane, zs);
    PassingSplits(lane, xs, ys);
    PassingSplits(lane, xs + ys, zs);
  }

  /** What one fetch of the hiding ranking holds. */
  lemma HidingFetch(lane: Lane, good: Row, bad: Row, count: nat, n: nat, fetch: nat)
    requires count <= n && lane.passes(good.chunk) && !lane.passes(bad.chunk) && fetch <= 160 + 4 * count
    ensures var rows := Take(Hiding(good, bad, count, n), fetch);
            && |rows| == fetch && Passing(lane, rows) == Copies(good, Min(fetch, count))
            && (fetch <= count ==> ProseRejected(lane, rows) == 0)
  {
    var rows := Take(Hiding(good, bad, count, n), fetch);
    var xs, ys := Copies(good, Min(fetch, count)), Copies(bad, fetch - Min(fetch, count));
    assert rows == xs + ys;
    AllPass(lane, xs);
    NonePass(lane, ys);
    PassingSplits(lane, xs, ys);
  }

  /** The search stops once it has found as many rows as the caller counted. */
  lemma {:induction false} StopsAtTheCount(lane: Lane, good: Row, bad: Row, limit: nat, count: nat, maxRows: nat,
    proseExempt: bool, n: nat, fetch: nat)
    requires count < limit && count < n && count <= maxRows <= USIZE_MAX
    requires lane.passes(good.chunk) && good.finite && !lane.passes(bad.chunk)
    requires 0 < fetch <= 160 + 4 * count && fetch <= maxRows
    ensures Widen(lane, Hiding(good, bad, count, n), limit, count, maxRows, proseExempt, fetch)
         == Ok(Hits(Ranked(Copies(good, count)), None))
    decreases count - fetch
  {
    HidingFetch(lane, good, bad, count, n, fetch);
    assert Take(Copies(good, Min(fetch, count)), limit) == Copies(good, Min(fetch, count));
    if fetch < count {
      StopsAtTheCount(lane, good, bad, limit, count, maxRows, proseExempt, n, Min(SaturatingMul(fetch, 4), maxRows));
    }
  }

  lemma CountTooSmall(lane: Lane, good: Row, bad: Row, limit: nat, count: nat, maxRows: nat, proseExempt: bool, n: nat)
    requires FirstFetch(limit) <= maxRows <= USIZE_MAX && count < Min(limit, n) && count <= maxRows
    requires lane.passes(good.chunk) && good.finite && !lane.passes(bad.chunk)
    ensures var ranking := Hiding(good, bad, count, n);
            !Truthful(SearchSpec(lane, ranking, limit, count, maxRows, proseExempt), lane, ranking, limit)
  {
    HidingPasses(lane, good, bad, count, n);
    StopsAtTheCount(lane, good, bad, limit, count, maxRows, proseExempt, n, FirstFetch(limit));
    assert |Ranked(Copies(good, count))| == count;
  }

  // ---------------------------------------------------------------- exactly

  /** A ranking of `n` passing rows, as the search may meet it. */
  ghost predicate Meets(lane: Lane, ranking: seq<Row>, n: nat, maxRows: nat, proseExempt: bool) {
    && |Passing(lane, ranking)| == n && maxRows + |ranking| <= USIZE_MAX
    && (proseExempt ==> RejectsProse(lane, ranking))
  }

  /** Uncapped answers are the filtered ranking on every ranking of `n` passing rows if and only if the caller
      counts at least as many as could be returned, or more rows than the cap lets a search look at. */
  lemma CountsExactly(lane: Lane, good: Row, bad: Row, limit: nat, count: nat, maxRows: nat, proseExempt: bool, n: nat)
    requires 0 < limit && FirstFetch(limit) <= maxRows && maxRows + 5 * n + 160 <= USIZE_MAX
    requires lane.passes(good.chunk) && good.finite && !lane.passes(bad.chunk)
    requires proseExempt ==> !lane.proseLanguage(good.chunk.language)
    ensures (forall ranking :: Meets(lane, ranking, n, maxRows, proseExempt) ==>
               Truthful(SearchSpec(lane, ranking, limit, count, maxRows, proseExempt), lane, ranking, limit))
       <==> count >= Min(limit, n) || count > maxRows
  {
    if count >= Min(limit, n) || count > maxRows {
      forall ranking | Meets(lane, ranking, n, maxRows, proseExempt)
        ensures Truthful(SearchSpec(lane, ranking, limit, count, maxRows, proseExempt), lane, ranking, limit)
      {
        if count >= Min(limit, n) {
          SearchIsFilteredRanking(lane, ranking, limit, count, maxRows, proseExempt);
        } else {
          CountPastTheCap(lane, ranking, limit, count, maxRows, proseExempt, FirstFetch(limit));
        }
      }
    } else {
      CountTooSmall(lane, good, bad, limit, count, maxRows, proseExempt, n);
      HidingPasses(lane, good, bad, count, n);
      assert Meets(lane, Hiding(good, bad, count, n), n, maxRows, proseExempt);
    }
  }
}
