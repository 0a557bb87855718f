/** The widening search against "filter the whole ranking and take `limit`". */
module SearchFacts {
  import opened Wrappers
  import opened Numbers
  import opened Searches

  function WithoutProse(lane: Lane, rows: seq<Row>): seq<Row> {
    if rows == [] then []
    else
      WithoutProse(lane, rows[..|rows| - 1])
      + if lane.proseLanguage(rows[|rows| - 1].chunk.language) then [] else [rows[|rows| - 1]]
  }

  ghost predicate RejectsProse(lane: Lane, rows: seq<Row>) {
    forall r <- rows :: lane.proseLanguage(r.chunk.language) ==> !lane.passes(r.chunk)
  }

  /** The caller's count covers what the search could return. */
  predicate Enough(lane: Lane, ranking: seq<Row>, limit: nat, matching: nat) {
    matching >= Min(limit, |Passing(lane, ranking)|)
  }

  // ---------------------------------------------------------------- exactness

  lemma {:induction false} WidenExact(lane: Lane, ranking: seq<Row>, limit: nat, matching: nat, maxRows: nat,
    proseExempt: bool, fetch: nat)
    requires 0 < limit && 0 < fetch && maxRows <= USIZE_MAX && Enough(lane, ranking, limit, matching)
    ensures var r := Widen(lane, ranking, limit, matching, maxRows, proseExempt, fetch);
            r.Ok? ==>
              match r.value.cappedAt
              case None => r.value.hits == Ranked(Take(Passing(lane, ranking), limit))
              case Some(n) => n <= |ranking| && r.value.hits == Ranked(Passing(lane, ranking[..n]))
                              && |r.value.hits| < Min(limit, matching)
    decreases if fetch > |ranking| then 0 else |ranking| + 1 - fetch
  {
    var rows := Take(ranking, fetch);
    var taken := Take(Passing(lane, rows), limit);
    PassingPrefix(lane, ranking, |rows|);
    if !AllFinite(taken) {
    } else if |taken| >= Min(limit, matching) || |rows| < fetch {
      assert |rows| < fetch ==> rows == ranking;
      assert taken == Take(Passing(lane, ranking), limit);
    } else {
      var allowed := Allowed(lane, rows, maxRows, proseExempt);
      if fetch < allowed {
        WidenExact(lane, ranking, limit, matching, maxRows, proseExempt, Min(SaturatingMul(fetch, 4), allowed));
      }
    }
  }

  /** An answer that reports no cap is the filtered ranking cut to `limit`; one that reports a cap is
      everything that passes among the rows it names, and fewer than asked for. */
  lemma {:induction false} SearchIsFilteredRanking(lane: Lane, ranking: seq<Row>, limit: nat, matching: nat, maxRows: nat,
    proseExempt: bool)
    requires maxRows <= USIZE_MAX && Enough(lane, ranking, limit, matching)
    ensures var r := SearchSpec(lane, ranking, limit, matching, maxRows, proseExempt);
            r.Ok? ==>
              match r.value.cappedAt
              case None => r.value.hits == Ranked(Take(Passing(lane, ranking), limit))
              case Some(n) => n <= |ranking| && r.value.hits == Ranked(Passing(lane, ranking[..n]))
                              && |r.value.hits| < Min(limit, matching)
  {
    if limit > 0 { WidenExact(lane, ranking, limit, matching, maxRows, proseExempt, FirstFetch(limit)); }
  }

  // ---------------------------------------------------------------- the code lane

  lemma {:induction false} WithoutProseSplits(lane: Lane, xs: seq<Row>, ys: seq<Row>)
    ensures WithoutProse(lane, xs + ys) == WithoutProse(lane, xs) + WithoutProse(lane, ys)
    decreases |ys|
  {
    if ys == [] {
      assert xs + ys == xs;
    } else {
      assert (xs + ys)[..|xs + ys| - 1] == xs + ys[..|ys| - 1];
      WithoutProseSplits(lane, xs, ys[..|ys| - 1]);
    }
  }

  lemma {:induction false} WithoutProsePasses(lane: Lane, rows: seq<Row>)
    requires RejectsProse(lane, rows)
    ensures Passing(lane, WithoutProse(lane, rows)) == Passing(lane, rows)
    ensures |WithoutProse(lane, rows)| == |rows| - ProseRejected(lane, rows)
    decreases |rows|
  {
    if rows != [] {
      var front, last := rows[..|rows| - 1], rows[|rows| - 1];
      assert last in rows && forall r <- front :: r in rows;
      WithoutProsePasses(lane, front);
      var kept := if lane.proseLanguage(last.chunk.language) then [] else [last];
      PassingSplits(lane, WithoutProse(lane, front), kept);
      assert Passing(lane, [last]) == (if lane.passes(last.chunk) then [last] else []) by {
        assert [last][..0] == [];
      }
    }
  }

  /** The rows that count towards the cap. */
  function Counted(lane: Lane, rows: seq<Row>, proseExempt: bool): seq<Row> {
    if proseExempt then WithoutProse(lane, rows) else rows
  }

  /** The answer, said without any fetch: over the counted rows, look at `maxRows` of them. */
  predicate Capped(lane: Lane, counted: seq<Row>, limit: nat, matching: nat, maxRows: nat) {
    |Passing(lane, Take(counted, maxRows))| < Min(limit, matching) && |counted| >= maxRows
  }

  function Chosen(lane: Lane, counted: seq<Row>, limit: nat, matching: nat, maxRows: nat): seq<Row> {
    if Capped(lane, counted, limit, matching, maxRows) then Passing(lane, Take(counted, maxRows))
    else Take(Passing(lane, counted), limit)
  }

  ghost predicate Answers(r: Result<Hits, SearchError>, lane: Lane, counted: seq<Row>, limit: nat, matching: nat,
    maxRows: nat)
  {
    var chosen := Chosen(lane, counted, limit, matching, maxRows);
    if AllFinite(chosen) then
      && r.Ok? && r.value.hits == Ranked(chosen)
      && (r.value.cappedAt.Some? <==> Capped(lane, counted, limit, matching, maxRows))
    else r == Err(NonFinite)
  }

  lemma CountedFacts(lane: Lane, ranking: seq<Row>, rows: seq<Row>, proseExempt: bool)
    requires rows <= ranking && (proseExempt ==> RejectsProse(lane, ranking))
    ensures Counted(lane, rows, proseExempt) <= Counted(lane, ranking, proseExempt)
    ensures Passing(lane, Counted(lane, rows, proseExempt)) == Passing(lane, rows)
    ensures Passing(lane, rows) <= Passing(lane, ranking)
    ensures |Counted(lane, rows, proseExempt)| == |rows| - if proseExempt then ProseRejected(lane, rows) else 0
  {
    var rest := ranking[|rows|..];
    assert ranking == rows + rest;
    WithoutProseSplits(lane, rows, rest);
    PassingSplits(lane, rows, rest);
    if proseExempt {
      assert forall r <- rows :: r in ranking;
      WithoutProsePasses(lane, rows);
    }
  }

  /** A round that stops within its row budget answers what the fetchless form says. */
  lemma RoundAnswers(lane: Lane, ranking: seq<Row>, limit: nat, matching: nat, maxRows: nat, proseExempt: bool,
    rows: seq<Row>)
    requires 0 < limit && Enough(lane, ranking, limit, matching) && rows <= ranking
    requires proseExempt ==> RejectsProse(lane, ranking)
    requires |Counted(lane, rows, proseExempt)| <= maxRows
    ensures var counted := Counted(lane, ranking, proseExempt);
            var taken := Take(Passing(lane, rows), limit);
            var chosen := Chosen(lane, counted, limit, matching, maxRows);
            && taken <= chosen
            && (|taken| >= Min(limit, matching) ==> taken == chosen && !Capped(lane, counted, limit, matching, maxRows))
  {
    CountedFacts(lane, ranking, rows, proseExempt);
    CountedFacts(lane, ranking, ranking, proseExempt);
    var counted, seen := Counted(lane, ranking, proseExempt), Counted(lane, rows, proseExempt);
    var window := Take(counted, maxRows);
    PassingPrefix(lane, window, |seen|);
    PassingPrefix(lane, counted, |window|);
    assert window[..|seen|] == seen && counted[..|window|] == window;
  }

  /** The loop's bound: a fetch never reads more counted rows than the cap. */
  ghost predicate WithinBudget(lane: Lane, ranking: seq<Row>, maxRows: nat, proseExempt: bool, fetch: nat) {
    fetch <= maxRows + if proseExempt then ProseRejected(lane, Take(ranking, fetch)) else 0
  }

  /** A round that ends the search answers what the fetchless form says. */
  lemma LastRoundAnswers(lane: Lane, ranking: seq<Row>, limit: nat, matching: nat, maxRows: nat, proseExempt: bool,
    fetch: nat)
    requires 0 < limit && 0 < fetch && maxRows + |ranking| <= USIZE_MAX && Enough(lane, ranking, limit, matching)
    requires proseExempt ==> RejectsProse(lane, ranking)
    requires WithinBudget(lane, ranking, maxRows, proseExempt, fetch)
    requires var rows := Take(ranking, fetch);
             var taken := Take(Passing(lane, rows), limit);
             || |taken| >= Min(limit, matching) || |rows| < fetch
             || fetch >= Allowed(lane, rows, maxRows, proseExempt)
    ensures var rows := Take(ranking, fetch);
            var taken := Take(Passing(lane, rows), limit);
            var counted := Counted(lane, ranking, proseExempt);
            && taken == Chosen(lane, counted, limit, matching, maxRows)
            && (Capped(lane, counted, limit, matching, maxRows) <==>
                 |taken| < Min(limit, matching) && |rows| == fetch)
  {
    var rows := Take(ranking, fetch);
    var counted := Counted(lane, ranking, proseExempt);
    CountedFacts(lane, ranking, rows, proseExempt);
    RoundAnswers(lane, ranking, limit, matching, maxRows, proseExempt, rows);
    if |Take(Passing(lane, rows), limit)| < Min(limit, matching) {
      var seen := Counted(lane, rows, proseExempt);
      if |rows| < fetch {
        assert rows == ranking;
        assert Take(counted, maxRows) == counted;
      } else {
        assert Take(counted, maxRows) == seen;
      }
    }
  }

  lemma BudgetKept(lane: Lane, ranking: seq<Row>, maxRows: nat, proseExempt: bool, fetch: nat)
    requires maxRows + |ranking| <= USIZE_MAX
    requires fetch < Allowed(lane, Take(ranking, fetch), maxRows, proseExempt)
    ensures var wider := Min(SaturatingMul(fetch, 4), Allowed(lane, Take(ranking, fetch), maxRows, proseExempt));
            WithinBudget(lane, ranking, maxRows, proseExempt, wider)
  {
    var rows := Take(ranking, fetch);
    var wider := Min(SaturatingMul(fetch, 4), Allowed(lane, rows, maxRows, proseExempt));
    assert Take(ranking, wider)[..|rows|] == rows;
    PassingPrefix(lane, Take(ranking, wider), |rows|);
  }

  lemma {:induction false} WidenAnswers(lane: Lane, ranking: seq<Row>, limit: nat, matching: nat, maxRows: nat,
    proseExempt: bool, fetch: nat)
    requires 0 < limit && 0 < fetch && maxRows + |ranking| <= USIZE_MAX && Enough(lane, ranking, limit, matching)
    requires proseExempt ==> RejectsProse(lane, ranking)
    requires WithinBudget(lane, ranking, maxRows, proseExempt, fetch)
    ensures Answers(Widen(lane, ranking, limit, matching, maxRows, proseExempt, fetch),
              lane, Counted(lane, ranking, proseExempt), limit, matching, maxRows)
    decreases if fetch > |ranking| then 0 else |ranking| + 1 - fetch
  {
    var rows := Take(ranking, fetch);
    var taken := Take(Passing(lane, rows), limit);
    var allowed := Allowed(lane, rows, maxRows, proseExempt);
    if |taken| >= Min(limit, matching) || |rows| < fetch || fetch >= allowed {
      LastRoundAnswers(lane, ranking, limit, matching, maxRows, proseExempt, fetch);
    } else if !AllFinite(taken) {
      CountedFacts(lane, ranking, rows, proseExempt);
      RoundAnswers(lane, ranking, limit, matching, maxRows, proseExempt, rows);
      var i :| 0 <= i < |taken| && !taken[i].finite;
      assert Chosen(lane, Counted(lane, ranking, proseExempt), limit, matching, maxRows)[i] == taken[i];
    } else {
      BudgetKept(lane, ranking, maxRows, proseExempt, fetch);
      WidenAnswers(lane, ranking, limit, matching, maxRows, proseExempt, Min(SaturatingMul(fetch, 4), allowed));
    }
  }

  /** The search depends on the fetch schedule only through the row its cap report names. */
  lemma SearchAnswers(lane: Lane, ranking: seq<Row>, limit: nat, matching: nat, maxRows: nat, proseExempt: bool)
    requires FirstFetch(limit) <= maxRows && maxRows + |ranking| <= USIZE_MAX
    requires Enough(lane, ranking, limit, matching)
    requires proseExempt ==> RejectsProse(lane, ranking)
    ensures 0 < limit ==>
              Answers(SearchSpec(lane, ranking, limit, matching, maxRows, proseExempt),
                lane, Counted(lane, ranking, proseExempt), limit, matching, maxRows)
  {
    if limit > 0 { WidenAnswers(lane, ranking, limit, matching, maxRows, proseExempt, FirstFetch(limit)); }
  }

  // ---------------------------------------------------------------- counts at the cap or past it

  /** What a search answers when the count cannot end it before the cap does. */
  ghost predicate AnswersAtCap(r: Result<Hits, SearchError>, lane: Lane, counted: seq<Row>, limit: nat, matching: nat,
    maxRows: nat)
  {
    var passing := Passing(lane, Take(counted, maxRows));
    var chosen := Take(passing, limit);
    if AllFinite(chosen) then
      && r.Ok? && r.value.hits == Ranked(chosen)
      && (r.value.cappedAt.Some? <==> |passing| < Min(limit, matching) && |counted| >= maxRows)
    else r == Err(NonFinite)
  }

  /** What one fetch within the budget has seen of the rows the cap allows. */
  lemma SeenOfWindow(lane: Lane, ranking: seq<Row>, maxRows: nat, proseExempt: bool, fetch: nat)
    requires proseExempt ==> RejectsProse(lane, ranking)
    requires WithinBudget(lane, ranking, maxRows, proseExempt, fetch)
    ensures var rows := Take(ranking, fetch);
            var seen, window := Counted(lane, rows, proseExempt), Take(Counted(lane, ranking, proseExempt), maxRows);
            && |seen| <= maxRows && seen <= window && (|seen| == maxRows ==> seen == window)
            && |seen| == |rows| - (if proseExempt then ProseRejected(lane, rows) else 0)
            && Passing(lane, seen) == Passing(lane, rows) && Passing(lane, rows) <= Passing(lane, window)
            && |Passing(lane, rows)| <= |seen|
  {
    var rows := Take(ranking, fetch);
    var seen, window := Counted(lane, rows, proseExempt), Take(Counted(lane, ranking, proseExempt), maxRows);
    CountedFacts(lane, ranking, rows, proseExempt);
    assert window[..|seen|] == seen;
    PassingPrefix(lane, window, |seen|);
    FewerPass(lane, seen);
  }

  lemma {:induction false} FewerPass(lane: Lane, rows: seq<Row>)
    ensures |Passing(lane, rows)| <= |rows|
  {
    if rows != [] { FewerPass(lane, rows[..|rows| - 1]); }
  }

  /** A round that ends the search has looked at what the cap allows, or found `limit` rows, or everything. */
  lemma LastRoundAtCap(lane: Lane, ranking: seq<Row>, limit: nat, matching: nat, maxRows: nat, proseExempt: bool,
    fetch: nat)
    requires 0 < limit && 0 < fetch && maxRows + |ranking| <= USIZE_MAX && matching >= maxRows
    requires proseExempt ==> RejectsProse(lane, ranking)
    requires WithinBudget(lane, ranking, maxRows, proseExempt, fetch)
    requires var rows := Take(ranking, fetch);
             || |Take(Passing(lane, rows), limit)| >= Min(limit, matching) || |rows| < fetch
             || fetch >= Allowed(lane, rows, maxRows, proseExempt)
    ensures var rows, counted := Take(ranking, fetch), Counted(lane, ranking, proseExempt);
            var taken, passing := Take(Passing(lane, rows), limit), Passing(lane, Take(counted, maxRows));
            && taken == Take(passing, limit)
            && (|taken| < Min(limit, matching) && |rows| == fetch <==>
                 |passing| < Min(limit, matching) && |counted| >= maxRows)
  {
    var rows, counted := Take(ranking, fetch), Counted(lane, ranking, proseExempt);
    SeenOfWindow(lane, ranking, maxRows, proseExempt, fetch);
    var passing := Passing(lane, Take(counted, maxRows));
    assert |Passing(lane, rows)| >= limit ==> Take(Passing(lane, rows), limit) == Take(passing, limit);
    if |rows| < fetch {
      assert rows == ranking;
      assert Take(counted, maxRows) == counted;
    }
  }

  lemma {:induction false} WidenAtCap(lane: Lane, ranking: seq<Row>, limit: nat, matching: nat, maxRows: nat,
    proseExempt: bool, fetch: nat)
    requires 0 < limit && 0 < fetch && maxRows + |ranking| <= USIZE_MAX && matching >= maxRows
    requires proseExempt ==> RejectsProse(lane, ranking)
    requires WithinBudget(lane, ranking, maxRows, proseExempt, fetch)
    ensures AnswersAtCap(Widen(lane, ranking, limit, matching, maxRows, proseExempt, fetch),
              lane, Counted(lane, ranking, proseExempt), limit, matching, maxRows)
    decreases if fetch > |ranking| then 0 else |ranking| + 1 - fetch
  {
    var rows := Take(ranking, fetch);
    var taken := Take(Passing(lane, rows), limit);
    var allowed := Allowed(lane, rows, maxRows, proseExempt);
    if |taken| >= Min(limit, matching) || |rows| < fetch || fetch >= allowed {
      LastRoundAtCap(lane, ranking, limit, matching, maxRows, proseExempt, fetch);
    } else if !AllFinite(taken) {
      SeenOfWindow(lane, ranking, maxRows, proseExempt, fetch);
      var passing := Passing(lane, Take(Counted(lane, ranking, proseExempt), maxRows));
      var i :| 0 <= i < |taken| && !taken[i].finite;
      assert Take(passing, limit)[i] == taken[i];
    } else {
      BudgetKept(lane, ranking, maxRows, proseExempt, fetch);
      WidenAtCap(lane, ranking, limit, matching, maxRows, proseExempt, Min(SaturatingMul(fetch, 4), allowed));
    }
  }

  // ---------------------------------------------------------------- the two lanes

  /** The code lane over a mixed index and the plain search over the index without its prose rows: the same hits
      and ranks, the same error, and a cap exactly when the other reports one. */
  ghost predicate LanesAgree(lane: Lane, mixed: seq<Row>, limit: nat, matching: nat, maxRows: nat)
    requires maxRows <= USIZE_MAX
  {
    var r := SearchSpec(lane, mixed, limit, matching, maxRows, true);
    var q := SearchSpec(lane, WithoutProse(lane, mixed), limit, matching, maxRows, false);
    && (r.Ok? <==> q.Ok?)
    && (r.Ok? ==> r.value.hits == q.value.hits && (r.value.cappedAt.Some? <==> q.value.cappedAt.Some?))
    && (r.Err? ==> r.error == q.error)
  }

  /** The lanes agree for every count that covers what could be returned, and for every count at or past the
      row cap. */
  lemma CodeLaneIsCodeOnlyIndex(lane: Lane, mixed: seq<Row>, limit: nat, matching: nat, maxRows: nat)
    requires RejectsProse(lane, mixed) && (Enough(lane, mixed, limit, matching) || matching >= maxRows)
    requires FirstFetch(limit) <= maxRows && maxRows + |mixed| <= USIZE_MAX
    ensures LanesAgree(lane, mixed, limit, matching, maxRows)
  {
    WithoutProsePasses(lane, mixed);
    if Enough(lane, mixed, limit, matching) {
      SearchAnswers(lane, mixed, limit, matching, maxRows, true);
      SearchAnswers(lane, WithoutProse(lane, mixed), limit, matching, maxRows, false);
    } else if limit > 0 {
      WidenAtCap(lane, mixed, limit, matching, maxRows, true, FirstFetch(limit));
      WidenAtCap(lane, WithoutProse(lane, mixed), limit, matching, maxRows, false, FirstFetch(limit));
    }
  }

  lemma {:induction false} AllProse(lane: Lane, rows: seq<Row>)
    requires RejectsProse(lane, rows) && forall r <- rows :: lane.proseLanguage(r.chunk.language)
    ensures Passing(lane, rows) == [] && WithoutProse(lane, rows) == []
    decreases |rows|
  {
    if rows != [] {
      var front := rows[..|rows| - 1];
      assert rows[|rows| - 1] in rows && forall r <- front :: r in rows;
      AllProse(lane, front);
    }
  }

  /** The least counts for which the lanes part: with none counted, four prose rows hide the code row that the
      code-only index finds in its first fetch. */
  lemma TooSmallACountHidesHits(lane: Lane, prose: seq<Row>, code: Row)
    requires |prose| == 4 && RejectsProse(lane, prose) && forall r <- prose :: lane.proseLanguage(r.chunk.language)
    requires lane.passes(code.chunk) && !lane.proseLanguage(code.chunk.language) && code.finite
    ensures var mixed := prose + [code];
            && RejectsProse(lane, mixed) && !Enough(lane, mixed, 1, 0)
            && SearchSpec(lane, mixed, 1, 0, MAX_FILTERED_SEMANTIC_ROWS, true) == Ok(Hits([], None))
            && SearchSpec(lane, WithoutProse(lane, mixed), 1, 0, MAX_FILTERED_SEMANTIC_ROWS, false)
               == Ok(Hits([Hit(code.chunk, 1)], None))
  {
    AllProse(lane, prose);
    var mixed := prose + [code];
    assert mixed[..|mixed| - 1] == prose;
    assert WithoutProse(lane, mixed) == [code];
    FirstFetchOnly(lane, mixed, true, prose, []);
    assert [code][..0] == [];
    assert Passing(lane, [code]) == [code];
    FirstFetchOnly(lane, [code], false, [code], [code]);
    assert Ranked([code]) == [Hit(code.chunk, 1)];
  }

  lemma FirstFetchOnly(lane: Lane, ranking: seq<Row>, proseExempt: bool, rows: seq<Row>, found: seq<Row>)
    requires rows == Take(ranking, 4) && Passing(lane, rows) == found && |found| <= 1 && AllFinite(found)
    ensures SearchSpec(lane, ranking, 1, 0, MAX_FILTERED_SEMANTIC_ROWS, proseExempt) == Ok(Hits(Ranked(found), None))
    ensures found == [] ==> Ranked(found) == []
  {
    assert FirstFetch(1) == 4 && Take(found, 1) == found;
  }
}
