/** Exactly which caller's counts keep the code lane of a mixed index and the code-only index in step. */
module SearchLanes {
  import opened Numbers
  import opened Searches
  import opened SearchFacts
  import opened SearchCounts

  /** The widening meets the count itself: no cap is in the way below it. */
  predicate FetchEquals(fetch: nat, count: nat)
    requires 0 < fetch
    decreases count - fetch
  {
    fetch == count || (fetch < count && FetchEquals(4 * fetch, count))
  }

  /** The plain search over code rows only stops at the first fetch that reaches the count, with as many hits
      as it read, or as there are to give. */
  lemma {:induction false} PlainStops(lane: Lane, good: Row, limit: nat, count: nat, maxRows: nat, n: nat, fetch: nat)
    requires count < limit && count < n && count < maxRows <= USIZE_MAX && 0 < fetch <= maxRows
    requires lane.passes(good.chunk) && good.finite
    ensures var r := Widen(lane, Copies(good, n), limit, count, maxRows, false, fetch);
            r.Ok? && (|r.value.hits| == count <==> FetchEquals(fetch, count))
    decreases count - fetch
  {
    var rows := Take(Copies(good, n), fetch);
    AllPass(lane, rows);
    if fetch < count {
      PlainStops(lane, good, limit, count, maxRows, n, Min(SaturatingMul(fetch, 4), maxRows));
    }
  }

  /** What one fetch holds of code rows behind one prose row. */
  lemma ProseFirstFetch(lane: Lane, good: Row, prose: Row, n: nat, fetch: nat)
    requires 0 < fetch && lane.passes(good.chunk) && lane.RejectedProse(prose)
    ensures var rows := Take([prose] + Copies(good, n), fetch);
            && |rows| == Min(fetch, n + 1) && Passing(lane, rows) == Copies(good, |rows| - 1)
            && ProseRejected(lane, rows) == 1
  {
    var rows := Take([prose] + Copies(good, n), fetch);
    var rest := Copies(good, |rows| - 1);
    assert rows == [prose] + rest;
    AllPass(lane, rest);
    PassingSplits(lane, [prose], rest);
    assert [prose][..0] == [];
    assert Passing(lane, [prose]) == [] && ProseRejected(lane, [prose]) == 1;
  }

  /** Behind one prose row the code lane needs one row more, so a fetch of exactly the count makes it go on
      and come back with more hits. */
  lemma {:induction false} CodeLaneGoesOn(lane: Lane, good: Row, prose: Row, limit: nat, count: nat, maxRows: nat,
    n: nat, fetch: nat)
    requires 0 < count < limit && count < n && count < maxRows && maxRows + n + 1 <= USIZE_MAX && 0 < fetch
    requires lane.passes(good.chunk) && good.finite && lane.RejectedProse(prose)
    requires FetchEquals(fetch, count) || fetch >= count + 2
    ensures var r := Widen(lane, [prose] + Copies(good, n), limit, count, maxRows, true, fetch);
            r.Ok? && |r.value.hits| > count
    decreases if fetch > n then 0 else n + 1 - fetch
  {
    ProseFirstFetch(lane, good, prose, n, fetch);
    if fetch <= count {
      CodeLaneGoesOn(lane, good, prose, limit, count, maxRows, n, Min(SaturatingMul(fetch, 4), maxRows + 1));
    }
  }

  /** A ranking on which the two lanes answer differently. */
  function Parting(good: Row, prose: Row, limit: nat, count: nat, n: nat): seq<Row>
    requires count <= n && 0 < limit
  {
    if FetchEquals(FirstFetch(limit), count) then [prose] + Copies(good, n) else Hiding(good, prose, count, n)
  }

  lemma {:induction false} NoProse(lane: Lane, rows: seq<Row>)
    requires forall i :: 0 <= i < |rows| ==> !lane.proseLanguage(rows[i].chunk.language)
    ensures WithoutProse(lane, rows) == rows
  {
    if rows != [] { NoProse(lane, rows[..|rows| - 1]); }
  }

  lemma {:induction false} OnlyProse(lane: Lane, rows: seq<Row>)
    requires forall i :: 0 <= i < |rows| ==> lane.proseLanguage(rows[i].chunk.language)
    ensures WithoutProse(lane, rows) == []
  {
    if rows != [] { OnlyProse(lane, rows[..|rows| - 1]); }
  }

  lemma PartingWithoutProse(lane: Lane, good: Row, prose: Row, limit: nat, count: nat, n: nat)
    requires count <= n && 0 < limit
    requires !lane.proseLanguage(good.chunk.language) && lane.proseLanguage(prose.chunk.language)
    ensures WithoutProse(lane, Parting(good, prose, limit, count, n)) == Copies(good, n)
  {
    if FetchEquals(FirstFetch(limit), count) {
      OnlyProse(lane, [prose]);
      NoProse(lane, Copies(good, n));
      WithoutProseSplits(lane, [prose], Copies(good, n));
    } else {
      var xs, ys, zs := Copies(good, count), Copies(prose, 160 + 4 * count), Copies(good, n - count);
      NoProse(lane, xs);
      OnlyProse(lane, ys);
      NoProse(lane, zs);
      WithoutProseSplits(lane, xs, ys);
      WithoutProseSplits(lane, xs + ys, zs);
      assert xs + zs == Copies(good, n);
    }
  }

  lemma PartingMeets(lane: Lane, good: Row, prose: Row, limit: nat, count: nat, maxRows: nat, n: nat)
    requires count <= n && 0 < limit && maxRows + 5 * n + 160 <= USIZE_MAX
    requires lane.passes(good.chunk) && !lane.proseLanguage(good.chunk.language) && lane.RejectedProse(prose)
    ensures Meets(lane, Parting(good, prose, limit, count, n), n, maxRows, true)
  {
    if FetchEquals(FirstFetch(limit), count) {
      ProseFirstFetch(lane, good, prose, n, n + 1);
      assert Take([prose] + Copies(good, n), n + 1) == [prose] + Copies(good, n);
    } else {
      HidingPasses(lane, good, prose, count, n);
    }
  }

  lemma LanesPart(lane: Lane, good: Row, prose: Row, limit: nat, count: nat, maxRows: nat, n: nat)
    requires 0 < limit && FirstFetch(limit) <= maxRows && maxRows + 5 * n + 160 <= USIZE_MAX
    requires lane.passes(good.chunk) && good.finite && !lane.proseLanguage(good.chunk.language)
    requires lane.RejectedProse(prose) && count < Min(limit, n) && count < maxRows
    ensures !LanesAgree(lane, Parting(good, prose, limit, count, n), limit, count, maxRows)
  {
    var fetch := FirstFetch(limit);
    PartingWithoutProse(lane, good, prose, limit, count, n);
    PlainStops(lane, good, limit, count, maxRows, n, fetch);
    if FetchEquals(fetch, count) {
      CodeLaneGoesOn(lane, good, prose, limit, count, maxRows, n, fetch);
    } else {
      StopsAtTheCount(lane, good, prose, limit, count, maxRows, true, n, fetch);
      assert |Ranked(Copies(good, count))| == count;
    }
  }

  /** The two lanes agree on every mixed ranking of `n` passing rows if and only if the caller counts at least as
      many as could be returned, or at least as many rows as the cap lets a search look at. */
  lemma LanesAgreeExactly(lane: Lane, good: Row, prose: Row, limit: nat, count: nat, maxRows: nat, n: nat)
    requires 0 < limit && FirstFetch(limit) <= maxRows && maxRows + 5 * n + 160 <= USIZE_MAX
    requires lane.passes(good.chunk) && good.finite && !lane.proseLanguage(good.chunk.language)
    requires lane.RejectedProse(prose)
    ensures (forall mixed :: Meets(lane, mixed, n, maxRows, true) ==> LanesAgree(lane, mixed, limit, count, maxRows))
       <==> count >= Min(limit, n) || count >= maxRows
  {
    if count >= Min(limit, n) || count >= maxRows {
      forall mixed | Meets(lane, mixed, n, maxRows, true)
        ensures LanesAgree(lane, mixed, limit, count, maxRows)
      {
        CodeLaneIsCodeOnlyIndex(lane, mixed, limit, count, maxRows);
      }
    } else {
      PartingMeets(lane, good, prose, limit, count, maxRows, n);
      LanesPart(lane, good, prose, limit, count, maxRows, n);
    }
  }
}
