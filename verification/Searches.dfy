/** The filtered nearest-neighbour search of src/store.rs: a fetch that widens until it has enough. */
module Searches {
  import opened Wrappers
  import opened Chunks
  import opened Numbers

  const MAX_FILTERED_SEMANTIC_ROWS: nat := 10_240
  const USIZE_MAX: nat := 0xFFFF_FFFF_FFFF_FFFF

  /** A row of the table, nearest first in a ranking; `finite` says its distance is a number. */
  datatype Row = Row(chunk: Chunk, finite: bool)

  datatype Hit = Hit(chunk: Chunk, rank: nat)

  datatype Hits = Hits(hits: seq<Hit>, cappedAt: Option<nat>)

  datatype SearchError = NoVectors | DimensionDiffers | NonFinite

  /** Which chunks the caller's filter passes, and which languages are prose. */
  datatype Lane = Lane(passes: Chunk -> bool, proseLanguage: string -> bool) {
    predicate RejectedProse(r: Row) {
      !passes(r.chunk) && proseLanguage(r.chunk.language)
    }
  }

  function SaturatingMul(a: nat, b: nat): nat {
    Min(a * b, USIZE_MAX)
  }

  function SaturatingAdd(a: nat, b: nat): nat {
    Min(a + b, USIZE_MAX)
  }

  function Take<T>(s: seq<T>, n: nat): seq<T> {
    s[..Min(n, |s|)]
  }

  function Passing(lane: Lane, rows: seq<Row>): seq<Row> {
    if rows == [] then []
    else Passing(lane, rows[..|rows| - 1]) + if lane.passes(rows[|rows| - 1].chunk) then [rows[|rows| - 1]] else []
  }

  function ProseRejected(lane: Lane, rows: seq<Row>): (n: nat)
    ensures n <= |rows|
  {
    if rows == [] then 0
    else ProseRejected(lane, rows[..|rows| - 1]) + if lane.RejectedProse(rows[|rows| - 1]) then 1 else 0
  }

  function Ranked(rows: seq<Row>): seq<Hit> {
    seq(|rows|, i requires 0 <= i < |rows| => Hit(rows[i].chunk, i + 1))
  }

  predicate AllFinite(rows: seq<Row>) {
    forall r <- rows :: r.finite
  }

  /** What one fetch gives: the first `limit` passing rows, with how many rows were read and how many
      of the rejected ones were prose; both are of all rows unless the limit was reached. */
  method FilteredHits(lane: Lane, rows: seq<Row>, limit: nat)
    returns (r: Result<(seq<Hit>, nat, nat), SearchError>)
    ensures limit > 0 ==> (r.Ok? <==> AllFinite(Take(Passing(lane, rows), limit)))
    ensures r.Err? ==> r.error == NonFinite
    ensures limit > 0 && r.Ok? ==> r.value.0 == Ranked(Take(Passing(lane, rows), limit))
    ensures r.Ok? && |r.value.0| < limit ==> r.value.1 == |rows| && r.value.2 == ProseRejected(lane, rows)
    ensures rows == [] ==> r == Ok(([], 0, 0))
  {
    var hits: seq<Hit> := [];
    var proseRejected := 0;
    for i := 0 to |rows|
      invariant AllFinite(Passing(lane, rows[..i])) && hits == Ranked(Passing(lane, rows[..i]))
      invariant limit > 0 ==> |hits| < limit
      invariant proseRejected == ProseRejected(lane, rows[..i])
    {
      var row := rows[i];
      PassingStep(lane, rows, i);
      if !lane.passes(row.chunk) {
        if lane.proseLanguage(row.chunk.language) { proseRejected := proseRejected + 1; }
        continue;
      }
      if !row.finite {
        NonFiniteTaken(lane, rows, i, limit);
        return Err(NonFinite);
      }
      RankedStep(Passing(lane, rows[..i]), row);
      hits := hits + [Hit(row.chunk, |hits| + 1)];
      if |hits| == limit {
        FullTake(lane, rows, i + 1, limit);
        return Ok((hits, i + 1, proseRejected));
      }
    }
    assert rows[..|rows|] == rows;
    assert limit > 0 ==> Take(Passing(lane, rows), limit) == Passing(lane, rows);
    return Ok((hits, |rows|, proseRejected));
  }

  lemma RankedStep(passing: seq<Row>, row: Row)
    ensures Ranked(passing + [row]) == Ranked(passing) + [Hit(row.chunk, |passing| + 1)]
    ensures AllFinite(passing) && row.finite ==> AllFinite(passing + [row])
  {
  }

  lemma FullTake(lane: Lane, rows: seq<Row>, i: nat, limit: nat)
    requires i <= |rows| && |Passing(lane, rows[..i])| == limit
    ensures Take(Passing(lane, rows), limit) == Passing(lane, rows[..i])
  {
    PassingPrefix(lane, rows, i);
  }

  lemma NonFiniteTaken(lane: Lane, rows: seq<Row>, i: nat, limit: nat)
    requires i < |rows| && lane.passes(rows[i].chunk) && !rows[i].finite
    requires limit > 0 ==> |Passing(lane, rows[..i])| < limit
    ensures limit > 0 ==> !AllFinite(Take(Passing(lane, rows), limit))
  {
    PassingStep(lane, rows, i);
    PassingPrefix(lane, rows, i + 1);
    var k := |Passing(lane, rows[..i])|;
    assert Passing(lane, rows)[k] == rows[i];
    if limit > 0 { assert Take(Passing(lane, rows), limit)[k] == rows[i]; }
  }

  lemma PassingStep(lane: Lane, rows: seq<Row>, i: nat)
    requires i < |rows|
    ensures Passing(lane, rows[..i + 1]) == Passing(lane, rows[..i]) + if lane.passes(rows[i].chunk) then [rows[i]] else []
    ensures ProseRejected(lane, rows[..i + 1])
         == ProseRejected(lane, rows[..i]) + if lane.RejectedProse(rows[i]) then 1 else 0
  {
    assert rows[..i + 1][..i] == rows[..i];
  }

  lemma {:induction false} PassingSplits(lane: Lane, xs: seq<Row>, ys: seq<Row>)
    ensures Passing(lane, xs + ys) == Passing(lane, xs) + Passing(lane, ys)
    ensures ProseRejected(lane, xs + ys) == ProseRejected(lane, xs) + ProseRejected(lane, ys)
    decreases |ys|
  {
    if ys == [] {
      assert xs + ys == xs;
    } else {
      assert (xs + ys)[..|xs + ys| - 1] == xs + ys[..|ys| - 1];
      PassingSplits(lane, xs, ys[..|ys| - 1]);
    }
  }

  lemma PassingPrefix(lane: Lane, rows: seq<Row>, i: nat)
    requires i <= |rows|
    ensures Passing(lane, rows[..i]) <= Passing(lane, rows)
    ensures ProseRejected(lane, rows[..i]) <= ProseRejected(lane, rows)
  {
    PassingSplits(lane, rows[..i], rows[i..]);
    assert rows[..i] + rows[i..] == rows;
  }

  function Allowed(lane: Lane, rows: seq<Row>, maxRows: nat, proseExempt: bool): nat {
    if proseExempt then SaturatingAdd(maxRows, ProseRejected(lane, rows)) else maxRows
  }

  /** The loop from one fetch size on. */
  function Widen(lane: Lane, ranking: seq<Row>, limit: nat, matching: nat, maxRows: nat, proseExempt: bool,
    fetch: nat): Result<Hits, SearchError>
    requires 0 < limit && 0 < fetch && maxRows <= USIZE_MAX
    decreases if fetch > |ranking| then 0 else |ranking| + 1 - fetch
  {
    var rows := Take(ranking, fetch);
    var taken := Take(Passing(lane, rows), limit);
    if !AllFinite(taken) then Err(NonFinite)
    else if |taken| >= Min(limit, matching) || |rows| < fetch then Ok(Hits(Ranked(taken), None))
    else
      var allowed := Allowed(lane, rows, maxRows, proseExempt);
      if fetch >= allowed then Ok(Hits(Ranked(taken), Some(fetch)))
      else Widen(lane, ranking, limit, matching, maxRows, proseExempt, Min(SaturatingMul(fetch, 4), allowed))
  }

  function FirstFetch(limit: nat): nat {
    Min(SaturatingMul(limit, 4), 160)
  }

  function SearchSpec(lane: Lane, ranking: seq<Row>, limit: nat, matching: nat, maxRows: nat, proseExempt: bool):
    Result<Hits, SearchError>
    requires maxRows <= USIZE_MAX
  {
    if limit == 0 then Ok(Hits([], None))
    else Widen(lane, ranking, limit, matching, maxRows, proseExempt, FirstFetch(limit))
  }

  /** `ranking` is every row of the pinned table, nearest first; a fetch of n returns its first n. */
  method SearchWithin(vectorsMissing: bool, sameDimension: bool, lane: Lane, ranking: seq<Row>,
    limit: nat, matching: nat, maxRows: nat, proseExempt: bool) returns (r: Result<Hits, SearchError>)
    requires maxRows <= USIZE_MAX
    ensures vectorsMissing ==> r == Err(NoVectors)
    ensures !vectorsMissing && !sameDimension ==> r == Err(DimensionDiffers)
    ensures !vectorsMissing && sameDimension ==>
              r == SearchSpec(lane, ranking, limit, matching, maxRows, proseExempt)
  {
    if vectorsMissing { return Err(NoVectors); }
    if !sameDimension { return Err(DimensionDiffers); }
    var fetch := FirstFetch(limit);
    while true
      invariant limit > 0 ==> 0 < fetch
      invariant limit > 0 ==>
                  Widen(lane, ranking, limit, matching, maxRows, proseExempt, fetch)
                  == SearchSpec(lane, ranking, limit, matching, maxRows, proseExempt)
      invariant limit == 0 ==> fetch == 0
      decreases if fetch > |ranking| then 0 else |ranking| + 1 - fetch
    {
      var found := FilteredHits(lane, Take(ranking, fetch), limit);
      if found.Err? { return Err(found.error); }
      var (hits, rows, proseRejected) := found.value;
      if |hits| >= Min(limit, matching) || rows < fetch {
        return Ok(Hits(hits, None));
      }
      var allowed := if proseExempt then SaturatingAdd(maxRows, proseRejected) else maxRows;
      if fetch >= allowed {
        return Ok(Hits(hits, Some(fetch)));
      }
      fetch := Min(SaturatingMul(fetch, 4), allowed);
    }
  }

  method Search(vectorsMissing: bool, sameDimension: bool, lane: Lane, ranking: seq<Row>, limit: nat, matching: nat)
    returns (r: Result<Hits, SearchError>)
    ensures !vectorsMissing && sameDimension ==>
              r == SearchSpec(lane, ranking, limit, matching, MAX_FILTERED_SEMANTIC_ROWS, false)
  {
    r := SearchWithin(vectorsMissing, sameDimension, lane, ranking, limit, matching, MAX_FILTERED_SEMANTIC_ROWS, false);
  }

  method SearchCodeLane(vectorsMissing: bool, sameDimension: bool, lane: Lane, ranking: seq<Row>, limit: nat,
    matching: nat) returns (r: Result<Hits, SearchError>)
    ensures !vectorsMissing && sameDimension ==>
              r == SearchSpec(lane, ranking, limit, matching, MAX_FILTERED_SEMANTIC_ROWS, true)
  {
    r := SearchWithin(vectorsMissing, sameDimension, lane, ranking, limit, matching, MAX_FILTERED_SEMANTIC_ROWS, true);
  }
}
