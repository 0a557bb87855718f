/** Where the ranges of a tree end: which nodes are opened, which children are parted, and which stay together.
    The rules are written out with the numbers they hold for. */
module RangeParts {
  import opened Wrappers
  import opened Ranges
  import opened RangeTiling

  // ---------------------------------------------------------------- the rules

  /** Over the limit of its kind. */
  predicate Big(a: Adapter, n: Node) {
    n.end - n.start > if a.declaration(n.kind) then 24000 else 6000
  }

  /** A child that is opened: over its limit, a boundary, or a container other than a nested source file. */
  predicate Opens(a: Adapter, c: Node) {
    Big(a, c) || a.boundary(c.kind) || (a.container(c.kind) && c.kind != "source_file")
  }

  /** A node that is cut along its children when it is met above depth 128. */
  predicate CutUp(a: Adapter, n: Node) {
    n.children != [] && (Big(a, n) || a.boundary(n.kind) || a.container(n.kind))
  }

  ghost predicate ClosesRun(a: Adapter, n: Node, i: nat) {
    forall k :: i <= k < |n.children| ==> a.prefix(n.children[k].kind)
  }

  /** From child `k` on all are prefixes, and together more than 6000 bytes long. */
  ghost predicate LongRun(a: Adapter, n: Node, k: nat) {
    k < |n.children| && ClosesRun(a, n, k) && n.children[|n.children| - 1].end - n.children[k].start > 6000
  }

  /** A prefix child of a container waits for the next child, unless it is of a long closing run. */
  ghost predicate Waits(a: Adapter, n: Node, i: nat)
    requires i < |n.children|
  {
    a.container(n.kind) && a.prefix(n.children[i].kind) && !(exists k: nat :: k <= i && LongRun(a, n, k))
  }

  /** The first of the children waiting for child `j`, or `j`. */
  ghost function Front(a: Adapter, n: Node, j: nat): (k: nat)
    requires j <= |n.children|
    ensures k <= j
    ensures forall i :: k <= i < j ==> Waits(a, n, i)
    ensures k > 0 ==> !Waits(a, n, k - 1)
  {
    if j > 0 && Waits(a, n, j - 1) then Front(a, n, j - 1) else j
  }

  ghost predicate Taken(a: Adapter, n: Node, j: nat) {
    j < |n.children| && !Waits(a, n, j)
  }

  /** Where what is taken with child `j` begins. */
  ghost function FrontStart(a: Adapter, n: Node, j: nat): int
    requires j < |n.children|
  {
    n.children[Front(a, n, j)].start
  }

  ghost predicate EndsAt(rs: seq<Range>, b: int) {
    exists r <- rs :: r.hi == b
  }

  // ---------------------------------------------------------------- the rules are the cut's

  lemma OpensSplits(a: Adapter, c: Node)
    ensures Opens(a, c) <==> a.Splits(c)
    ensures CutUp(a, c) <==> !a.Whole(c)
  {
  }

  lemma {:induction false} RunBegins(a: Adapter, n: Node, k: nat)
    requires k <= |n.children|
    ensures ClosesRun(a, n, k) <==> TrailingPrefixStart(a, n.children) <= k
  {
    var t := TrailingPrefixStart(a, n.children);
    if k < t { assert !a.prefix(n.children[t - 1].kind); }
  }

  /** Any long closing run shows that the longest is. */
  lemma LongestRun(a: Adapter, n: Node, k: nat)
    requires WellFormed(n) && LongRun(a, n, k)
    ensures SplitsTrailingPrefix(a, n.children) && TrailingPrefixStart(a, n.children) <= k
  {
    var t := TrailingPrefixStart(a, n.children);
    RunBegins(a, n, k);
    ChildFacts(n, k);
    ChildFacts(n, t);
    if t < k { assert n.children[t].end <= n.children[k].start; }
  }

  lemma LongestRunIsLong(a: Adapter, n: Node)
    requires SplitsTrailingPrefix(a, n.children)
    ensures LongRun(a, n, TrailingPrefixStart(a, n.children))
  {
    RunBegins(a, n, TrailingPrefixStart(a, n.children));
  }

  lemma WaitsDefers(a: Adapter, n: Node, i: nat)
    requires WellFormed(n) && i < |n.children|
    ensures Waits(a, n, i) <==> Defers(a, n, i)
  {
    if SplitsTrailingPrefix(a, n.children) { LongestRunIsLong(a, n); }
    if k: nat :| k <= i && LongRun(a, n, k) { LongestRun(a, n, k); }
  }

  // ---------------------------------------------------------------- the loop, seen before each child

  /** The state of the loop before child `j`. */
  ghost function At(a: Adapter, n: Node, j: nat, depth: nat): Cursor
    requires j <= |n.children| && depth < MAX_RANGE_DEPTH
  {
    if j == 0 then Initial(n) else Turn(a, n, j - 1, At(a, n, j - 1, depth), depth)
  }

  lemma {:induction false} AtIsVisits(a: Adapter, n: Node, j: nat, depth: nat)
    requires j <= |n.children| && depth < MAX_RANGE_DEPTH
    ensures Visits(a, n, j, At(a, n, j, depth), depth) == Visits(a, n, 0, Initial(n), depth)
  {
    if j > 0 { AtIsVisits(a, n, j - 1, depth); }
  }

  lemma InitialConsistent(a: Adapter, n: Node, lo: int)
    requires WellFormed(n) && n.children != []
    ensures Consistent(a, n, 0, Initial(n), lo)
  {
    ChildFacts(n, 0);
  }

  lemma NextConsistent(a: Adapter, n: Node, j: nat, depth: nat)
    requires WellFormed(n) && depth < MAX_RANGE_DEPTH && !a.Whole(n) && j < |n.children|
    requires Consistent(a, n, j, At(a, n, j, depth), CutStart(a, n, depth))
    ensures Consistent(a, n, j + 1, At(a, n, j + 1, depth), CutStart(a, n, depth))
  {
    TurnConsistent(a, n, j, At(a, n, j, depth), depth);
  }

  lemma {:induction false} AtConsistent(a: Adapter, n: Node, j: nat, depth: nat)
    requires WellFormed(n) && depth < MAX_RANGE_DEPTH && !a.Whole(n) && j <= |n.children|
    ensures Consistent(a, n, j, At(a, n, j, depth), CutStart(a, n, depth))
  {
    if j == 0 {
      InitialConsistent(a, n, CutStart(a, n, depth));
    } else {
      AtConsistent(a, n, j - 1, depth);
      NextConsistent(a, n, j - 1, depth);
    }
  }

  /** What waits before child `j` is its front. */
  ghost predicate PendingIsFront(a: Adapter, n: Node, j: nat, c: Cursor)
    requires j <= |n.children|
  {
    c.pending == if Front(a, n, j) < j then Some(n.children[Front(a, n, j)].start) else None
  }

  lemma {:induction false} AtPending(a: Adapter, n: Node, j: nat, depth: nat)
    requires WellFormed(n) && depth < MAX_RANGE_DEPTH && j <= |n.children|
    ensures PendingIsFront(a, n, j, At(a, n, j, depth))
  {
    if j > 0 {
      AtPending(a, n, j - 1, depth);
      WaitsDefers(a, n, j - 1);
    }
  }

  lemma ChildStartIsFront(a: Adapter, n: Node, j: nat, depth: nat)
    requires WellFormed(n) && depth < MAX_RANGE_DEPTH && j < |n.children|
    ensures At(a, n, j, depth).pending.GetOr(n.children[j].start) == FrontStart(a, n, j)
  {
    AtPending(a, n, j, depth);
  }

  // ---------------------------------------------------------------- an end that no later turn moves

  ghost predicate HasEnd(c: Cursor, b: int) {
    exists k :: 0 <= k < |c.out| && c.out[k].hi == b && (c.last == None || k < c.last.value)
  }

  lemma VisitKeepsEnd(a: Adapter, n: Node, i: nat, c: Cursor, sub: seq<Range>, b: int)
    requires i < |n.children| && HasEnd(c, b)
    ensures HasEnd(Visit(a, n, i, c, sub), b)
  {
    var k :| 0 <= k < |c.out| && c.out[k].hi == b && (c.last == None || k < c.last.value);
    assert Visit(a, n, i, c, sub).out[k] == c.out[k];
  }

  lemma {:induction false} EndStays(a: Adapter, n: Node, j: nat, depth: nat, b: int)
    requires j <= |n.children| && depth < MAX_RANGE_DEPTH && !a.Whole(n) && HasEnd(At(a, n, j, depth), b)
    ensures EndsAt(Cut(a, n, depth), b)
    decreases |n.children| - j
  {
    var c := At(a, n, j, depth);
    if j < |n.children| {
      VisitKeepsEnd(a, n, j, c, if Recurses(a, n, j) then Cut(a, n.children[j], depth + 1) else [], b);
      EndStays(a, n, j + 1, depth, b);
    } else {
      AtIsVisits(a, n, j, depth);
      var k :| 0 <= k < |c.out| && c.out[k].hi == b;
      assert Closed(n, c)[k] == c.out[k];
    }
  }

  // ---------------------------------------------------------------- where ranges end

  /** Some child before `j` was taken. */
  lemma TakenBefore(a: Adapter, n: Node, j: nat)
    requires WellFormed(n) && j <= |n.children|
    ensures Front(a, n, j) > 0 <==> FirstTaken(a, n, 0) < j
  {
    var f, t := Front(a, n, j), FirstTaken(a, n, 0);
    if f > 0 { WaitsDefers(a, n, f - 1); }
    if t < j { WaitsDefers(a, n, t); }
  }

  /** What stands before a turn: `from` is where it begins, `any` whether a child was taken before. */
  ghost predicate Stands(c: Cursor, start: int, first: int, from: int, any: bool) {
    && start <= c.start <= c.end <= from
    && (c.start == c.end && c.start > start ==>
         c.out != [] && c.last == Some(|c.out| - 1) && c.out[|c.out| - 1].lo < c.out[|c.out| - 1].hi == c.start)
    && (c.end == start ==> c.last == None)
    && (c.start < c.end ==> c.last == None && (c.out != [] ==> c.out[|c.out| - 1].hi == c.start))
    && (any && c.start == c.end ==> c.start > start)
    && (c.start > first ==> c.out != [])
  }

  lemma ConsistentStands(a: Adapter, n: Node, j: nat, c: Cursor, lo: int, from: int)
    requires j < |n.children| && Consistent(a, n, j, c, lo) && c.pending.GetOr(n.children[j].start) == from
    requires n.start <= lo && lo <= n.children[0].start && n.start <= n.children[0].start
    ensures Stands(c, n.start, n.children[0].start, from, FirstTaken(a, n, 0) < j)
  {
    if FirstTaken(a, n, 0) < j && c.start == c.end {
      TilesWithin(c.out, lo, c.start);
      assert lo <= c.out[0].lo < c.out[0].hi <= c.start;
    }
  }

  lemma BeforeTurn(a: Adapter, n: Node, j: nat, depth: nat)
    requires WellFormed(n) && CutUp(a, n) && depth < MAX_RANGE_DEPTH && j < |n.children|
    ensures var c := At(a, n, j, depth);
            && c.pending.GetOr(n.children[j].start) == FrontStart(a, n, j)
            && Stands(c, n.start, n.children[0].start, FrontStart(a, n, j), Front(a, n, j) > 0)
  {
    OpensSplits(a, n);
    AtConsistent(a, n, j, depth);
    ChildStartIsFront(a, n, j, depth);
    TakenBefore(a, n, j);
    ChildFacts(n, 0);
    ConsistentStands(a, n, j, At(a, n, j, depth), CutStart(a, n, depth), FrontStart(a, n, j));
  }

  lemma FrontInOrder(a: Adapter, n: Node, j: nat)
    requires WellFormed(n) && j < |n.children|
    ensures FrontStart(a, n, j) <= n.children[j].start < n.children[j].end
  {
    ChildFacts(n, j);
    ChildFacts(n, Front(a, n, j));
    if Front(a, n, j) < j { assert n.children[Front(a, n, j)].end <= n.children[j].start; }
  }

  /** The ranges of an opened child, as a call pushes them. */
  lemma SubEnds(a: Adapter, n: Node, j: nat, depth: nat)
    requires WellFormed(n) && j < |n.children| && depth < MAX_RANGE_DEPTH
    ensures WellFormed(n.children[j])
    ensures var sub := Cut(a, n.children[j], depth + 1);
            && sub != [] && sub[|sub| - 1].hi == n.children[j].end
            && (forall i :: 0 <= i < |sub| ==> n.children[j].start < sub[i].hi <= n.children[j].end)
            && (forall i :: 0 <= i < |sub| - 1 ==> sub[i].hi < n.children[j].end)
            && (forall i :: 0 <= i < |sub| ==> n.children[j].start <= sub[i].lo)
  {
    ChildFacts(n, j);
    CutTiles(a, n.children[j], depth + 1);
    TilesWithin(Cut(a, n.children[j], depth + 1), CutStart(a, n.children[j], depth + 1), n.children[j].end);
  }

  lemma {:induction false} TilesWithin(rs: seq<Range>, lo: int, hi: int)
    requires Tiles(rs, lo, hi)
    ensures forall i :: 0 <= i < |rs| ==> lo <= rs[i].lo < rs[i].hi <= hi
    ensures forall i :: 0 <= i < |rs| - 1 ==> rs[i].hi < hi
    decreases |rs|
  {
    if |rs| > 1 {
      var rest := rs[1..];
      TilesWithin(rest, rs[0].hi, hi);
      assert forall i :: 0 < i < |rs| ==> rs[i] == rest[i - 1];
    }
  }

  lemma OpenedHasEnd(a: Adapter, n: Node, j: nat, c: Cursor, sub: seq<Range>, start: int, first: int, from: int, any: bool)
    requires j < |n.children| && !Defers(a, n, j) && a.Splits(n.children[j])
    requires !a.attaches(n.kind, n.children[j].kind) && c.pending.GetOr(n.children[j].start) == from
    requires Stands(c, start, first, from, any) && from > start
    ensures HasEnd(Visit(a, n, j, c, sub), from)
  {
    var next := Visit(a, n, j, c, sub);
    var k := if c.start < from then |c.out| else |c.out| - 1;
    assert next.out[k].hi == from;
  }

  lemma CutBeforeOpened(a: Adapter, n: Node, j: nat, depth: nat)
    requires WellFormed(n) && CutUp(a, n) && depth < MAX_RANGE_DEPTH && Taken(a, n, j)
    requires Opens(a, n.children[j]) && !a.attaches(n.kind, n.children[j].kind) && FrontStart(a, n, j) > n.start
    ensures HasEnd(At(a, n, j + 1, depth), FrontStart(a, n, j))
  {
    BeforeTurn(a, n, j, depth);
    WaitsDefers(a, n, j);
    OpensSplits(a, n.children[j]);
    OpenedHasEnd(a, n, j, At(a, n, j, depth), Cut(a, n.children[j], depth + 1), n.start, n.children[0].start,
      FrontStart(a, n, j), Front(a, n, j) > 0);
  }

  lemma PackedHasEnd(a: Adapter, n: Node, j: nat, c: Cursor, start: int, first: int, from: int)
    requires j < |n.children| && !Defers(a, n, j) && !a.Splits(n.children[j])
    requires a.container(n.kind) || n.children[j].end - c.start > 6000
    requires c.pending.GetOr(n.children[j].start) == from && Stands(c, start, first, from, true)
    ensures HasEnd(Visit(a, n, j, c, []), from)
  {
    var next := Visit(a, n, j, c, []);
    assert next.out[|next.out| - 1].hi == from;
  }

  /** A packed child that closes what stands before it. */
  lemma CutBeforePacked(a: Adapter, n: Node, j: nat, depth: nat)
    requires WellFormed(n) && CutUp(a, n) && depth < MAX_RANGE_DEPTH && Taken(a, n, j) && !Opens(a, n.children[j])
    requires a.container(n.kind) || n.children[j].end - At(a, n, j, depth).start > 6000
    requires Front(a, n, j) > 0
    ensures HasEnd(At(a, n, j + 1, depth), FrontStart(a, n, j))
  {
    BeforeTurn(a, n, j, depth);
    WaitsDefers(a, n, j);
    OpensSplits(a, n.children[j]);
    PackedHasEnd(a, n, j, At(a, n, j, depth), n.start, n.children[0].start, FrontStart(a, n, j));
  }

  /** An opened child that does not attach its header, and a packed child of a container with a taken child
      before it, begin a range where the first child waiting for them begins. */
  lemma CutBeforeChild(a: Adapter, n: Node, j: nat, depth: nat)
    requires WellFormed(n) && CutUp(a, n) && depth < 128 && Taken(a, n, j)
    requires if Opens(a, n.children[j]) then !a.attaches(n.kind, n.children[j].kind) && FrontStart(a, n, j) > n.start
             else a.container(n.kind) && Front(a, n, j) > 0
    ensures EndsAt(Cut(a, n, depth), FrontStart(a, n, j))
  {
    OpensSplits(a, n);
    if Opens(a, n.children[j]) { CutBeforeOpened(a, n, j, depth); } else { CutBeforePacked(a, n, j, depth); }
    EndStays(a, n, j + 1, depth, FrontStart(a, n, j));
  }

  // ---------------------------------------------------------------- parted children

  /** After child `i` was taken: what is open began no later than it, or after it. */
  ghost predicate Since(n: Node, i: nat, c: Cursor)
    requires i < |n.children|
  {
    c.end >= n.children[i].end && (c.start <= n.children[i].start || c.start >= n.children[i].end)
  }

  /** The loop variables after a turn. */
  lemma AfterTurn(a: Adapter, n: Node, j: nat, c: Cursor, sub: seq<Range>)
    requires j < |n.children|
    ensures var next := Visit(a, n, j, c, sub);
            if Defers(a, n, j) then next.start == c.start && next.end == c.end
            else
              && next.end == n.children[j].end
              && if a.Splits(n.children[j]) then next.start == n.children[j].end
                 else next.start == c.start || next.start == c.pending.GetOr(n.children[j].start)
  {
  }

  lemma SinceTaken(a: Adapter, n: Node, i: nat, depth: nat)
    requires WellFormed(n) && CutUp(a, n) && depth < MAX_RANGE_DEPTH && Taken(a, n, i)
    ensures Since(n, i, At(a, n, i + 1, depth))
    ensures Opens(a, n.children[i]) ==> At(a, n, i + 1, depth).start >= n.children[i].end
  {
    WaitsDefers(a, n, i);
    OpensSplits(a, n.children[i]);
    BeforeTurn(a, n, i, depth);
    FrontInOrder(a, n, i);
    AfterTurn(a, n, i, At(a, n, i, depth), if Recurses(a, n, i) then Cut(a, n.children[i], depth + 1) else []);
  }

  lemma SinceKept(a: Adapter, n: Node, i: nat, m: nat, depth: nat)
    requires WellFormed(n) && depth < MAX_RANGE_DEPTH && Taken(a, n, i) && i < m < |n.children|
    requires Since(n, i, At(a, n, m, depth))
    ensures Since(n, i, At(a, n, m + 1, depth))
    ensures At(a, n, m, depth).start >= n.children[i].end ==> At(a, n, m + 1, depth).start >= n.children[i].end
  {
    ChildStartIsFront(a, n, m, depth);
    FrontAfter(a, n, i, m);
    FrontInOrder(a, n, m);
    AfterTurn(a, n, m, At(a, n, m, depth), if Recurses(a, n, m) then Cut(a, n.children[m], depth + 1) else []);
  }

  lemma {:induction false} AtSince(a: Adapter, n: Node, i: nat, j: nat, depth: nat)
    requires WellFormed(n) && CutUp(a, n) && depth < MAX_RANGE_DEPTH && Taken(a, n, i) && i < j <= |n.children|
    ensures Since(n, i, At(a, n, j, depth))
    ensures Opens(a, n.children[i]) ==> At(a, n, j, depth).start >= n.children[i].end
    decreases j
  {
    if i == j - 1 {
      SinceTaken(a, n, i, depth);
    } else {
      AtSince(a, n, i, j - 1, depth);
      SinceKept(a, n, i, j - 1, depth);
      FrontInOrder(a, n, i);
    }
  }

  lemma FrontAfter(a: Adapter, n: Node, i: nat, j: nat)
    requires WellFormed(n) && Taken(a, n, i) && i < j < |n.children|
    ensures i < Front(a, n, j) && n.children[i].end <= FrontStart(a, n, j) <= n.children[j].start
  {
    FrontInOrder(a, n, j);
    assert n.children[i].end <= n.children[Front(a, n, j)].start;
  }

  /** An end between the end of child `i` and the start of child `j`. */
  ghost predicate Between(n: Node, i: nat, j: nat, b: int)
    requires i < |n.children| && j < |n.children|
  {
    n.children[i].end <= b <= n.children[j].start
  }

  lemma LastEndKept(a: Adapter, n: Node, j: nat, c: Cursor, sub: seq<Range>, start: int, first: int, from: int) returns (b: int)
    requires j < |n.children| && !Defers(a, n, j) && (a.Splits(n.children[j]) ==> sub != [])
    requires c.pending.GetOr(n.children[j].start) == from && Stands(c, start, first, from, true) && c.out != []
    ensures c.start <= b <= from && HasEnd(Visit(a, n, j, c, sub), b)
  {
    var next := Visit(a, n, j, c, sub);
    var k := |c.out| - 1;
    b := next.out[k].hi;
    assert k < |next.out| && (next.last == None || k < next.last.value);
  }

  /** What is open before the turn for `j` began after `i`: a range ends between them. */
  lemma PartedSince(a: Adapter, n: Node, i: nat, j: nat, depth: nat) returns (b: int)
    requires WellFormed(n) && CutUp(a, n) && depth < MAX_RANGE_DEPTH && Taken(a, n, i) && Taken(a, n, j) && i < j
    requires At(a, n, j, depth).start >= n.children[i].end
    ensures Between(n, i, j, b) && HasEnd(At(a, n, j + 1, depth), b)
  {
    BeforeTurn(a, n, j, depth);
    WaitsDefers(a, n, j);
    OpensSplits(a, n.children[j]);
    ChildFacts(n, i);
    SubEnds(a, n, j, depth);
    FrontAfter(a, n, i, j);
    b := LastEndKept(a, n, j, At(a, n, j, depth), if Recurses(a, n, j) then Cut(a, n.children[j], depth + 1) else [],
      n.start, n.children[0].start, FrontStart(a, n, j));
  }

  /** Two taken children of a node that is cut up, parted by the rules: the first or the second is opened (the
      second without attaching its header), or the second is packed in a container or 6000 bytes past the
      begin of the first. */
  ghost predicate Parted(a: Adapter, n: Node, i: nat, j: nat) {
    && i < j < |n.children| && Taken(a, n, i) && Taken(a, n, j)
    && (|| Opens(a, n.children[i])
        || (if Opens(a, n.children[j]) then !a.attaches(n.kind, n.children[j].kind)
            else a.container(n.kind) || n.children[j].end - n.children[i].start > 6000))
  }

  /** What is open before the turn for `j` began no later than `i`: the second child begins a range. */
  lemma PartedAtFront(a: Adapter, n: Node, i: nat, j: nat, depth: nat)
    requires WellFormed(n) && CutUp(a, n) && depth < MAX_RANGE_DEPTH && Parted(a, n, i, j) && !Opens(a, n.children[i])
    requires At(a, n, j, depth).start <= n.children[i].start
    ensures Between(n, i, j, FrontStart(a, n, j)) && HasEnd(At(a, n, j + 1, depth), FrontStart(a, n, j))
  {
    FrontAfter(a, n, i, j);
    ChildFacts(n, i);
    if Opens(a, n.children[j]) { CutBeforeOpened(a, n, j, depth); } else { CutBeforePacked(a, n, j, depth); }
  }

  lemma PartedAfterTurn(a: Adapter, n: Node, i: nat, j: nat, depth: nat) returns (b: int)
    requires WellFormed(n) && CutUp(a, n) && depth < MAX_RANGE_DEPTH && Parted(a, n, i, j)
    ensures Between(n, i, j, b) && HasEnd(At(a, n, j + 1, depth), b)
  {
    AtSince(a, n, i, j, depth);
    if At(a, n, j, depth).start >= n.children[i].end {
      b := PartedSince(a, n, i, j, depth);
    } else {
      PartedAtFront(a, n, i, j, depth);
      b := FrontStart(a, n, j);
    }
  }

  lemma PartedChildren(a: Adapter, n: Node, i: nat, j: nat, depth: nat) returns (b: int)
    requires WellFormed(n) && CutUp(a, n) && depth < 128 && Parted(a, n, i, j)
    ensures Between(n, i, j, b) && EndsAt(Cut(a, n, depth), b)
  {
    OpensSplits(a, n);
    b := PartedAfterTurn(a, n, i, j, depth);
    EndStays(a, n, j + 1, depth, b);
  }

  // ---------------------------------------------------------------- no range ends anywhere else

  /** `r` is a range of `rs`, or one with a later begin moved back. */
  ghost predicate Carries(rs: seq<Range>, r: Range) {
    exists x <- rs :: x.hi == r.hi && r.lo <= x.lo
  }

  /** Why range `r` ends where it does: at the front of a taken child that begins a range of its own (in a node
      that is no container, only if the child did not fit with `r` in 6000 bytes), or as a range of an opened child. */
  ghost predicate Explained(a: Adapter, n: Node, depth: nat, r: Range)
    requires depth < MAX_RANGE_DEPTH
  {
    exists j :: 0 <= j < |n.children| && ExplainedBy(a, n, j, depth, r)
  }

  ghost predicate ExplainedBy(a: Adapter, n: Node, j: nat, depth: nat, r: Range)
    requires j < |n.children| && depth < MAX_RANGE_DEPTH
  {
    && Taken(a, n, j)
    && (|| (&& r.hi == FrontStart(a, n, j)
            && if Opens(a, n.children[j]) then !a.attaches(n.kind, n.children[j].kind)
               else a.container(n.kind) || n.children[j].end - r.lo > 6000)
        || (Opens(a, n.children[j]) && Carries(Cut(a, n.children[j], depth + 1), r)))
  }

  /** The ranges a turn adds or changes. */
  lemma NewRanges(a: Adapter, n: Node, j: nat, c: Cursor, sub: seq<Range>, start: int, first: int, from: int, any: bool, r: Range)
    requires j < |n.children| && !Defers(a, n, j) && Stands(c, start, first, from, any)
    requires c.pending.GetOr(n.children[j].start) == from
    requires r in Visit(a, n, j, c, sub).out && r !in c.out && (sub != [] ==> from <= sub[0].lo)
    ensures if a.Splits(n.children[j])
            then (r.hi == from && !a.attaches(n.kind, n.children[j].kind)) || Carries(sub, r)
            else r.hi == from && (a.container(n.kind) || n.children[j].end - r.lo > 6000)
  {
    var next := Visit(a, n, j, c, sub);
    var k :| 0 <= k < |next.out| && next.out[k] == r;
    if a.Splits(n.children[j]) {
      var before := BeforeOpened(a, n, j, c);
      if k >= |before| { assert sub[k - |before|] in sub && sub[k - |before|].hi == r.hi; }
    }
  }

  lemma TurnExplained(a: Adapter, n: Node, j: nat, depth: nat)
    requires WellFormed(n) && CutUp(a, n) && depth < MAX_RANGE_DEPTH && j < |n.children|
    requires forall r <- At(a, n, j, depth).out :: Explained(a, n, depth, r)
    ensures forall r <- At(a, n, j + 1, depth).out :: Explained(a, n, depth, r)
  {
    var c, next := At(a, n, j, depth), At(a, n, j + 1, depth);
    var sub := if Recurses(a, n, j) then Cut(a, n.children[j], depth + 1) else [];
    BeforeTurn(a, n, j, depth);
    WaitsDefers(a, n, j);
    OpensSplits(a, n.children[j]);
    SubEnds(a, n, j, depth);
    FrontInOrder(a, n, j);
    forall r <- next.out
      ensures Explained(a, n, depth, r)
    {
      if r !in c.out {
        NewRanges(a, n, j, c, sub, n.start, n.children[0].start, FrontStart(a, n, j), Front(a, n, j) > 0, r);
        assert ExplainedBy(a, n, j, depth, r);
      }
    }
  }

  lemma {:induction false} AtExplained(a: Adapter, n: Node, j: nat, depth: nat)
    requires WellFormed(n) && CutUp(a, n) && depth < MAX_RANGE_DEPTH && j <= |n.children|
    ensures forall r <- At(a, n, j, depth).out :: Explained(a, n, depth, r)
  {
    if j > 0 {
      AtExplained(a, n, j - 1, depth);
      TurnExplained(a, n, j - 1, depth);
    }
  }

  lemma EndsAreExplained(a: Adapter, n: Node, depth: nat)
    requires WellFormed(n) && CutUp(a, n) && depth < 128
    ensures forall r <- Cut(a, n, depth) :: r.hi == n.end || Explained(a, n, depth, r)
  {
    OpensSplits(a, n);
    AtExplained(a, n, |n.children|, depth);
    AtIsVisits(a, n, |n.children|, depth);
  }
}
