/** What the cut of a tree never does: end or begin a range inside a node that fits. */
module RangeAtoms {
  import opened Ranges
  import opened RangeTiling

  /** Offset `b` is strictly inside no atom of the tree of `n`, at any depth. */
  ghost predicate Clear(a: Adapter, n: Node, b: int) {
    && (a.Atom(n) ==> !(n.start < b < n.end))
    && forall c <- n.children :: Clear(a, c, b)
  }

  ghost predicate AllClear(a: Adapter, n: Node, rs: seq<Range>) {
    forall r <- rs :: Clear(a, n, r.lo) && Clear(a, n, r.hi)
  }

  ghost predicate ClearOfChildren(a: Adapter, n: Node, b: int) {
    forall c <- n.children :: Clear(a, c, b)
  }

  ghost predicate AllClearOfChildren(a: Adapter, n: Node, rs: seq<Range>) {
    forall r <- rs :: ClearOfChildren(a, n, r.lo) && ClearOfChildren(a, n, r.hi)
  }

  lemma {:induction false} OutsideClear(a: Adapter, n: Node, b: int)
    requires Nested(n) && (b <= n.start || n.end <= b)
    ensures Clear(a, n, b)
    decreases n
  {
    forall c <- n.children
      ensures Clear(a, c, b)
    {
      OutsideClear(a, c, b);
    }
  }

  /** An offset not strictly inside child `i` but within its extent, or clear of that child, is
      clear of all children. */
  lemma ChildOffsetClear(a: Adapter, n: Node, i: nat, b: int)
    requires Nested(n) && i < |n.children|
    requires n.children[i].start <= b <= n.children[i].end && Clear(a, n.children[i], b)
    ensures ClearOfChildren(a, n, b)
  {
    forall c <- n.children
      ensures Clear(a, c, b)
    {
      var j :| 0 <= j < |n.children| && n.children[j] == c;
      if j < i {
        assert n.children[j].end <= n.children[i].start;
        OutsideClear(a, c, b);
      } else if i < j {
        assert n.children[i].end <= n.children[j].start;
        OutsideClear(a, c, b);
      }
    }
  }

  lemma {:induction false} ChildEdgeClear(a: Adapter, n: Node, i: nat)
    requires Nested(n) && i < |n.children|
    ensures ClearOfChildren(a, n, n.children[i].start) && ClearOfChildren(a, n, n.children[i].end)
  {
    var c := n.children[i];
    assert Nested(c);
    OutsideClear(a, c, c.start);
    OutsideClear(a, c, c.end);
    ChildOffsetClear(a, n, i, c.start);
    ChildOffsetClear(a, n, i, c.end);
  }

  lemma {:induction false} TileWithin(rs: seq<Range>, lo: int, hi: int, k: nat)
    requires Tiles(rs, lo, hi) && k < |rs|
    ensures lo <= rs[k].lo < rs[k].hi <= hi
    decreases |rs|
  {
    if |rs| > 1 {
      var rest := rs[1..];
      if k == 0 { TileWithin(rest, rs[0].hi, hi, 0); } else { TileWithin(rest, rs[0].hi, hi, k - 1); }
    }
  }

  lemma OpenedRangesClear(a: Adapter, n: Node, i: nat, sub: seq<Range>, lo: int)
    requires WellFormed(n) && i < |n.children| && n.children[i].start <= lo
    requires Tiles(sub, lo, n.children[i].end) && AllClear(a, n.children[i], sub)
    ensures AllClearOfChildren(a, n, sub)
  {
    forall r <- sub
      ensures ClearOfChildren(a, n, r.lo) && ClearOfChildren(a, n, r.hi)
    {
      var k :| 0 <= k < |sub| && sub[k] == r;
      TileWithin(sub, lo, n.children[i].end, k);
      ChildOffsetClear(a, n, i, r.lo);
      ChildOffsetClear(a, n, i, r.hi);
    }
  }

  ghost predicate CursorClear(a: Adapter, n: Node, c: Cursor) {
    && AllClearOfChildren(a, n, c.out)
    && ClearOfChildren(a, n, c.start)
    && (c.pending.Some? ==> ClearOfChildren(a, n, c.pending.value))
  }

  lemma VisitClear(a: Adapter, n: Node, i: nat, c: Cursor, sub: seq<Range>)
    requires Nested(n) && i < |n.children| && CursorClear(a, n, c)
    requires AllClearOfChildren(a, n, sub)
    ensures CursorClear(a, n, Visit(a, n, i, c, sub))
  {
    ChildEdgeClear(a, n, i);
    var childStart := c.pending.GetOr(n.children[i].start);
    if Recurses(a, n, i) {
      var from := OpenedFrom(a, n, i, c);
      OpenedOut(a, n, i, c, sub);
    } else {
    }
  }

  /** What an opened child pushes is clear of all its siblings' atoms too. */
  lemma {:induction false} OpenedCutClear(a: Adapter, n: Node, i: nat, depth: nat)
    requires WellFormed(n) && i < |n.children| && depth < MAX_RANGE_DEPTH
    ensures AllClearOfChildren(a, n, Cut(a, n.children[i], depth + 1))
    decreases MAX_RANGE_DEPTH - depth, 0, 0
  {
    var child := n.children[i];
    ChildFacts(n, i);
    CutClear(a, child, depth + 1);
    CutTiles(a, child, depth + 1);
    OpenedRangesClear(a, n, i, Cut(a, child, depth + 1), CutStart(a, child, depth + 1));
  }

  lemma {:induction false} TurnClear(a: Adapter, n: Node, i: nat, c: Cursor, depth: nat)
    requires WellFormed(n) && i < |n.children| && depth < MAX_RANGE_DEPTH && CursorClear(a, n, c)
    ensures CursorClear(a, n, Turn(a, n, i, c, depth))
    decreases MAX_RANGE_DEPTH - depth, 0, 1
  {
    if Recurses(a, n, i) {
      OpenedCutClear(a, n, i, depth);
      VisitClear(a, n, i, c, Cut(a, n.children[i], depth + 1));
    } else {
      VisitClear(a, n, i, c, []);
    }
  }

  lemma {:induction false} VisitsClear(a: Adapter, n: Node, i: nat, c: Cursor, depth: nat)
    requires WellFormed(n) && i <= |n.children| && depth < MAX_RANGE_DEPTH && CursorClear(a, n, c)
    ensures CursorClear(a, n, Visits(a, n, i, c, depth))
    decreases MAX_RANGE_DEPTH - depth, 1, |n.children| - i
  {
    if i < |n.children| {
      TurnClear(a, n, i, c, depth);
      VisitsClear(a, n, i + 1, Turn(a, n, i, c, depth), depth);
    }
  }

  /** No range of a node begins or ends strictly inside an atom of its tree. */
  lemma {:induction false} CutClear(a: Adapter, n: Node, depth: nat)
    requires WellFormed(n) && depth <= MAX_RANGE_DEPTH
    ensures AllClear(a, n, Cut(a, n, depth))
    decreases MAX_RANGE_DEPTH - depth, 2, 0
  {
    OutsideClear(a, n, n.start);
    OutsideClear(a, n, n.end);
    if depth < MAX_RANGE_DEPTH && !a.Whole(n) {
      VisitsClear(a, n, 0, Initial(n), depth);
    }
  }

  /** `d` is `n` or a node below it. */
  ghost predicate InTree(d: Node, n: Node) {
    d == n || exists c <- n.children :: InTree(d, c)
  }

  lemma {:induction false} InTreeFacts(a: Adapter, n: Node, d: Node, b: int)
    requires WellFormed(n) && InTree(d, n)
    ensures WellFormed(d) && n.start <= d.start && d.end <= n.end
    ensures d != n ==> n.children != [] && n.children[0].start <= d.start
    ensures Clear(a, n, b) ==> Clear(a, d, b)
    decreases n
  {
    if d != n {
      var c :| c in n.children && InTree(d, c);
      InTreeFacts(a, c, d, b);
      var j :| 0 <= j < |n.children| && n.children[j] == c;
      ChildFacts(n, j);
    }
  }

  /** Range `k` holds the extent [lo, hi) and no other range meets it. */
  ghost predicate OnlyHolder(rs: seq<Range>, k: nat, lo: int, hi: int) {
    && k < |rs| && rs[k].lo <= lo && hi <= rs[k].hi
    && forall i :: 0 <= i < |rs| && i != k ==> rs[i].hi <= lo || hi <= rs[i].lo
  }

  /** Tiles that never cut the extent [lo, hi) hold it in one range. */
  lemma {:induction false} HeldByOneRange(rs: seq<Range>, from: int, to: int, lo: int, hi: int) returns (k: nat)
    requires Tiles(rs, from, to) && from <= lo < hi <= to
    requires forall i :: 0 <= i < |rs| ==> !(lo < rs[i].hi < hi)
    ensures OnlyHolder(rs, k, lo, hi)
    decreases |rs|
  {
    if lo < rs[0].hi {
      k := 0;
      forall i | 0 < i < |rs|
        ensures hi <= rs[i].lo
      {
        assert Tiles(rs[1..], rs[0].hi, to);
        TileWithin(rs[1..], rs[0].hi, to, i - 1);
      }
    } else {
      var rest := rs[1..];
      assert rest != [];
      var k' := HeldByOneRange(rest, rs[0].hi, to, lo, hi);
      k := k' + 1;
      forall i | 0 <= i < |rs| && i != k
        ensures rs[i].hi <= lo || hi <= rs[i].lo
      {
        if i > 0 { assert rs[i] == rest[i - 1]; }
      }
    }
  }

  lemma AtomUncut(a: Adapter, n: Node, d: Node, rs: seq<Range>)
    requires WellFormed(n) && InTree(d, n) && a.Atom(d) && AllClear(a, n, rs)
    ensures forall i :: 0 <= i < |rs| ==> !(d.start < rs[i].hi < d.end)
  {
  }

  /** Every atom below a node lies in exactly one range of the node, and meets no other. */
  lemma AtomInOneRange(a: Adapter, n: Node, d: Node, depth: nat)
    requires WellFormed(n) && depth <= MAX_RANGE_DEPTH && InTree(d, n) && d != n && a.Atom(d)
    ensures exists k :: OnlyHolder(Cut(a, n, depth), k, d.start, d.end)
  {
    CutTiles(a, n, depth);
    CutClear(a, n, depth);
    InTreeFacts(a, n, d, 0);
    AtomUncut(a, n, d, Cut(a, n, depth));
    var k := HeldByOneRange(Cut(a, n, depth), CutStart(a, n, depth), n.end, d.start, d.end);
  }
}
