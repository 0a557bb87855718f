/** What the cut of a tree keeps: no byte from its first range on is lost or emitted twice. */
module RangeTiling {
  import opened Wrappers
  import opened Ranges

  /** Nonempty ranges, each beginning where the one before it ends, from `lo` to `hi`. */
  ghost predicate Tiles(rs: seq<Range>, lo: int, hi: int) {
    && rs != [] && rs[0].lo == lo && rs[|rs| - 1].hi == hi
    && (forall i :: 0 <= i < |rs| ==> rs[i].lo < rs[i].hi)
    && (forall i :: 0 < i < |rs| ==> rs[i - 1].hi == rs[i].lo)
  }

  ghost predicate Chains(rs: seq<Range>, lo: int, hi: int) {
    if rs == [] then lo == hi else Tiles(rs, lo, hi)
  }

  lemma Joins(xs: seq<Range>, ys: seq<Range>, lo: int, mid: int, hi: int)
    requires Chains(xs, lo, mid) && Tiles(ys, mid, hi)
    ensures Tiles(xs + ys, lo, hi)
  {
  }

  lemma WithLoTiles(rs: seq<Range>, lo: int, hi: int, lower: int)
    requires Tiles(rs, lo, hi) && lower <= lo
    ensures Tiles(WithLo(rs, lower), lower, hi)
  {
  }

  lemma StretchedTiles(rs: seq<Range>, lo: int, hi: int, further: int)
    requires Tiles(rs, lo, hi) && hi <= further
    ensures Tiles(Stretched(rs, Some(|rs| - 1), hi, further), lo, further)
  {
  }

  /** The first child from `i` on that does not wait for a later one. */
  function FirstTaken(a: Adapter, n: Node, i: nat): (k: nat)
    requires i <= |n.children|
    ensures i <= k <= |n.children|
    ensures forall j :: i <= j < k ==> Defers(a, n, j)
    ensures k < |n.children| ==> !Defers(a, n, k)
    decreases |n.children| - i
  {
    if i == |n.children| || !Defers(a, n, i) then i else FirstTaken(a, n, i + 1)
  }

  /** Exactly when a call drops the bytes before its first named child: it opens the node and the
      first child it takes is packed in a container or overflows the target. */
  ghost predicate DropsHeader(a: Adapter, n: Node, depth: nat) {
    && depth < MAX_RANGE_DEPTH && !a.Whole(n)
    && var k := FirstTaken(a, n, 0);
       && k < |n.children| && !a.Splits(n.children[k])
       && (a.container(n.kind) || n.children[k].end - n.start > TARGET_BYTES)
  }

  ghost function CutStart(a: Adapter, n: Node, depth: nat): (lo: int)
    ensures WellFormed(n) ==> n.start <= lo < n.end
    ensures WellFormed(n) && n.children != [] ==> lo <= n.children[0].start
  {
    assert n.children != [] ==> n.children[0] in n.children;
    assert WellFormed(n) && n.children != [] ==> WellFormed(n.children[0]);
    if DropsHeader(a, n, depth) then n.children[0].start else n.start
  }

  /** The state of the loop before child `i`. */
  ghost predicate Consistent(a: Adapter, n: Node, i: nat, c: Cursor, lo: int)
    requires i <= |n.children|
  {
    && n.start <= c.start <= c.end <= n.end
    && (i < |n.children| ==> c.end <= n.children[i].start)
    && (c.pending.Some? ==>
         c.end <= c.pending.value < n.end && (i < |n.children| ==> c.pending.value < n.children[i].start))
    && if FirstTaken(a, n, 0) >= i then
         // nothing but deferred children so far
         && c.out == [] && c.start == c.end == n.start && c.last == None
         && c.pending == if i == 0 then None else Some(n.children[0].start)
       else if c.start == c.end then
         // right after an opened child
         Tiles(c.out, lo, c.start) && c.last == Some(|c.out| - 1)
       else
         // a packed run is open
         Chains(c.out, lo, c.start) && c.last == None
  }

  lemma ChildFacts(n: Node, i: nat)
    requires WellFormed(n) && i < |n.children|
    ensures WellFormed(n.children[i])
    ensures n.start <= n.children[i].start < n.children[i].end <= n.end
    ensures n.children[0].start <= n.children[i].start
    ensures i + 1 < |n.children| ==> n.children[i].end <= n.children[i + 1].start
  {
    assert n.children[i] in n.children && n.children[0] in n.children;
    assert WellFormed(n.children[0]);
    if i > 0 { assert n.children[0].end <= n.children[i].start; }
  }

  lemma Rewritten(out: seq<Range>, lo: int, start: int, childStart: int, attach: bool,
    sub: seq<Range>, subLo: int, end: int)
    requires Chains(out, lo, start) && start <= childStart <= subLo && Tiles(sub, subLo, end)
    ensures var before := if childStart > start && !attach then out + [Range(start, childStart)] else out;
            var from := if attach then start else childStart;
            && Chains(before, lo, from) && Tiles(WithLo(sub, from), from, end)
            && Tiles(before + WithLo(sub, from), lo, end)
  {
    var before := if childStart > start && !attach then out + [Range(start, childStart)] else out;
    var from := if attach then start else childStart;
    if childStart > start && !attach { Joins(out, [Range(start, childStart)], lo, start, childStart); }
    WithLoTiles(sub, subLo, end, from);
    Joins(before, WithLo(sub, from), lo, from, end);
  }

  /** Where an opened child begins once rewritten, and what is pushed before it. */
  function OpenedFrom(a: Adapter, n: Node, i: nat, c: Cursor): int
    requires i < |n.children|
  {
    if a.attaches(n.kind, n.children[i].kind) then c.start else c.pending.GetOr(n.children[i].start)
  }

  function BeforeOpened(a: Adapter, n: Node, i: nat, c: Cursor): seq<Range>
    requires i < |n.children|
  {
    var childStart := c.pending.GetOr(n.children[i].start);
    if childStart > c.start && !a.attaches(n.kind, n.children[i].kind) then c.out + [Range(c.start, childStart)] else c.out
  }

  lemma OpenedOut(a: Adapter, n: Node, i: nat, c: Cursor, sub: seq<Range>)
    requires i < |n.children| && Recurses(a, n, i)
    ensures Visit(a, n, i, c, sub).out == BeforeOpened(a, n, i, c) + WithLo(sub, OpenedFrom(a, n, i, c))
  {
  }

  lemma OpenedParts(a: Adapter, n: Node, i: nat, c: Cursor, depth: nat, sub: seq<Range>)
    requires WellFormed(n) && i < |n.children| && depth < MAX_RANGE_DEPTH && !a.Whole(n)
    requires Recurses(a, n, i) && Consistent(a, n, i, c, CutStart(a, n, depth))
    requires Tiles(sub, CutStart(a, n.children[i], depth + 1), n.children[i].end)
    ensures var from := OpenedFrom(a, n, i, c);
            && Chains(BeforeOpened(a, n, i, c), CutStart(a, n, depth), from)
            && Tiles(WithLo(sub, from), from, n.children[i].end)
            && Tiles(BeforeOpened(a, n, i, c) + WithLo(sub, from), CutStart(a, n, depth), n.children[i].end)
  {
    ChildFacts(n, i);
    var child := n.children[i];
    var lo := CutStart(a, n, depth);
    assert Chains(c.out, lo, c.start) by {
      if FirstTaken(a, n, 0) >= i { assert FirstTaken(a, n, 0) == i; }
    }
    Rewritten(c.out, lo, c.start, c.pending.GetOr(child.start), a.attaches(n.kind, child.kind),
      sub, CutStart(a, child, depth + 1), child.end);
  }

  lemma OpenedTiles(a: Adapter, n: Node, i: nat, c: Cursor, depth: nat, sub: seq<Range>)
    requires WellFormed(n) && i < |n.children| && depth < MAX_RANGE_DEPTH && !a.Whole(n)
    requires Recurses(a, n, i) && Consistent(a, n, i, c, CutStart(a, n, depth))
    requires Tiles(sub, CutStart(a, n.children[i], depth + 1), n.children[i].end)
    ensures Tiles(Visit(a, n, i, c, sub).out, CutStart(a, n, depth), n.children[i].end)
    ensures |Visit(a, n, i, c, sub).out| > |c.out|
  {
    OpenedOut(a, n, i, c, sub);
    OpenedParts(a, n, i, c, depth, sub);
  }

  /** An opened child's ranges, after the caller's rewrite, tile it from its attached prefix, or
      from the header before it, to its end; nothing between the last range and them is lost. */
  lemma OpenedChildTiles(a: Adapter, n: Node, i: nat, c: Cursor, depth: nat, sub: seq<Range>)
    requires WellFormed(n) && i < |n.children| && depth < MAX_RANGE_DEPTH && !a.Whole(n)
    requires Recurses(a, n, i) && Consistent(a, n, i, c, CutStart(a, n, depth))
    requires sub == Cut(a, n.children[i], depth + 1)
    ensures var from := OpenedFrom(a, n, i, c);
            var next := Visit(a, n, i, c, sub);
            && |sub| <= |next.out|
            && Tiles(next.out[|next.out| - |sub|..], from, n.children[i].end)
            && Chains(next.out[..|next.out| - |sub|], CutStart(a, n, depth), from)
  {
    ChildFacts(n, i);
    CutTiles(a, n.children[i], depth + 1);
    OpenedOut(a, n, i, c, sub);
    OpenedParts(a, n, i, c, depth, sub);
    SplitBack(BeforeOpened(a, n, i, c), WithLo(sub, OpenedFrom(a, n, i, c)));
  }

  lemma SplitBack(s: seq<Range>, t: seq<Range>)
    ensures (s + t)[..|s + t| - |t|] == s && (s + t)[|s + t| - |t|..] == t
  {
  }

  lemma PackedChildChains(a: Adapter, n: Node, i: nat, c: Cursor, depth: nat)
    requires WellFormed(n) && i < |n.children| && depth < MAX_RANGE_DEPTH && !a.Whole(n)
    requires !Defers(a, n, i) && !a.Splits(n.children[i])
    requires Consistent(a, n, i, c, CutStart(a, n, depth))
    ensures var next := Visit(a, n, i, c, []);
            Chains(next.out, CutStart(a, n, depth), next.start) && n.start <= next.start
  {
    ChildFacts(n, i);
    var child := n.children[i];
    var childStart := c.pending.GetOr(child.start);
    var lo := CutStart(a, n, depth);
    if FirstTaken(a, n, 0) >= i {
      assert FirstTaken(a, n, 0) == i;
    } else if a.container(n.kind) || child.end - c.start > TARGET_BYTES {
      if c.end > c.start {
        Joins(c.out, [Range(c.start, childStart)], lo, c.start, childStart);
      } else {
        StretchedTiles(c.out, lo, c.start, childStart);
      }
    }
  }

  lemma NextChild(n: Node, i: nat)
    requires WellFormed(n) && i < |n.children|
    ensures i + 1 < |n.children| ==>
              n.children[i].start < n.children[i].end <= n.children[i + 1].start < n.end
  {
    ChildFacts(n, i);
    if i + 1 < |n.children| { ChildFacts(n, i + 1); }
  }

  lemma DeferredConsistent(a: Adapter, n: Node, i: nat, c: Cursor, lo: int)
    requires WellFormed(n) && i < |n.children| && Defers(a, n, i) && Consistent(a, n, i, c, lo)
    ensures Consistent(a, n, i + 1, Visit(a, n, i, c, []), lo)
  {
    ChildFacts(n, i);
    NextChild(n, i);
  }

  lemma OpenedConsistent(a: Adapter, n: Node, i: nat, c: Cursor, depth: nat, sub: seq<Range>)
    requires WellFormed(n) && i < |n.children| && depth < MAX_RANGE_DEPTH && !a.Whole(n)
    requires Recurses(a, n, i) && Consistent(a, n, i, c, CutStart(a, n, depth))
    requires Tiles(sub, CutStart(a, n.children[i], depth + 1), n.children[i].end)
    ensures Consistent(a, n, i + 1, Visit(a, n, i, c, sub), CutStart(a, n, depth))
  {
    ChildFacts(n, i);
    NextChild(n, i);
    OpenedTiles(a, n, i, c, depth, sub);
    var next := Visit(a, n, i, c, sub);
    assert next.start == next.end == n.children[i].end && next.pending == None;
    assert next.last == Some(|next.out| - 1);
  }

  lemma PackedConsistent(a: Adapter, n: Node, i: nat, c: Cursor, depth: nat)
    requires WellFormed(n) && i < |n.children| && depth < MAX_RANGE_DEPTH && !a.Whole(n)
    requires !Defers(a, n, i) && !a.Splits(n.children[i])
    requires Consistent(a, n, i, c, CutStart(a, n, depth))
    ensures Consistent(a, n, i + 1, Visit(a, n, i, c, []), CutStart(a, n, depth))
  {
    ChildFacts(n, i);
    NextChild(n, i);
    PackedChildChains(a, n, i, c, depth);
  }

  lemma VisitConsistent(a: Adapter, n: Node, i: nat, c: Cursor, depth: nat, sub: seq<Range>)
    requires WellFormed(n) && i < |n.children| && depth < MAX_RANGE_DEPTH && !a.Whole(n)
    requires Consistent(a, n, i, c, CutStart(a, n, depth))
    requires if Recurses(a, n, i) then Tiles(sub, CutStart(a, n.children[i], depth + 1), n.children[i].end)
             else sub == []
    ensures Consistent(a, n, i + 1, Visit(a, n, i, c, sub), CutStart(a, n, depth))
  {
    if Recurses(a, n, i) {
      OpenedConsistent(a, n, i, c, depth, sub);
    } else if Defers(a, n, i) {
      DeferredConsistent(a, n, i, c, CutStart(a, n, depth));
    } else {
      PackedConsistent(a, n, i, c, depth);
    }
  }

  lemma {:induction false} TurnConsistent(a: Adapter, n: Node, i: nat, c: Cursor, depth: nat)
    requires WellFormed(n) && i < |n.children| && depth < MAX_RANGE_DEPTH && !a.Whole(n)
    requires Consistent(a, n, i, c, CutStart(a, n, depth))
    ensures Consistent(a, n, i + 1, Turn(a, n, i, c, depth), CutStart(a, n, depth))
    decreases MAX_RANGE_DEPTH - depth, 0, 0
  {
    if Recurses(a, n, i) {
      ChildFacts(n, i);
      CutTiles(a, n.children[i], depth + 1);
      VisitConsistent(a, n, i, c, depth, Cut(a, n.children[i], depth + 1));
    } else {
      VisitConsistent(a, n, i, c, depth, []);
    }
  }

  lemma {:induction false} VisitsConsistent(a: Adapter, n: Node, i: nat, c: Cursor, depth: nat)
    requires WellFormed(n) && i <= |n.children| && depth < MAX_RANGE_DEPTH && !a.Whole(n)
    requires Consistent(a, n, i, c, CutStart(a, n, depth))
    ensures Consistent(a, n, |n.children|, Visits(a, n, i, c, depth), CutStart(a, n, depth))
    decreases MAX_RANGE_DEPTH - depth, 0, |n.children| - i
  {
    if i < |n.children| {
      TurnConsistent(a, n, i, c, depth);
      VisitsConsistent(a, n, i + 1, Turn(a, n, i, c, depth), depth);
    }
  }

  /** The ranges of a node are nonempty and contiguous and end exactly at its end. They begin at
      its start, or at its first named child's start exactly when `DropsHeader`. */
  lemma {:induction false} CutTiles(a: Adapter, n: Node, depth: nat)
    requires WellFormed(n) && depth <= MAX_RANGE_DEPTH
    ensures Tiles(Cut(a, n, depth), CutStart(a, n, depth), n.end)
    decreases MAX_RANGE_DEPTH - depth, 1, 0
  {
    if depth < MAX_RANGE_DEPTH && !a.Whole(n) {
      var c := Visits(a, n, 0, Initial(n), depth);
      var lo := CutStart(a, n, depth);
      ChildFacts(n, 0);
      VisitsConsistent(a, n, 0, Initial(n), depth);
      if n.end > c.start {
        Joins(c.out, [Range(c.start, n.end)], lo, c.start, n.end);
      }
    }
  }
}
