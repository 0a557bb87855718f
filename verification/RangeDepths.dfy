/** The ends of ranges at any depth: an opened node is cut inside its parent's ranges as it is cut alone. */
module RangeDepths {
  import opened Ranges
  import opened RangeTiling
  import opened RangeParts

  /** `d` is the node that `path` leads to from `n`, and every node passed on the way is cut up. */
  ghost predicate Reaches(a: Adapter, n: Node, path: seq<nat>, d: Node)
    decreases |path|
  {
    if path == [] then d == n
    else
      && CutUp(a, n) && Taken(a, n, path[0]) && Opens(a, n.children[path[0]])
      && Reaches(a, n.children[path[0]], path[1..], d)
  }

  /** Child `i` has end `b` when cut alone. */
  lemma OpenedEndStays(a: Adapter, n: Node, i: nat, depth: nat, b: int)
    requires WellFormed(n) && CutUp(a, n) && depth < 128 && Taken(a, n, i) && Opens(a, n.children[i])
    requires EndsAt(Cut(a, n.children[i], depth + 1), b) && b < n.children[i].end
    ensures EndsAt(Cut(a, n, depth), b)
  {
    var c, sub := At(a, n, i, depth), Cut(a, n.children[i], depth + 1);
    OpensSplits(a, n);
    OpensSplits(a, n.children[i]);
    WaitsDefers(a, n, i);
    SubEnds(a, n, i, depth);
    SubEndStays(a, n, i, c, sub, b);
    EndStays(a, n, i + 1, depth, b);
  }

  lemma SubEndStays(a: Adapter, n: Node, i: nat, c: Cursor, sub: seq<Range>, b: int)
    requires i < |n.children| && Recurses(a, n, i) && EndsAt(sub, b) && sub[|sub| - 1].hi > b
    ensures HasEnd(Visit(a, n, i, c, sub), b)
  {
    var r :| r in sub && r.hi == b;
    var k :| 0 <= k < |sub| && sub[k] == r;
    var before := BeforeOpened(a, n, i, c);
    assert Visit(a, n, i, c, sub).out[|before| + k].hi == b;
  }

  lemma InsideOne(n: Node, i: nat, j: nat, b: int)
    requires WellFormed(n) && i < |n.children| && j < |n.children|
    requires n.children[i].start < b < n.children[i].end && n.children[j].start <= b <= n.children[j].end
    ensures i == j
  {
    ChildFacts(n, i);
    ChildFacts(n, j);
  }

  /** What a range that ends strictly inside child `i` is explained by. */
  lemma ExplainedInside(a: Adapter, n: Node, i: nat, depth: nat, r: Range)
    requires WellFormed(n) && depth < 128 && i < |n.children| && n.children[i].start < r.hi < n.children[i].end
    requires Explained(a, n, depth, r)
    ensures Taken(a, n, i) && Opens(a, n.children[i]) && Carries(Cut(a, n.children[i], depth + 1), r)
  {
    var j :| 0 <= j < |n.children| && ExplainedBy(a, n, j, depth, r);
    ChildFacts(n, Front(a, n, j));
    if r.hi == FrontStart(a, n, j) {
      InsideOne(n, i, Front(a, n, j), r.hi);
    } else {
      SubEnds(a, n, j, depth);
      InsideOne(n, i, j, r.hi);
    }
  }

  /** A range that ends strictly inside an opened child is one of the child's own, perhaps begun earlier. */
  lemma InsideIsTheChilds(a: Adapter, n: Node, i: nat, depth: nat, r: Range)
    requires WellFormed(n) && CutUp(a, n) && depth < 128 && i < |n.children|
    requires r in Cut(a, n, depth) && n.children[i].start < r.hi < n.children[i].end
    ensures Taken(a, n, i) && Opens(a, n.children[i]) && Carries(Cut(a, n.children[i], depth + 1), r)
  {
    EndsAreExplained(a, n, depth);
    ChildFacts(n, i);
    ExplainedInside(a, n, i, depth, r);
  }

  /** Where the children taken before child `j` end. */
  ghost function EndBefore(a: Adapter, n: Node, j: nat): int
    requires j < |n.children|
  {
    var f := Front(a, n, j);
    if f > 0 then n.children[f - 1].end else n.start
  }

  lemma EndBeforeBounds(a: Adapter, n: Node, i: nat, j: nat)
    requires WellFormed(n) && Taken(a, n, i) && i < j < |n.children|
    ensures n.children[i].end <= EndBefore(a, n, j) <= FrontStart(a, n, j)
  {
    FrontAfter(a, n, i, j);
    var f := Front(a, n, j);
    ChildFacts(n, f - 1);
    ChildFacts(n, f);
    if i < f - 1 { assert n.children[i].end <= n.children[f - 1].start; }
  }

  lemma FrontsApart(a: Adapter, n: Node, i: nat, j: nat, b: int)
    requires WellFormed(n) && Taken(a, n, i) && Taken(a, n, j) && i != j
    ensures !(EndBefore(a, n, j) < b <= n.children[j].start && FrontStart(a, n, i) <= b <= n.children[i].end)
  {
    FrontInOrder(a, n, j);
    if i < j { EndBeforeBounds(a, n, i, j); } else { EndBeforeBounds(a, n, j, i); }
  }

  lemma ExplainedAround(a: Adapter, n: Node, i: nat, depth: nat, r: Range)
    requires WellFormed(n) && depth < 128 && i < |n.children| && ExplainedBy(a, n, i, depth, r)
    ensures FrontStart(a, n, i) <= r.hi <= n.children[i].end
    ensures r.hi <= n.children[i].start ==>
              r.hi == FrontStart(a, n, i) && (Opens(a, n.children[i]) ==> !a.attaches(n.kind, n.children[i].kind))
  {
    FrontInOrder(a, n, i);
    SubEnds(a, n, i, depth);
  }

  /** What a range that ends before the start of child `j`, but past the children before it, is explained by. */
  lemma ExplainedBefore(a: Adapter, n: Node, j: nat, depth: nat, r: Range)
    requires WellFormed(n) && depth < 128 && Taken(a, n, j) && EndBefore(a, n, j) < r.hi <= n.children[j].start
    requires Explained(a, n, depth, r)
    ensures r.hi == FrontStart(a, n, j) && (Opens(a, n.children[j]) ==> !a.attaches(n.kind, n.children[j].kind))
  {
    var i :| 0 <= i < |n.children| && ExplainedBy(a, n, i, depth, r);
    ExplainedAround(a, n, i, depth, r);
    if i != j { FrontsApart(a, n, i, j, r.hi); }
  }

  lemma {:induction false} ReachesWithin(a: Adapter, n: Node, path: seq<nat>, d: Node)
    requires WellFormed(n) && Reaches(a, n, path, d)
    ensures WellFormed(d) && n.start <= d.start < d.end <= n.end
    decreases |path|
  {
    if path != [] {
      ChildFacts(n, path[0]);
      ReachesWithin(a, n.children[path[0]], path[1..], d);
    }
  }

  /** Ends strictly inside a node reached through opened nodes are the ends it has when cut alone. */
  lemma {:induction false} EndsAtDepth(a: Adapter, n: Node, path: seq<nat>, d: Node, depth: nat, b: int)
    requires WellFormed(n) && Reaches(a, n, path, d) && depth + |path| <= 128 && d.start < b < d.end
    ensures EndsAt(Cut(a, n, depth), b) <==> EndsAt(Cut(a, d, depth + |path|), b)
    decreases |path|
  {
    if path != [] {
      var c := n.children[path[0]];
      ChildFacts(n, path[0]);
      ReachesWithin(a, c, path[1..], d);
      EndsAtDepth(a, c, path[1..], d, depth + 1, b);
      if EndsAt(Cut(a, n, depth), b) {
        var r :| r in Cut(a, n, depth) && r.hi == b;
        InsideIsTheChilds(a, n, path[0], depth, r);
      }
      if EndsAt(Cut(a, c, depth + 1), b) { OpenedEndStays(a, n, path[0], depth, b); }
    }
  }

  lemma {:induction false} RangesAtDepth(a: Adapter, n: Node, path: seq<nat>, d: Node, depth: nat, r: Range)
    requires WellFormed(n) && Reaches(a, n, path, d) && depth + |path| <= 128
    requires Carries(Cut(a, n, depth), r) && d.start < r.hi < d.end
    ensures Carries(Cut(a, d, depth + |path|), r)
    decreases |path|
  {
    if path != [] {
      ChildFacts(n, path[0]);
      ReachesWithin(a, n.children[path[0]], path[1..], d);
      var x :| x in Cut(a, n, depth) && x.hi == r.hi && r.lo <= x.lo;
      InsideIsTheChilds(a, n, path[0], depth, x);
      RangesAtDepth(a, n.children[path[0]], path[1..], d, depth + 1, r);
    }
  }

  // ---------------------------------------------------------------- the rules at any depth

  lemma BetweenInside(d: Node, i: nat, j: nat, b: int)
    requires WellFormed(d) && i < |d.children| && j < |d.children| && Between(d, i, j, b)
    ensures d.start < b < d.end
  {
    ChildFacts(d, i);
    ChildFacts(d, j);
  }

  /** Two children parted by the rules lie in different ranges of the whole tree: one ends between them. */
  lemma PartedInTree(a: Adapter, root: Node, path: seq<nat>, d: Node, i: nat, j: nat)
    requires WellFormed(root) && Reaches(a, root, path, d) && |path| < 128 && CutUp(a, d)
    requires Parted(a, d, i, j)
    ensures exists r <- Cut(a, root, 0) :: d.children[i].end <= r.hi <= d.children[j].start
  {
    ReachesWithin(a, root, path, d);
    var b := PartedChildren(a, d, i, j, |path|);
    BetweenInside(d, i, j, b);
    EndsAtDepth(a, root, path, d, 0, b);
  }

  lemma FrontInside(a: Adapter, d: Node, j: nat)
    requires WellFormed(d) && Taken(a, d, j) && (Front(a, d, j) > 0 || FrontStart(a, d, j) > d.start)
    ensures d.start < FrontStart(a, d, j) < d.end
  {
    FrontInOrder(a, d, j);
    ChildFacts(d, j);
    ChildFacts(d, 0);
    if Front(a, d, j) > 0 { assert d.children[0].end <= FrontStart(a, d, j); }
  }

  /** A child that begins a range of its own begins it at the first child waiting for it. */
  lemma FrontsInTree(a: Adapter, root: Node, path: seq<nat>, d: Node, j: nat)
    requires WellFormed(root) && Reaches(a, root, path, d) && |path| < 128 && CutUp(a, d) && Taken(a, d, j)
    requires if Opens(a, d.children[j]) then !a.attaches(d.kind, d.children[j].kind) && FrontStart(a, d, j) > d.start
             else a.container(d.kind) && Front(a, d, j) > 0
    ensures EndsAt(Cut(a, root, 0), FrontStart(a, d, j))
  {
    ReachesWithin(a, root, path, d);
    CutBeforeChild(a, d, j, |path|);
    FrontInside(a, d, j);
    EndsAtDepth(a, root, path, d, 0, FrontStart(a, d, j));
  }

  lemma CarriedExplained(a: Adapter, d: Node, depth: nat, r: Range)
    requires WellFormed(d) && CutUp(a, d) && depth < 128 && Carries(Cut(a, d, depth), r) && r.hi != d.end
    ensures Explained(a, d, depth, r)
  {
    var x :| x in Cut(a, d, depth) && x.hi == r.hi && r.lo <= x.lo;
    EndsAreExplained(a, d, depth);
    var j :| 0 <= j < |d.children| && ExplainedBy(a, d, j, depth, x);
    assert ExplainedBy(a, d, j, depth, r);
  }

  /** And no range of the whole tree ends inside an opened node anywhere else. */
  lemma EndsInTreeAreExplained(a: Adapter, root: Node, path: seq<nat>, d: Node, r: Range)
    requires WellFormed(root) && Reaches(a, root, path, d) && |path| < 128 && CutUp(a, d)
    requires r in Cut(a, root, 0) && d.start < r.hi < d.end
    ensures Explained(a, d, |path|, r)
  {
    ReachesWithin(a, root, path, d);
    RangesAtDepth(a, root, path, d, 0, r);
    CarriedExplained(a, d, |path|, r);
  }

  /** A child that waits, and one that is not opened, is cut nowhere. */
  lemma UnopenedIsWhole(a: Adapter, root: Node, path: seq<nat>, d: Node, j: nat, r: Range)
    requires WellFormed(root) && Reaches(a, root, path, d) && |path| < 128 && CutUp(a, d) && j < |d.children|
    requires Waits(a, d, j) || !Opens(a, d.children[j])
    requires r in Cut(a, root, 0)
    ensures !(d.children[j].start < r.hi < d.children[j].end)
  {
    if d.children[j].start < r.hi < d.children[j].end {
      ReachesWithin(a, root, path, d);
      ChildFacts(d, j);
      EndsInTreeAreExplained(a, root, path, d, r);
      ExplainedInside(a, d, j, |path|, r);
    }
  }

  lemma BeforeInside(a: Adapter, d: Node, j: nat, b: int)
    requires WellFormed(d) && j < |d.children| && EndBefore(a, d, j) < b <= d.children[j].start
    ensures d.start < b < d.end
  {
    ChildFacts(d, j);
    if Front(a, d, j) > 0 { ChildFacts(d, Front(a, d, j) - 1); }
  }

  /** Prefix children stay with the child they wait for, and an attached header with the opened child after it:
      from the end of the children before them to the start of that child no range ends, but for the one
      place where a child that attaches nothing begins its range. */
  lemma FrontStaysWithChild(a: Adapter, root: Node, path: seq<nat>, d: Node, j: nat, r: Range)
    requires WellFormed(root) && Reaches(a, root, path, d) && |path| < 128 && CutUp(a, d) && Taken(a, d, j)
    requires r in Cut(a, root, 0) && EndBefore(a, d, j) < r.hi <= d.children[j].start
    ensures r.hi == FrontStart(a, d, j) && (Opens(a, d.children[j]) ==> !a.attaches(d.kind, d.children[j].kind))
  {
    ReachesWithin(a, root, path, d);
    BeforeInside(a, d, j, r.hi);
    EndsInTreeAreExplained(a, root, path, d, r);
    ExplainedBefore(a, d, j, |path|, r);
  }

  lemma NoneWaits(a: Adapter, n: Node, i: nat)
    requires !a.container(n.kind) && i < |n.children|
    ensures FrontStart(a, n, i) == n.children[i].start
  {
  }

  /** An end from the end of child `j - 1` to the start of child `j` is in no other child. */
  lemma OnlyAtStart(n: Node, i: nat, j: nat, b: int)
    requires WellFormed(n) && i < |n.children| && 0 < j < |n.children|
    requires n.children[j - 1].end <= b <= n.children[j].start && n.children[i].start <= b <= n.children[i].end
    ensures i == j || (i == j - 1 && b > n.children[i].start)
  {
    ChildFacts(n, i);
    ChildFacts(n, j - 1);
    ChildFacts(n, j);
  }

  lemma ApartBy(a: Adapter, n: Node, i: nat, j: nat, depth: nat, r: Range)
    requires WellFormed(n) && depth < 128 && !a.container(n.kind) && i < |n.children| && ExplainedBy(a, n, i, depth, r)
    requires 0 < j < |n.children| && !Opens(a, n.children[j - 1]) && !Opens(a, n.children[j])
    requires n.children[j - 1].end <= r.hi <= n.children[j].start
    ensures n.children[j].end - r.lo > 6000
  {
    NoneWaits(a, n, i);
    SubEnds(a, n, i, depth);
    OnlyAtStart(n, i, j, r.hi);
  }

  lemma ExplainedApart(a: Adapter, n: Node, j: nat, depth: nat, r: Range)
    requires WellFormed(n) && depth < 128 && !a.container(n.kind) && Explained(a, n, depth, r)
    requires 0 < j < |n.children| && !Opens(a, n.children[j - 1]) && !Opens(a, n.children[j])
    requires n.children[j - 1].end <= r.hi <= n.children[j].start
    ensures n.children[j].end - r.lo > 6000
  {
    var i :| 0 <= i < |n.children| && ExplainedBy(a, n, i, depth, r);
    ApartBy(a, n, i, j, depth, r);
  }

  /** Where a node that is no container packs two neighbours apart, the second did not fit. */
  lemma PackedApartDidNotFit(a: Adapter, root: Node, path: seq<nat>, d: Node, j: nat, r: Range)
    requires WellFormed(root) && Reaches(a, root, path, d) && |path| < 128 && CutUp(a, d) && !a.container(d.kind)
    requires 0 < j < |d.children| && !Opens(a, d.children[j - 1]) && !Opens(a, d.children[j])
    requires r in Cut(a, root, 0) && d.children[j - 1].end <= r.hi <= d.children[j].start
    ensures d.children[j].end - r.lo > 6000
  {
    ReachesWithin(a, root, path, d);
    BetweenInside(d, j - 1, j, r.hi);
    EndsInTreeAreExplained(a, root, path, d, r);
    ExplainedApart(a, d, j, |path|, r);
  }

  /** Nothing ends inside a node with no children, nor inside one met 128 levels down, however large. */
  lemma DeepAndChildlessAreWhole(a: Adapter, root: Node, path: seq<nat>, d: Node, r: Range)
    requires WellFormed(root) && Reaches(a, root, path, d) && |path| <= 128 && (d.children == [] || |path| == 128)
    requires r in Cut(a, root, 0)
    ensures !(d.start < r.hi < d.end)
  {
    ReachesWithin(a, root, path, d);
    assert Cut(a, d, |path|) == [Range(d.start, d.end)];
    if d.start < r.hi < d.end { EndsAtDepth(a, root, path, d, 0, r.hi); }
  }
}
