/** The syntax-tree cut: `ranges` of lci-core/src/chunk.rs.

    A tree is an arbitrary ordered tree of named nodes; the per-language kind
    tables are the function fields of `Adapter`. */
module Ranges {
  import opened Wrappers

  const TARGET_BYTES := 6000
  const MAX_DECLARATION_BYTES := 24000
  const MAX_RANGE_DEPTH: nat := 128

  datatype Range = Range(lo: int, hi: int)

  datatype Node = Node(kind: string, start: int, end: int, children: seq<Node>)

  datatype Adapter = Adapter(
    container: string -> bool,
    boundary: string -> bool,
    declaration: string -> bool,
    prefix: string -> bool,
    attaches: (string, string) -> bool)
  {
    function Limit(kind: string): int {
      if declaration(kind) then MAX_DECLARATION_BYTES else TARGET_BYTES
    }

    /** A node `ranges` never opens: neither container nor boundary, within its limit. */
    predicate Atom(n: Node) {
      !container(n.kind) && !boundary(n.kind) && n.end - n.start <= Limit(n.kind)
    }

    predicate Splits(child: Node) {
      || child.end - child.start > Limit(child.kind)
      || (container(child.kind) && child.kind != "source_file")
      || boundary(child.kind)
    }

    predicate Whole(n: Node) {
      Atom(n) || n.children == []
    }
  }

  /** Children in order, disjoint and inside their parent; no negative extent. */
  ghost predicate Nested(n: Node) {
    && 0 <= n.start <= n.end
    && (forall c <- n.children :: Nested(c) && n.start <= c.start && c.end <= n.end)
    && (forall i, j :: 0 <= i < j < |n.children| ==> n.children[i].end <= n.children[j].start)
  }

  ghost predicate Nonempty(n: Node) {
    n.start < n.end && forall c <- n.children :: Nonempty(c)
  }

  ghost predicate WellFormed(n: Node) {
    Nested(n) && Nonempty(n)
  }

  // ---------------------------------------------------------------- the cut as a function

  /** Where the run of prefix children that closes `children` begins. */
  function TrailingPrefixStart(a: Adapter, children: seq<Node>): (k: nat)
    ensures k <= |children|
    ensures forall i :: k <= i < |children| ==> a.prefix(children[i].kind)
    ensures 0 < k ==> !a.prefix(children[k - 1].kind)
  {
    if children == [] || !a.prefix(children[|children| - 1].kind) then |children|
    else TrailingPrefixStart(a, children[..|children| - 1])
  }

  predicate SplitsTrailingPrefix(a: Adapter, children: seq<Node>) {
    var k := TrailingPrefixStart(a, children);
    k < |children| && children[|children| - 1].end - children[k].start > TARGET_BYTES
  }

  /** Child `i` waits to be attached to the declaration after it. */
  predicate Defers(a: Adapter, n: Node, i: nat)
    requires i < |n.children|
  {
    && a.container(n.kind)
    && a.prefix(n.children[i].kind)
    && (!SplitsTrailingPrefix(a, n.children) || i < TrailingPrefixStart(a, n.children))
  }

  predicate Recurses(a: Adapter, n: Node, i: nat)
    requires i < |n.children|
  {
    !Defers(a, n, i) && a.Splits(n.children[i])
  }

  /** The loop variables of one call; `out` holds only the ranges of that call. */
  datatype Cursor = Cursor(out: seq<Range>, start: int, end: int, pending: Option<int>, last: Option<nat>)

  /** The rewrite of the first range a recursive call pushed. */
  function WithLo(rs: seq<Range>, lo: int): (r: seq<Range>)
    ensures |r| == |rs|
  {
    if rs == [] then rs else rs[0 := Range(lo, rs[0].hi)]
  }

  /** The rewrite of the end of a range still ending at `at`. */
  function Stretched(rs: seq<Range>, last: Option<nat>, at: int, hi: int): (r: seq<Range>)
    ensures |r| == |rs|
  {
    if last.Some? && last.value < |rs| && rs[last.value].hi == at
    then rs[last.value := Range(rs[last.value].lo, hi)]
    else rs
  }

  /** One turn of the loop; `sub` is what the recursive call pushed, if there was one. */
  function Visit(a: Adapter, n: Node, i: nat, c: Cursor, sub: seq<Range>): Cursor
    requires i < |n.children|
  {
    var child := n.children[i];
    if Defers(a, n, i) then c.(pending := Some(c.pending.GetOr(child.start)))
    else
      var childStart := c.pending.GetOr(child.start);
      if a.Splits(child) then
        var attach := a.attaches(n.kind, child.kind);
        var before := if childStart > c.start && !attach then c.out + [Range(c.start, childStart)] else c.out;
        var after := before + WithLo(sub, if attach then c.start else childStart);
        Cursor(after, child.end, child.end, None, if |after| > |before| then Some(|after| - 1) else None)
      else if a.container(n.kind) || child.end - c.start > TARGET_BYTES then
        var out := if c.end > c.start then c.out + [Range(c.start, childStart)]
                   else Stretched(c.out, c.last, c.start, childStart);
        Cursor(out, childStart, child.end, None, None)
      else
        Cursor(c.out, c.start, child.end, None, None)
  }

  function Initial(n: Node): Cursor {
    Cursor([], n.start, n.start, None, None)
  }

  /** One turn with its recursive call. */
  function Turn(a: Adapter, n: Node, i: nat, c: Cursor, depth: nat): Cursor
    requires i < |n.children| && depth < MAX_RANGE_DEPTH
    decreases MAX_RANGE_DEPTH - depth, 0, 0
  {
    Visit(a, n, i, c, if Recurses(a, n, i) then Cut(a, n.children[i], depth + 1) else [])
  }

  /** The loop from child `i` on. */
  function Visits(a: Adapter, n: Node, i: nat, c: Cursor, depth: nat): Cursor
    requires i <= |n.children| && depth < MAX_RANGE_DEPTH
    decreases MAX_RANGE_DEPTH - depth, 1, |n.children| - i
  {
    if i == |n.children| then c else Visits(a, n, i + 1, Turn(a, n, i, c, depth), depth)
  }

  function Closed(n: Node, c: Cursor): seq<Range> {
    if n.end > c.start then c.out + [Range(c.start, n.end)] else c.out
  }

  /** The ranges one call pushes. */
  function Cut(a: Adapter, n: Node, depth: nat): seq<Range>
    requires depth <= MAX_RANGE_DEPTH
    decreases MAX_RANGE_DEPTH - depth, 2, 0
  {
    if depth >= MAX_RANGE_DEPTH || a.Whole(n) then [Range(n.start, n.end)]
    else Closed(n, Visits(a, n, 0, Initial(n), depth))
  }

  // ---------------------------------------------------------------- the procedure

  /** The vector all calls push to. */
  class Spans {
    var out: seq<Range>

    constructor ()
      ensures out == []
    {
      out := [];
    }
  }

  method TrailingPrefix(a: Adapter, children: seq<Node>) returns (k: nat)
    ensures k == TrailingPrefixStart(a, children)
  {
    k := |children|;
    while k > 0 && a.prefix(children[k - 1].kind)
      invariant k <= |children|
      invariant TrailingPrefixStart(a, children) == TrailingPrefixStart(a, children[..k])
    {
      assert children[..k][..k - 1] == children[..k - 1];
      k := k - 1;
    }
  }

  /** And whether that run is long enough to be split. */
  method TrailingRun(a: Adapter, children: seq<Node>) returns (k: nat, splits: bool)
    ensures k == TrailingPrefixStart(a, children) && splits == SplitsTrailingPrefix(a, children)
  {
    k := TrailingPrefix(a, children);
    splits := k < |children| && children[|children| - 1].end - children[k].start > TARGET_BYTES;
  }

  function Shifted(last: Option<nat>, offset: nat): Option<nat> {
    if last.Some? then Some(last.value + offset) else None
  }

  /** The recursive call for one child and the rewrite of the first range it pushed. */
  method CutChild(a: Adapter, child: Node, spans: Spans, lo: int, depth: nat) returns (last: Option<nat>)
    requires depth < MAX_RANGE_DEPTH && Nested(child)
    modifies spans
    ensures spans.out == old(spans.out) + WithLo(Cut(a, child, depth + 1), lo)
    ensures last == if |spans.out| > old(|spans.out|) then Some(|spans.out| - 1) else None
    decreases MAX_RANGE_DEPTH - depth, 0
  {
    var first := |spans.out|;
    CutInto(a, child, spans, depth + 1);
    if first < |spans.out| {
      spans.out := spans.out[first := Range(lo, spans.out[first].hi)];
    }
    last := if |spans.out| > first then Some(|spans.out| - 1) else None;
  }

  /** A child that is opened, after the header before it if that does not attach. */
  method OpenChild(a: Adapter, child: Node, spans: Spans, start: int, childStart: int, attach: bool, depth: nat)
    returns (last: Option<nat>)
    requires depth < MAX_RANGE_DEPTH && Nested(child)
    modifies spans
    ensures var before := old(spans.out) + if childStart > start && !attach then [Range(start, childStart)] else [];
            && spans.out == before + WithLo(Cut(a, child, depth + 1), if attach then start else childStart)
            && last == if |spans.out| > |before| then Some(|spans.out| - 1) else None
    decreases MAX_RANGE_DEPTH - depth, 1
  {
    if childStart > start && !attach {
      spans.out := spans.out + [Range(start, childStart)];
    }
    last := CutChild(a, child, spans, if attach then start else childStart, depth);
  }

  /** A child that is packed, not opened: the pending run is closed, or the last range of the
      child opened before is stretched to it. `base` and `c` are what the call found and has pushed. */
  method CloseRun(spans: Spans, start: int, end: int, childStart: int, last: Option<nat>,
    ghost base: seq<Range>, ghost c: Cursor)
    requires spans.out == base + c.out && start == c.start && end == c.end
    requires last == Shifted(c.last, |base|) && (c.last.Some? ==> c.last.value < |c.out|)
    modifies spans
    ensures spans.out == base + if c.end > c.start then c.out + [Range(c.start, childStart)]
                                else Stretched(c.out, c.last, c.start, childStart)
  {
    if end > start {
      spans.out := spans.out + [Range(start, childStart)];
    } else if last.Some? && spans.out[last.value].hi == start {
      assert spans.out[last.value] == c.out[c.last.value];
      spans.out := spans.out[last.value := Range(spans.out[last.value].lo, childStart)];
    }
  }

  /** The loop variables of a running call, against the cursor of the functional cut. */
  ghost predicate Tracks(out: seq<Range>, start: int, end: int, pending: Option<int>, last: Option<nat>,
    base: seq<Range>, c: Cursor)
  {
    && out == base + c.out && start == c.start && end == c.end && pending == c.pending
    && last == Shifted(c.last, |base|) && (c.last.Some? ==> c.last.value < |c.out|)
  }

  /** Opening a child is the turn for it. */
  lemma OpenedTurn(a: Adapter, n: Node, i: nat, depth: nat, out0: seq<Range>, out: seq<Range>, last: Option<nat>,
    base: seq<Range>, c: Cursor)
    requires depth < MAX_RANGE_DEPTH && i < |n.children| && Recurses(a, n, i) && out0 == base + c.out
    requires var childStart := c.pending.GetOr(n.children[i].start);
             var attach := a.attaches(n.kind, n.children[i].kind);
             var before := out0 + if childStart > c.start && !attach then [Range(c.start, childStart)] else [];
             && out == before + WithLo(Cut(a, n.children[i], depth + 1), if attach then c.start else childStart)
             && last == if |out| > |before| then Some(|out| - 1) else None
    ensures Tracks(out, n.children[i].end, n.children[i].end, None, last, base, Turn(a, n, i, c, depth))
  {
    var childStart := c.pending.GetOr(n.children[i].start);
    var attach := a.attaches(n.kind, n.children[i].kind);
    var own := if childStart > c.start && !attach then c.out + [Range(c.start, childStart)] else c.out;
    assert out0 + (if childStart > c.start && !attach then [Range(c.start, childStart)] else []) == base + own;
    assert out == base + (own + WithLo(Cut(a, n.children[i], depth + 1), if attach then c.start else childStart));
  }

  /** The body of the loop. */
  method VisitChild(a: Adapter, n: Node, i: nat, splitTrailing: bool, trailing: nat, spans: Spans, depth: nat,
    start0: int, end0: int, pending0: Option<int>, last0: Option<nat>, ghost base: seq<Range>, ghost c: Cursor)
    returns (start: int, end: int, pending: Option<int>, last: Option<nat>)
    requires depth < MAX_RANGE_DEPTH && i < |n.children| && Nested(n.children[i])
    requires splitTrailing == SplitsTrailingPrefix(a, n.children)
    requires trailing == TrailingPrefixStart(a, n.children)
    requires Tracks(spans.out, start0, end0, pending0, last0, base, c)
    modifies spans
    ensures Tracks(spans.out, start, end, pending, last, base, Turn(a, n, i, c, depth))
    decreases MAX_RANGE_DEPTH - depth, 2
  {
    start, end, pending, last := start0, end0, pending0, last0;
    var child := n.children[i];
    if a.container(n.kind) && a.prefix(child.kind) && (!splitTrailing || i < trailing) {
      pending := Some(pending.GetOr(child.start));
      return;
    }
    var childStart := pending.GetOr(child.start);
    pending := None;
    if a.Splits(child) {
      var attach := a.attaches(n.kind, child.kind);
      ghost var out0 := spans.out;
      last := OpenChild(a, child, spans, start, childStart, attach, depth);
      OpenedTurn(a, n, i, depth, out0, spans.out, last, base, c);
      start := child.end;
      end := start;
    } else if a.container(n.kind) || child.end - start > TARGET_BYTES {
      CloseRun(spans, start, end, childStart, last, base, c);
      last := None;
      start := childStart;
      end := child.end;
    } else {
      last := None;
      end := child.end;
    }
  }

  /** The loop over the children of one call. */
  method VisitChildren(a: Adapter, n: Node, spans: Spans, depth: nat) returns (start: int)
    requires depth < MAX_RANGE_DEPTH && Nested(n)
    modifies spans
    ensures start == Visits(a, n, 0, Initial(n), depth).start
    ensures spans.out == old(spans.out) + Visits(a, n, 0, Initial(n), depth).out
    decreases MAX_RANGE_DEPTH - depth, 3
  {
    var trailing, splitTrailing := TrailingRun(a, n.children);
    var end := n.start;
    var pending: Option<int> := None;
    var last: Option<nat> := None;
    ghost var base := spans.out;
    ghost var c := Initial(n);
    ghost var goal := Visits(a, n, 0, c, depth);
    start := n.start;
    for i := 0 to |n.children|
      invariant Visits(a, n, i, c, depth) == goal
      invariant Tracks(spans.out, start, end, pending, last, base, c)
    {
      start, end, pending, last :=
        VisitChild(a, n, i, splitTrailing, trailing, spans, depth, start, end, pending, last, base, c);
      c := Turn(a, n, i, c, depth);
    }
  }

  /** A call only appends, and what it appends is `Cut`. The frames of nested calls are
      counted by `depth`, whose bound alone ends the recursion: at most 128 below the root. */
  method CutInto(a: Adapter, n: Node, spans: Spans, depth: nat)
    requires depth <= MAX_RANGE_DEPTH && Nested(n)
    modifies spans
    ensures spans.out == old(spans.out) + Cut(a, n, depth)
    decreases MAX_RANGE_DEPTH - depth, 4
  {
    if depth >= MAX_RANGE_DEPTH || a.Atom(n) || n.children == [] {
      spans.out := spans.out + [Range(n.start, n.end)];
      return;
    }
    var start := VisitChildren(a, n, spans, depth);
    if n.end > start {
      spans.out := spans.out + [Range(start, n.end)];
    }
  }
}
