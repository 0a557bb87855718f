/** The cut's loop followed on the tree alone, without ranges: where a call's first range begins, and when a
    call pushes nothing. Nodes of zero width are allowed everywhere. */
module RangeWalks {
  import opened Wrappers
  import opened Ranges

  /** The loop variables, with the begin of the first range pushed so far, and whether the last range is
      that of a child opened just before. */
  datatype Walk = Walk(start: int, end: int, pending: Option<int>, first: Option<int>, stretch: bool)

  function ChildStart(n: Node, i: nat, w: Walk): int
    requires i < |n.children|
  {
    w.pending.GetOr(n.children[i].start)
  }

  /** An opened child is preceded by a range of its own for what is before it. */
  predicate Header(a: Adapter, n: Node, i: nat, w: Walk)
    requires i < |n.children|
  {
    ChildStart(n, i, w) > w.start && !a.attaches(n.kind, n.children[i].kind)
  }

  /** Where what an opened child pushes begins. */
  function From(a: Adapter, n: Node, i: nat, w: Walk): int
    requires i < |n.children|
  {
    if a.attaches(n.kind, n.children[i].kind) then w.start else ChildStart(n, i, w)
  }

  /** A packed child closes the run before it. */
  predicate Closes(a: Adapter, n: Node, i: nat, w: Walk)
    requires i < |n.children|
  {
    a.container(n.kind) || n.children[i].end - w.start > TARGET_BYTES
  }

  function Earlier(first: Option<int>, next: Option<int>): Option<int> {
    if first.Some? then first else next
  }

  function Step(a: Adapter, n: Node, i: nat, w: Walk, depth: nat): Walk
    requires i < |n.children| && depth < MAX_RANGE_DEPTH
    decreases MAX_RANGE_DEPTH - depth, 0, 0
  {
    var child, childStart := n.children[i], ChildStart(n, i, w);
    if Defers(a, n, i) then w.(pending := Some(childStart))
    else if a.Splits(child) then
      var silent := PushesNothing(a, child, depth + 1);
      var pushed := if Header(a, n, i, w) then Some(w.start) else if silent then None else Some(From(a, n, i, w));
      Walk(child.end, child.end, None, Earlier(w.first, pushed), !silent)
    else if Closes(a, n, i, w) then
      Walk(childStart, child.end, None, Earlier(w.first, if w.end > w.start then Some(w.start) else None), false)
    else Walk(w.start, child.end, None, w.first, false)
  }

  /** The loop from child `i` on. */
  function Walked(a: Adapter, n: Node, i: nat, w: Walk, depth: nat): Walk
    requires i <= |n.children| && depth < MAX_RANGE_DEPTH
    decreases MAX_RANGE_DEPTH - depth, 1, |n.children| - i
  {
    if i == |n.children| then w else Walked(a, n, i + 1, Step(a, n, i, w, depth), depth)
  }

  function Setout(n: Node): Walk {
    Walk(n.start, n.start, None, None, false)
  }

  /** Where the first range of a call begins, if it pushes one. */
  function FirstLo(a: Adapter, n: Node, depth: nat): Option<int>
    requires depth <= MAX_RANGE_DEPTH
    decreases MAX_RANGE_DEPTH - depth, 2, 0
  {
    if depth >= MAX_RANGE_DEPTH || a.Whole(n) then Some(n.start)
    else
      var w := Walked(a, n, 0, Setout(n), depth);
      Earlier(w.first, if n.end > w.start then Some(w.start) else None)
  }

  predicate PushesNothing(a: Adapter, n: Node, depth: nat)
    requires depth <= MAX_RANGE_DEPTH
    decreases MAX_RANGE_DEPTH - depth, 3, 0
  {
    FirstLo(a, n, depth).None?
  }

  // ---------------------------------------------------------------- the walk is the cut's

  function Begin(rs: seq<Range>): Option<int> {
    if rs == [] then None else Some(rs[0].lo)
  }

  function Seen(c: Cursor): Walk {
    Walk(c.start, c.end, c.pending, Begin(c.out), c.last.Some?)
  }

  lemma VisitSeen(a: Adapter, n: Node, i: nat, c: Cursor, depth: nat, sub: seq<Range>)
    requires i < |n.children| && depth < MAX_RANGE_DEPTH
    requires if Recurses(a, n, i) then sub == [] <==> PushesNothing(a, n.children[i], depth + 1) else sub == []
    ensures Seen(Visit(a, n, i, c, sub)) == Step(a, n, i, Seen(c), depth)
  {
  }

  lemma {:induction false} VisitsSeen(a: Adapter, n: Node, i: nat, c: Cursor, depth: nat)
    requires i <= |n.children| && depth < MAX_RANGE_DEPTH
    ensures Seen(Visits(a, n, i, c, depth)) == Walked(a, n, i, Seen(c), depth)
    decreases MAX_RANGE_DEPTH - depth, 0, |n.children| - i
  {
    if i < |n.children| {
      TurnSeen(a, n, i, c, depth);
      VisitsSeen(a, n, i + 1, Turn(a, n, i, c, depth), depth);
    }
  }

  lemma {:induction false} TurnSeen(a: Adapter, n: Node, i: nat, c: Cursor, depth: nat)
    requires i < |n.children| && depth < MAX_RANGE_DEPTH
    ensures Seen(Turn(a, n, i, c, depth)) == Step(a, n, i, Seen(c), depth)
    decreases MAX_RANGE_DEPTH - depth, 0, 0
  {
    if Recurses(a, n, i) {
      CutBegins(a, n.children[i], depth + 1);
      VisitSeen(a, n, i, c, depth, Cut(a, n.children[i], depth + 1));
    } else {
      VisitSeen(a, n, i, c, depth, []);
    }
  }

  /** A call pushes nothing, or begins, exactly where the tree says. */
  lemma {:induction false} CutBegins(a: Adapter, n: Node, depth: nat)
    requires depth <= MAX_RANGE_DEPTH
    ensures Begin(Cut(a, n, depth)) == FirstLo(a, n, depth)
    ensures Cut(a, n, depth) == [] <==> PushesNothing(a, n, depth)
    decreases MAX_RANGE_DEPTH - depth, 1, 0
  {
    if depth < MAX_RANGE_DEPTH && !a.Whole(n) { VisitsSeen(a, n, 0, Initial(n), depth); }
  }
}
