/** Which nonempty named nodes the first range of a call begins past. */
module RangeFronts {
  import opened Wrappers
  import opened Ranges
  import opened RangeWalks
  import opened RangeGaps

  /** With nothing pushed yet, the turn opens a child that pushes nothing, and no range for what is before it. */
  predicate Swallows(a: Adapter, n: Node, i: nat, w: Walk, depth: nat)
    requires i < |n.children| && depth < MAX_RANGE_DEPTH
  {
    w.first.None? && Recurses(a, n, i) && !Header(a, n, i, w) && PushesNothing(a, n.children[i], depth + 1)
  }

  predicate SwallowedFrom(a: Adapter, n: Node, i: nat, w: Walk, depth: nat, k: nat)
    requires i <= |n.children| && depth < MAX_RANGE_DEPTH && k < |n.children|
    decreases |n.children| - i
  {
    i < |n.children| &&
      (|| (k <= i && Swallows(a, n, i, w, depth) && From(a, n, i, w) <= n.children[k].start)
       || SwallowedFrom(a, n, i + 1, Step(a, n, i, w, depth), depth, k))
  }

  /** Child `k` is such a child, or waits for it, or was packed just before it and is attached to it. */
  predicate Swallowed(a: Adapter, n: Node, depth: nat, k: nat)
    requires k < |n.children| && depth < MAX_RANGE_DEPTH
  {
    SwallowedFrom(a, n, 0, Setout(n), depth, k)
  }

  /** The loop variables before child `i`. */
  ghost predicate Plain(n: Node, i: nat, w: Walk)
    requires i <= |n.children|
  {
    && n.start <= w.start <= w.end <= n.end
    && (i < |n.children| ==> w.end <= n.children[i].start)
    && (w.pending.Some? ==> w.end <= w.pending.value && (i < |n.children| ==> w.pending.value <= n.children[i].start))
    && (w.first.Some? ==> w.first.value <= w.start)
  }

  lemma StepPlain(a: Adapter, n: Node, i: nat, w: Walk, depth: nat)
    requires Nested(n) && i < |n.children| && depth < MAX_RANGE_DEPTH && Plain(n, i, w)
    ensures Plain(n, i + 1, Step(a, n, i, w, depth))
  {
    NestedChild(n, i);
  }

  /** The first range begins, or will begin, no later than child `k`. */
  ghost predicate Kept(n: Node, w: Walk, k: nat)
    requires k < |n.children|
  {
    var child := n.children[k];
    if w.first.Some? then w.first.value <= child.start
    else
      || (w.pending.Some? && w.pending.value <= child.start)
      || (w.start < w.end && w.start <= child.start && child.end <= w.end)
  }

  /** The first range will not begin before the end of child `k`. */
  ghost predicate Gone(n: Node, w: Walk, k: nat)
    requires k < |n.children|
  {
    if w.first.Some? then w.first.value >= n.children[k].end else w.start >= n.children[k].end
  }

  lemma Before(n: Node, k: nat, i: nat)
    requires Nested(n) && k < i < |n.children|
    ensures n.children[k].end <= n.children[i].start
  {
  }

  lemma StepKeeps(a: Adapter, n: Node, i: nat, w: Walk, depth: nat, k: nat)
    requires Nested(n) && k <= i < |n.children| && depth < MAX_RANGE_DEPTH && Plain(n, i, w)
    requires n.children[k].start < n.children[k].end && (k < i ==> Kept(n, w, k))
    requires !(Swallows(a, n, i, w, depth) && From(a, n, i, w) <= n.children[k].start)
    ensures Kept(n, Step(a, n, i, w, depth), k)
  {
    NestedChild(n, i);
    if k < i { Before(n, k, i); }
  }

  lemma {:induction false} UnswallowedKept(a: Adapter, n: Node, i: nat, w: Walk, depth: nat, k: nat)
    requires Nested(n) && i <= |n.children| && k < |n.children| && depth < MAX_RANGE_DEPTH && Plain(n, i, w)
    requires n.children[k].start < n.children[k].end && (k < i ==> Kept(n, w, k))
    requires !SwallowedFrom(a, n, i, w, depth, k)
    ensures Kept(n, Walked(a, n, i, w, depth), k) && Plain(n, |n.children|, Walked(a, n, i, w, depth))
    decreases |n.children| - i
  {
    if i < |n.children| {
      StepPlain(a, n, i, w, depth);
      if k <= i { StepKeeps(a, n, i, w, depth, k); }
      UnswallowedKept(a, n, i + 1, Step(a, n, i, w, depth), depth, k);
    }
  }

  lemma StepStaysGone(a: Adapter, n: Node, i: nat, w: Walk, depth: nat, k: nat)
    requires Nested(n) && i < |n.children| && k < |n.children| && depth < MAX_RANGE_DEPTH && Plain(n, i, w)
    requires Gone(n, w, k)
    ensures Gone(n, Step(a, n, i, w, depth), k)
  {
    NestedChild(n, i);
  }

  lemma SwallowingGone(a: Adapter, n: Node, i: nat, w: Walk, depth: nat, k: nat)
    requires Nested(n) && k <= i < |n.children| && depth < MAX_RANGE_DEPTH && Plain(n, i, w)
    requires Swallows(a, n, i, w, depth)
    ensures Gone(n, Step(a, n, i, w, depth), k)
  {
    NestedChild(n, i);
    if k < i { Before(n, k, i); }
  }

  lemma {:induction false} SwallowedGone(a: Adapter, n: Node, i: nat, w: Walk, depth: nat, k: nat)
    requires Nested(n) && i <= |n.children| && k < |n.children| && depth < MAX_RANGE_DEPTH && Plain(n, i, w)
    requires Gone(n, w, k) || SwallowedFrom(a, n, i, w, depth, k)
    ensures Gone(n, Walked(a, n, i, w, depth), k)
    decreases |n.children| - i
  {
    if i < |n.children| {
      StepPlain(a, n, i, w, depth);
      if Gone(n, w, k) {
        StepStaysGone(a, n, i, w, depth, k);
      } else if k <= i && Swallows(a, n, i, w, depth) {
        SwallowingGone(a, n, i, w, depth, k);
      }
      SwallowedGone(a, n, i + 1, Step(a, n, i, w, depth), depth, k);
    }
  }

  /** The first range of a call that opens its node begins past a nonempty named child, or there is none, if
      and only if that child is swallowed. */
  lemma FirstRangeReachesExactly(a: Adapter, n: Node, depth: nat, k: nat)
    requires Nested(n) && depth < MAX_RANGE_DEPTH && !a.Whole(n)
    requires k < |n.children| && n.children[k].start < n.children[k].end
    ensures (Cut(a, n, depth) == [] || Cut(a, n, depth)[0].lo > n.children[k].start) <==> Swallowed(a, n, depth, k)
  {
    CutBegins(a, n, depth);
    NestedChild(n, k);
    NestedChild(n, 0);
    if Swallowed(a, n, depth, k) {
      SwallowedGone(a, n, 0, Setout(n), depth, k);
    } else {
      UnswallowedKept(a, n, 0, Setout(n), depth, k);
    }
  }

  lemma {:induction false} ByteInRange(rs: seq<Range>, at: int, b: int)
    requires rs != [] && Joined(rs, at) && rs[0].lo <= b < at
    ensures exists r <- rs :: r.lo <= b < r.hi
    decreases |rs|
  {
    if b < rs[0].hi {
      assert rs[0] in rs;
    } else {
      var rest := rs[1..];
      assert rest != [] && rest[0].lo == rs[0].hi;
      assert forall i :: 0 < i < |rest| ==> rest[i - 1].hi == rest[i].lo by {
        assert forall i :: 0 < i < |rest| ==> rest[i] == rs[i + 1] && rest[i - 1] == rs[i];
      }
      ByteInRange(rest, at, b);
      var r :| r in rest && r.lo <= b < r.hi;
      assert r in rs;
    }
  }

  /** Nodes of zero width or not: if no turn loses bytes and a child is not swallowed, every byte from its
      begin to the end of the node is in a range. */
  lemma UnswallowedBytesKept(a: Adapter, n: Node, depth: nat, k: nat, b: int)
    requires Nested(n) && depth < MAX_RANGE_DEPTH && !a.Whole(n) && Lossless(a, n, depth)
    requires k < |n.children| && n.children[k].start < n.children[k].end && !Swallowed(a, n, depth, k)
    requires n.children[k].start <= b < n.end
    ensures exists r <- Cut(a, n, depth) :: r.lo <= b < r.hi
  {
    FirstRangeReachesExactly(a, n, depth, k);
    CutWithoutGapsExactly(a, n, depth);
    ByteInRange(Cut(a, n, depth), n.end, b);
  }

  // ---------------------------------------------------------------- families

  /** A container whose only named child is packed, of zero width and at its end pushes nothing: all its
      bytes are in no range. */
  lemma PackedEmptyAtEndLosesAll(a: Adapter, n: Node, depth: nat, empty: Node)
    requires OpenContainer(a, n, depth) && n.children == [empty] && !a.Splits(empty)
    requires n.start <= empty.start == empty.end == n.end
    ensures Cut(a, n, depth) == [] && PushesNothing(a, n, depth)
  {
    NoneDefer(a, n, depth, 0);
    assert Step(a, n, 0, Setout(n), depth) == Walk(n.end, n.end, None, None, false);
    assert Walked(a, n, 1, Walk(n.end, n.end, None, None, false), depth).start == n.end;
    CutBegins(a, n, depth);
  }

  /** The comment waiting for an opened container that pushes nothing is swallowed with it. */
  lemma OpenedEmptyLosesItsPrefix(a: Adapter, n: Node, depth: nat, comment: Node, empty: Node, inner: Node)
    requires depth < MAX_RANGE_DEPTH && a.container(n.kind) && n.children == [comment, empty]
    requires a.prefix(comment.kind) && !a.prefix(empty.kind) && a.Splits(empty) && !a.attaches(n.kind, empty.kind)
    requires Nested(n) && n.start == comment.start < comment.end && empty.start == empty.end == n.end
    requires OpenContainer(a, empty, depth + 1) && empty.children == [inner] && !a.Splits(inner)
    ensures Swallowed(a, n, depth, 0) && Cut(a, n, depth) == []
  {
    NestedChild(n, 1);
    NestedChild(empty, 0);
    PackedEmptyAtEndLosesAll(a, empty, depth + 1, inner);
    assert TrailingPrefixStart(a, n.children) == 2;
    var w1 := Walk(n.start, n.start, Some(comment.start), None, false);
    var w2 := Walk(n.end, n.end, None, None, false);
    assert Step(a, n, 0, Setout(n), depth) == w1;
    assert Step(a, n, 1, w1, depth) == w2;
    assert Swallows(a, n, 1, w1, depth);
    assert SwallowedFrom(a, n, 1, w1, depth, 0);
    assert Walked(a, n, 2, w2, depth) == w2;
    assert Walked(a, n, 1, w1, depth) == w2;
    CutBegins(a, n, depth);
  }
}
