/** Which trees with named nodes of zero width are cut without a gap: exactly those where no turn of any call
    loses bytes. */
module RangeGaps {
  import opened Wrappers
  import opened Ranges
  import opened RangeTiling
  import opened RangeWalks

  // ---------------------------------------------------------------- the condition on the tree

  /** The turn for child `i` leaves bytes in no range, something being pushed before it: it opens a child that
      pushes nothing although that child or its attached prefix has an extent, or it closes a run of zero
      width, right after no opened child, before a later start. */
  predicate Loses(a: Adapter, n: Node, i: nat, w: Walk, depth: nat)
    requires i < |n.children| && depth < MAX_RANGE_DEPTH
  {
    var child := n.children[i];
    if Defers(a, n, i) then false
    else if a.Splits(child) then
      && PushesNothing(a, child, depth + 1)
      && (w.first.Some? || Header(a, n, i, w)) && From(a, n, i, w) < child.end
    else Closes(a, n, i, w) && w.first.Some? && w.end == w.start && !w.stretch && w.start < ChildStart(n, i, w)
  }

  predicate LosslessFrom(a: Adapter, n: Node, i: nat, w: Walk, depth: nat)
    requires i <= |n.children| && depth < MAX_RANGE_DEPTH
    decreases MAX_RANGE_DEPTH - depth, 0, |n.children| - i
  {
    i == |n.children| ||
      (&& !Loses(a, n, i, w, depth)
       && (Recurses(a, n, i) ==> Lossless(a, n.children[i], depth + 1))
       && LosslessFrom(a, n, i + 1, Step(a, n, i, w, depth), depth))
  }

  /** No turn of the call for `n`, or of a call below it, loses bytes. */
  predicate Lossless(a: Adapter, n: Node, depth: nat)
    requires depth <= MAX_RANGE_DEPTH
    decreases MAX_RANGE_DEPTH - depth, 1, 0
  {
    depth >= MAX_RANGE_DEPTH || a.Whole(n) || LosslessFrom(a, n, 0, Setout(n), depth)
  }

  // ---------------------------------------------------------------- ranges in order

  /** Ranges in order and apart, empty ones allowed, within [lo, hi]. */
  ghost predicate InOrder(rs: seq<Range>, lo: int, hi: int) {
    && (forall i :: 0 <= i < |rs| ==> lo <= rs[i].lo <= rs[i].hi <= hi)
    && (forall i :: 0 < i < |rs| ==> rs[i - 1].hi <= rs[i].lo)
  }

  /** No gap between the ranges, nor between the last and `at`. */
  ghost predicate Joined(rs: seq<Range>, at: int) {
    && (forall i :: 0 < i < |rs| ==> rs[i - 1].hi == rs[i].lo)
    && (rs != [] ==> rs[|rs| - 1].hi == at)
  }

  lemma JoinedParts(xs: seq<Range>, ys: seq<Range>, at: int)
    requires ys != []
    ensures Joined(xs + ys, at) <==> Joined(xs, ys[0].lo) && Joined(ys, at)
  {
    var zs := xs + ys;
    if Joined(zs, at) {
      forall i | 0 < i < |xs|
        ensures xs[i - 1].hi == xs[i].lo
      {
        assert zs[i - 1] == xs[i - 1] && zs[i] == xs[i];
      }
      forall i | 0 < i < |ys|
        ensures ys[i - 1].hi == ys[i].lo
      {
        assert zs[|xs| + i - 1] == ys[i - 1] && zs[|xs| + i] == ys[i];
      }
      assert zs[|xs|] == ys[0] && zs[|zs| - 1] == ys[|ys| - 1];
      if xs != [] { assert zs[|xs| - 1] == xs[|xs| - 1]; }
    }
  }

  lemma InOrderParts(xs: seq<Range>, ys: seq<Range>, lo: int, mid: int, hi: int)
    requires lo <= mid <= hi && InOrder(xs, lo, mid) && InOrder(ys, mid, hi)
    ensures InOrder(xs + ys, lo, hi)
  {
  }

  ghost predicate Ordered(n: Node, i: nat, c: Cursor)
    requires i <= |n.children|
  {
    && n.start <= c.start <= c.end <= n.end && InOrder(c.out, n.start, c.start)
    && (i < |n.children| ==> c.end <= n.children[i].start)
    && (c.pending.Some? ==> c.end <= c.pending.value <= n.end
                            && (i < |n.children| ==> c.pending.value <= n.children[i].start))
    && (c.last.Some? ==> c.out != [] && c.last.value == |c.out| - 1)
  }

  lemma NestedChild(n: Node, i: nat)
    requires Nested(n) && i < |n.children|
    ensures Nested(n.children[i]) && n.start <= n.children[i].start <= n.children[i].end <= n.end
    ensures i + 1 < |n.children| ==> n.children[i].end <= n.children[i + 1].start
  {
    assert n.children[i] in n.children;
  }

  lemma OpenedOrdered(a: Adapter, n: Node, i: nat, c: Cursor, sub: seq<Range>)
    requires Nested(n) && i < |n.children| && Recurses(a, n, i) && Ordered(n, i, c)
    requires InOrder(sub, n.children[i].start, n.children[i].end)
    ensures Ordered(n, i + 1, Visit(a, n, i, c, sub))
    ensures InOrder(BeforeOpened(a, n, i, c), n.start, OpenedFrom(a, n, i, c))
  {
    NestedChild(n, i);
    OpenedOut(a, n, i, c, sub);
    var childStart, from := c.pending.GetOr(n.children[i].start), OpenedFrom(a, n, i, c);
    InOrderParts(c.out, [Range(c.start, childStart)], n.start, c.start, childStart);
    InOrderParts(BeforeOpened(a, n, i, c), WithLo(sub, from), n.start, from, n.children[i].end);
  }

  lemma StretchedInOrder(rs: seq<Range>, last: Option<nat>, lo: int, at: int, hi: int)
    requires lo <= at <= hi && InOrder(rs, lo, at) && (last.Some? ==> rs != [] && last.value == |rs| - 1)
    ensures InOrder(Stretched(rs, last, at, hi), lo, hi)
  {
  }

  lemma PackedOrdered(a: Adapter, n: Node, i: nat, c: Cursor)
    requires Nested(n) && i < |n.children| && !Recurses(a, n, i) && Ordered(n, i, c)
    ensures Ordered(n, i + 1, Visit(a, n, i, c, []))
  {
    NestedChild(n, i);
    var childStart := c.pending.GetOr(n.children[i].start);
    InOrderParts(c.out, [Range(c.start, childStart)], n.start, c.start, childStart);
    StretchedInOrder(c.out, c.last, n.start, c.start, childStart);
  }

  lemma {:induction false} TurnOrdered(a: Adapter, n: Node, i: nat, c: Cursor, depth: nat)
    requires Nested(n) && i < |n.children| && depth < MAX_RANGE_DEPTH && Ordered(n, i, c)
    ensures Ordered(n, i + 1, Turn(a, n, i, c, depth))
    decreases MAX_RANGE_DEPTH - depth, 0, 0
  {
    if Recurses(a, n, i) {
      NestedChild(n, i);
      CutInOrder(a, n.children[i], depth + 1);
      OpenedOrdered(a, n, i, c, Cut(a, n.children[i], depth + 1));
    } else {
      PackedOrdered(a, n, i, c);
    }
  }

  lemma {:induction false} VisitsOrdered(a: Adapter, n: Node, i: nat, c: Cursor, depth: nat)
    requires Nested(n) && i <= |n.children| && depth < MAX_RANGE_DEPTH && Ordered(n, i, c)
    ensures Ordered(n, |n.children|, Visits(a, n, i, c, depth))
    decreases MAX_RANGE_DEPTH - depth, 0, |n.children| - i
  {
    if i < |n.children| {
      TurnOrdered(a, n, i, c, depth);
      VisitsOrdered(a, n, i + 1, Turn(a, n, i, c, depth), depth);
    }
  }

  lemma SetoutOrdered(n: Node)
    requires Nested(n)
    ensures Ordered(n, 0, Initial(n))
  {
    if n.children != [] { NestedChild(n, 0); }
  }

  /** The ranges of every nested tree are in order, apart and inside the node. */
  lemma {:induction false} CutInOrder(a: Adapter, n: Node, depth: nat)
    requires Nested(n) && depth <= MAX_RANGE_DEPTH
    ensures InOrder(Cut(a, n, depth), n.start, n.end)
    decreases MAX_RANGE_DEPTH - depth, 1, 0
  {
    if depth < MAX_RANGE_DEPTH && !a.Whole(n) {
      SetoutOrdered(n);
      VisitsOrdered(a, n, 0, Initial(n), depth);
      var c := Visits(a, n, 0, Initial(n), depth);
      InOrderParts(c.out, [Range(c.start, n.end)], n.start, c.start, n.end);
    }
  }

  // ---------------------------------------------------------------- exactly when there is no gap

  lemma HeaderJoined(a: Adapter, n: Node, i: nat, c: Cursor)
    requires i < |n.children| && Recurses(a, n, i) && Ordered(n, i, c)
    ensures Joined(BeforeOpened(a, n, i, c), OpenedFrom(a, n, i, c)) <==> Joined(c.out, c.start)
  {
    JoinedParts(c.out, [Range(c.start, c.pending.GetOr(n.children[i].start))], c.pending.GetOr(n.children[i].start));
  }

  lemma WithLoJoined(rs: seq<Range>, lo: int, at: int)
    ensures Joined(WithLo(rs, lo), at) <==> Joined(rs, at)
  {
    var ws := WithLo(rs, lo);
    assert forall i :: 0 <= i < |rs| ==> ws[i].hi == rs[i].hi && (i > 0 ==> ws[i].lo == rs[i].lo);
  }

  lemma SubJoined(before: seq<Range>, sub: seq<Range>, from: int, at: int)
    requires sub != []
    ensures Joined(before + WithLo(sub, from), at) <==> Joined(before, from) && Joined(sub, at)
  {
    JoinedParts(before, WithLo(sub, from), at);
    WithLoJoined(sub, from, at);
  }

  lemma EndsEarlier(rs: seq<Range>, lo: int, from: int, at: int)
    requires InOrder(rs, lo, from) && from <= at
    ensures Joined(rs, at) <==> Joined(rs, from) && (rs == [] || from == at)
  {
  }

  lemma LosesOpening(a: Adapter, n: Node, i: nat, c: Cursor, depth: nat)
    requires i < |n.children| && depth < MAX_RANGE_DEPTH && Recurses(a, n, i)
    ensures Loses(a, n, i, Seen(c), depth) <==>
              PushesNothing(a, n.children[i], depth + 1)
              && BeforeOpened(a, n, i, c) != [] && OpenedFrom(a, n, i, c) < n.children[i].end
  {
  }

  lemma JoinedAfter(before: seq<Range>, sub: seq<Range>, lo: int, from: int, at: int)
    requires InOrder(before, lo, from) && from <= at
    ensures Joined(before + WithLo(sub, from), at)
       <==> Joined(before, from) && Joined(sub, at) && !(sub == [] && before != [] && from < at)
  {
    if sub == [] {
      assert before + WithLo(sub, from) == before;
      EndsEarlier(before, lo, from, at);
    } else {
      SubJoined(before, sub, from, at);
    }
  }

  lemma OpenedJoined(a: Adapter, n: Node, i: nat, c: Cursor, depth: nat, sub: seq<Range>)
    requires Nested(n) && i < |n.children| && depth < MAX_RANGE_DEPTH && Recurses(a, n, i) && Ordered(n, i, c)
    requires InOrder(sub, n.children[i].start, n.children[i].end)
    requires sub == [] <==> PushesNothing(a, n.children[i], depth + 1)
    ensures Joined(Visit(a, n, i, c, sub).out, n.children[i].end)
       <==> Joined(c.out, c.start) && Joined(sub, n.children[i].end) && !Loses(a, n, i, Seen(c), depth)
  {
    OpenedOut(a, n, i, c, sub);
    OpenedOrdered(a, n, i, c, sub);
    NestedChild(n, i);
    HeaderJoined(a, n, i, c);
    LosesOpening(a, n, i, c, depth);
    JoinedAfter(BeforeOpened(a, n, i, c), sub, n.start, OpenedFrom(a, n, i, c), n.children[i].end);
  }

  lemma StretchedJoined(rs: seq<Range>, last: Option<nat>, lo: int, at: int, hi: int)
    requires InOrder(rs, lo, at) && at <= hi && (last.Some? ==> rs != [] && last.value == |rs| - 1)
    ensures Joined(Stretched(rs, last, at, hi), hi) <==> Joined(rs, at) && (last.Some? || rs == [] || at == hi)
  {
    var ss := Stretched(rs, last, at, hi);
    assert forall i :: 0 <= i < |rs| ==> ss[i].lo == rs[i].lo && (i < |rs| - 1 ==> ss[i].hi == rs[i].hi);
  }

  lemma PackedJoined(a: Adapter, n: Node, i: nat, c: Cursor, depth: nat)
    requires Nested(n) && i < |n.children| && depth < MAX_RANGE_DEPTH && !Recurses(a, n, i) && Ordered(n, i, c)
    ensures var next := Visit(a, n, i, c, []);
            Joined(next.out, next.start) <==> Joined(c.out, c.start) && !Loses(a, n, i, Seen(c), depth)
  {
    var childStart := c.pending.GetOr(n.children[i].start);
    NestedChild(n, i);
    JoinedParts(c.out, [Range(c.start, childStart)], childStart);
    StretchedJoined(c.out, c.last, n.start, c.start, childStart);
  }

  ghost predicate JoinedTurn(a: Adapter, n: Node, i: nat, c: Cursor, depth: nat)
    requires i < |n.children| && depth < MAX_RANGE_DEPTH
  {
    var next := Turn(a, n, i, c, depth);
    Joined(next.out, next.start) <==>
      && Joined(c.out, c.start) && !Loses(a, n, i, Seen(c), depth)
      && (Recurses(a, n, i) ==> Lossless(a, n.children[i], depth + 1))
  }

  lemma OpenedTurnJoined(a: Adapter, n: Node, i: nat, c: Cursor, depth: nat, sub: seq<Range>)
    requires Nested(n) && i < |n.children| && depth < MAX_RANGE_DEPTH && Recurses(a, n, i) && Ordered(n, i, c)
    requires sub == Cut(a, n.children[i], depth + 1) && InOrder(sub, n.children[i].start, n.children[i].end)
    requires sub == [] <==> PushesNothing(a, n.children[i], depth + 1)
    requires Joined(sub, n.children[i].end) <==> Lossless(a, n.children[i], depth + 1)
    ensures JoinedTurn(a, n, i, c, depth)
  {
    OpenedJoined(a, n, i, c, depth, sub);
  }

  lemma {:induction false} TurnJoined(a: Adapter, n: Node, i: nat, c: Cursor, depth: nat)
    requires Nested(n) && i < |n.children| && depth < MAX_RANGE_DEPTH && Ordered(n, i, c)
    ensures JoinedTurn(a, n, i, c, depth)
    decreases MAX_RANGE_DEPTH - depth, 0, 0
  {
    if Recurses(a, n, i) {
      var child := n.children[i];
      NestedChild(n, i);
      CutInOrder(a, child, depth + 1);
      CutBegins(a, child, depth + 1);
      CutWithoutGapsExactly(a, child, depth + 1);
      OpenedTurnJoined(a, n, i, c, depth, Cut(a, child, depth + 1));
    } else {
      PackedJoined(a, n, i, c, depth);
    }
  }

  lemma {:induction false} VisitsJoined(a: Adapter, n: Node, i: nat, c: Cursor, depth: nat)
    requires Nested(n) && i <= |n.children| && depth < MAX_RANGE_DEPTH && Ordered(n, i, c)
    ensures var final := Visits(a, n, i, c, depth);
            Joined(final.out, final.start) <==> Joined(c.out, c.start) && LosslessFrom(a, n, i, Seen(c), depth)
    decreases MAX_RANGE_DEPTH - depth, 0, |n.children| - i
  {
    if i < |n.children| {
      TurnSeen(a, n, i, c, depth);
      TurnJoined(a, n, i, c, depth);
      TurnOrdered(a, n, i, c, depth);
      VisitsJoined(a, n, i + 1, Turn(a, n, i, c, depth), depth);
    }
  }

  /** The ranges of a call follow each other without a gap up to the node's end, or there are none, if and
      only if no turn of the call or of any call below it loses bytes: a gap once made stays. */
  lemma {:induction false} CutWithoutGapsExactly(a: Adapter, n: Node, depth: nat)
    requires Nested(n) && depth <= MAX_RANGE_DEPTH
    ensures Joined(Cut(a, n, depth), n.end) <==> Lossless(a, n, depth)
    decreases MAX_RANGE_DEPTH - depth, 1, 0
  {
    if depth < MAX_RANGE_DEPTH && !a.Whole(n) {
      SetoutOrdered(n);
      VisitsJoined(a, n, 0, Initial(n), depth);
      VisitsOrdered(a, n, 0, Initial(n), depth);
      var c := Visits(a, n, 0, Initial(n), depth);
      JoinedParts(c.out, [Range(c.start, n.end)], n.end);
    }
  }

  /** In a tree of nonempty nodes no turn loses bytes. */
  lemma WellFormedIsLossless(a: Adapter, n: Node, depth: nat)
    requires WellFormed(n) && depth <= MAX_RANGE_DEPTH
    ensures Lossless(a, n, depth)
  {
    CutTiles(a, n, depth);
    CutWithoutGapsExactly(a, n, depth);
  }

  // ---------------------------------------------------------------- families

  /** A container node that is opened at `depth`, its children none of them waiting. */
  ghost predicate OpenContainer(a: Adapter, n: Node, depth: nat) {
    && depth < MAX_RANGE_DEPTH && a.container(n.kind) && n.children != []
    && forall c <- n.children :: !a.prefix(c.kind)
  }

  lemma NoneDefer(a: Adapter, n: Node, depth: nat, i: nat)
    requires OpenContainer(a, n, depth) && i < |n.children|
    ensures !Defers(a, n, i)
  {
    assert n.children[i] in n.children;
  }

  /** A packed node of zero width breaks the tiling and the coverage: the bytes between it and the packed
      node after it are in no range. */
  lemma PackedEmptyLosesBytes(a: Adapter, n: Node, depth: nat, x: Node, empty: Node, y: Node)
    requires OpenContainer(a, n, depth) && n.children == [x, empty, y]
    requires !a.Splits(x) && !a.Splits(empty) && !a.Splits(y)
    requires x.start < x.end <= empty.start == empty.end < y.start < y.end <= n.end
    ensures Cut(a, n, depth) == [Range(x.start, empty.start), Range(y.start, n.end)] && !Lossless(a, n, depth)
  {
    NoneDefer(a, n, depth, 0);
    NoneDefer(a, n, depth, 1);
    NoneDefer(a, n, depth, 2);
    var c1 := Cursor([], x.start, x.end, None, None);
    var c2 := Cursor([Range(x.start, empty.start)], empty.start, empty.end, None, None);
    var c3 := Cursor([Range(x.start, empty.start)], y.start, y.end, None, None);
    assert Turn(a, n, 0, Initial(n), depth) == c1;
    assert Turn(a, n, 1, c1, depth) == c2;
    assert Turn(a, n, 2, c2, depth) == c3;
    assert Visits(a, n, 3, c3, depth) == c3;
    assert Visits(a, n, 2, c2, depth) == c3;
    assert Visits(a, n, 1, c1, depth) == c3;
    TurnSeen(a, n, 0, Initial(n), depth);
    TurnSeen(a, n, 1, c1, depth);
    assert Loses(a, n, 2, Seen(c2), depth);
    assert !LosslessFrom(a, n, 2, Seen(c2), depth);
    assert !LosslessFrom(a, n, 1, Seen(c1), depth);
  }

  /** An opened node of zero width and without children breaks the tiling only: it pushes an empty range
      between its neighbours', and no byte is lost. */
  lemma OpenedEmptyLeafPushesAnEmptyRange(a: Adapter, n: Node, depth: nat, empty: Node)
    requires OpenContainer(a, n, depth) && n.children == [empty]
    requires a.Splits(empty) && empty.children == [] && !a.attaches(n.kind, empty.kind)
    requires n.start < empty.start == empty.end < n.end
    ensures Cut(a, n, depth) == [Range(n.start, empty.start), Range(empty.start, empty.start), Range(empty.start, n.end)]
    ensures Lossless(a, n, depth)
  {
    NoneDefer(a, n, depth, 0);
    var p := empty.start;
    assert Cut(a, empty, depth + 1) == [Range(p, p)];
    var c1 := Cursor([Range(n.start, p), Range(p, p)], p, p, None, Some(1));
    assert Turn(a, n, 0, Initial(n), depth) == c1;
    assert Visits(a, n, 1, c1, depth) == c1;
    CutBegins(a, empty, depth + 1);
    assert LosslessFrom(a, n, 1, Step(a, n, 0, Setout(n), depth), depth);
    assert Lossless(a, empty, depth + 1);
  }
}
