/** Chunk ordinals: `chunk_ids` and `manifest_chunk_ids` of lci-core/src/node.rs. */
module ChunkIds {
  import opened Chunks
  import opened NodeIds
  import opened IndexSets
  import opened TextOrder

  predicate LinesLess(a: Chunk, b: Chunk) {
    a.startLine < b.startLine || (a.startLine == b.startLine && a.endLine < b.endLine)
  }

  predicate KeyLess(a: Chunk, b: Chunk) {
    TextLess(a.path, b.path) || (a.path == b.path && LinesLess(a, b))
  }

  /** The order a stable sort by (path, start line, end line) leaves the indices in. */
  predicate Precedes(cs: seq<Chunk>, i: nat, j: nat)
    requires i < |cs| && j < |cs|
  {
    KeyLess(cs[i], cs[j]) || (!KeyLess(cs[j], cs[i]) && i < j)
  }

  lemma PrecedesTotal(cs: seq<Chunk>, i: nat, j: nat)
    requires i < |cs| && j < |cs|
    ensures i != j ==> Precedes(cs, i, j) || Precedes(cs, j, i)
    ensures !(Precedes(cs, i, j) && Precedes(cs, j, i))
  {
    TextLessTotal(cs[i].path, cs[j].path);
  }

  lemma PrecedesTransitive(cs: seq<Chunk>, i: nat, j: nat, k: nat)
    requires i < |cs| && j < |cs| && k < |cs| && Precedes(cs, i, j) && Precedes(cs, j, k)
    ensures Precedes(cs, i, k)
  {
    var a, b, c := cs[i].path, cs[j].path, cs[k].path;
    TextLessTotal(a, b);
    TextLessTotal(b, c);
    TextLessTotal(a, c);
    if TextLess(a, b) && TextLess(b, c) { TextLessTransitive(a, b, c); }
  }

  predicate SameGroup(cs: seq<Chunk>, i: nat, j: nat)
    requires i < |cs| && j < |cs|
  {
    cs[i].path == cs[j].path && cs[i].contentHash == cs[j].contentHash
  }

  /** The chunks of the same file and content that come before chunk `i`. */
  function Earlier(cs: seq<Chunk>, i: nat): set<nat>
    requires i < |cs|
  {
    set j: nat | j < |cs| && SameGroup(cs, j, i) && Precedes(cs, j, i)
  }

  function Group(cs: seq<Chunk>, i: nat): set<nat>
    requires i < |cs|
  {
    set j: nat | j < |cs| && SameGroup(cs, j, i)
  }

  function Ordinal(cs: seq<Chunk>, i: nat): nat
    requires i < |cs|
  {
    |Earlier(cs, i)|
  }

  /** Fewer chunks than an ordinal can count. */
  ghost predicate Countable(cs: seq<Chunk>) {
    |cs| < 0x1_0000_0000
  }

  lemma OrdinalFits(cs: seq<Chunk>, i: nat)
    requires i < |cs|
    ensures Ordinal(cs, i) < |cs|
  {
    PrecedesTotal(cs, i, i);
    assert i in Below(|cs|) && i !in Earlier(cs, i);
    SmallerSet(Earlier(cs, i), Below(|cs|));
  }

  function IdAt(cs: seq<Chunk>, i: nat): NodeId
    requires i < |cs| && Countable(cs)
  {
    OrdinalFits(cs, i);
    NodeId.ChunkOf(cs[i].path, cs[i].contentHash, Ordinal(cs, i))
  }

  function Ids(cs: seq<Chunk>): seq<NodeId>
    requires Countable(cs)
  {
    seq(|cs|, i requires 0 <= i < |cs| => IdAt(cs, i))
  }

  // ---------------------------------------------------------------- the procedure

  ghost predicate Sorted(cs: seq<Chunk>, order: seq<nat>) {
    && (forall i :: 0 <= i < |order| ==> order[i] < |cs|)
    && (forall i, j :: 0 <= i < j < |order| ==> Precedes(cs, order[i], order[j]))
  }

  ghost predicate Indices(order: seq<nat>, n: nat) {
    forall x: nat :: x in order <==> x < n
  }

  method InsertIndex(cs: seq<Chunk>, order: seq<nat>, x: nat) returns (r: seq<nat>)
    requires x == |order| < |cs| && Sorted(cs, order) && Indices(order, x)
    ensures |r| == x + 1 && Sorted(cs, r) && Indices(r, x + 1)
  {
    var k := |order|;
    while k > 0 && KeyLess(cs[x], cs[order[k - 1]])
      invariant 0 <= k <= |order|
      invariant forall i :: k <= i < |order| ==> Precedes(cs, x, order[i])
    {
      k := k - 1;
    }
    r := order[..k] + [x] + order[k..];
    if k > 0 {
      assert order[k - 1] in order;
      assert Precedes(cs, order[k - 1], x);
    }
    InsertedSorted(cs, order, x, k);
  }

  lemma InsertedSorted(cs: seq<Chunk>, order: seq<nat>, x: nat, k: nat)
    requires x < |cs| && k <= |order| && Sorted(cs, order)
    requires k > 0 ==> Precedes(cs, order[k - 1], x)
    requires forall i :: k <= i < |order| ==> Precedes(cs, x, order[i])
    ensures var r := order[..k] + [x] + order[k..];
            Sorted(cs, r) && forall y: nat :: y in r <==> y in order || y == x
  {
    forall i | 0 <= i < k
      ensures Precedes(cs, order[i], x)
    {
      if i < k - 1 { PrecedesTransitive(cs, order[i], order[k - 1], x); }
    }
  }

  /** The stable sort of the indices by (path, start line, end line). */
  method SortIndices(cs: seq<Chunk>) returns (order: seq<nat>)
    ensures |order| == |cs| && Sorted(cs, order) && Indices(order, |cs|)
  {
    order := [];
    for x := 0 to |cs|
      invariant |order| == x && Sorted(cs, order) && Indices(order, x)
    {
      order := InsertIndex(cs, order, x);
    }
  }

  /** In sorted order, what was seen of a group before position `k` is what precedes it. */
  lemma SeenIsEarlier(cs: seq<Chunk>, order: seq<nat>, k: nat)
    requires Sorted(cs, order) && Indices(order, |cs|) && k < |order|
    ensures (set j: nat | j in order[..k] && SameGroup(cs, j, order[k])) == Earlier(cs, order[k])
  {
    forall j: nat | j < |cs|
      ensures j in order[..k] <==> Precedes(cs, j, order[k])
    {
      assert j in order;
      var p :| 0 <= p < |order| && order[p] == j;
      PrecedesTotal(cs, j, order[k]);
      if p < k {
        assert order[..k][p] == j;
      } else {
        assert forall q :: 0 <= q < k ==> Precedes(cs, order[q], order[k]);
        assert j !in order[..k];
      }
    }
    assert forall j <- order[..k] :: j in order;
  }

  ghost function SeenOf(cs: seq<Chunk>, order: seq<nat>, key: (string, string)): set<nat>
    requires forall x <- order :: x < |cs|
  {
    set j: nat | j in order && (cs[j].path, cs[j].contentHash) == key
  }

  ghost predicate CountsSeen(cs: seq<Chunk>, order: seq<nat>, seen: map<(string, string), nat>)
    requires forall x <- order :: x < |cs|
  {
    forall key :: (if key in seen then seen[key] else 0) == |SeenOf(cs, order, key)|
  }

  lemma SeenOneMore(cs: seq<Chunk>, order: seq<nat>, x: nat, other: (string, string))
    requires (forall y <- order :: y < |cs|) && x < |cs| && x !in order
    ensures |SeenOf(cs, order + [x], other)|
         == |SeenOf(cs, order, other)| + if other == (cs[x].path, cs[x].contentHash) then 1 else 0
  {
    assert SeenOf(cs, order + [x], other)
        == SeenOf(cs, order, other) + if other == (cs[x].path, cs[x].contentHash) then {x} else {};
  }

  lemma CountOneMore(cs: seq<Chunk>, order: seq<nat>, x: nat, seen: map<(string, string), nat>)
    requires (forall y <- order :: y < |cs|) && x < |cs| && x !in order && CountsSeen(cs, order, seen)
    ensures var key := (cs[x].path, cs[x].contentHash);
            CountsSeen(cs, order + [x], seen[key := |SeenOf(cs, order, key)| + 1])
  {
    forall other
      ensures |SeenOf(cs, order + [x], other)|
           == |SeenOf(cs, order, other)| + if other == (cs[x].path, cs[x].contentHash) then 1 else 0
    {
      SeenOneMore(cs, order, x, other);
    }
  }

  lemma NextOrdinal(cs: seq<Chunk>, order: seq<nat>, k: nat, seen: map<(string, string), nat>)
    requires Sorted(cs, order) && Indices(order, |cs|) && k < |order|
    requires CountsSeen(cs, order[..k], seen)
    ensures var key := (cs[order[k]].path, cs[order[k]].contentHash);
            && (if key in seen then seen[key] else 0) == Ordinal(cs, order[k])
            && CountsSeen(cs, order[..k + 1], seen[key := Ordinal(cs, order[k]) + 1])
  {
    var x := order[k];
    var key := (cs[x].path, cs[x].contentHash);
    SeenIsEarlier(cs, order, k);
    assert SeenOf(cs, order[..k], key) == Earlier(cs, x);
    assert x !in order[..k] by { PrecedesTotal(cs, x, x); }
    CountOneMore(cs, order[..k], x, seen);
    assert order[..k + 1] == order[..k] + [x];
  }

  /** Every chunk gets the id whose ordinal counts the chunks of its group before it. */
  method ChunkIdsOf(cs: seq<Chunk>) returns (ids: seq<NodeId>)
    requires Countable(cs)
    ensures ids == Ids(cs)
  {
    var order := SortIndices(cs);
    var seen: map<(string, string), nat> := map[];
    var filled: map<nat, NodeId> := map[];
    for k := 0 to |cs|
      invariant CountsSeen(cs, order[..k], seen)
      invariant forall p :: 0 <= p < k ==> order[p] in filled
      invariant forall x <- filled :: x < |cs| && filled[x] == IdAt(cs, x)
    {
      var x := order[k];
      var key := (cs[x].path, cs[x].contentHash);
      NextOrdinal(cs, order, k, seen);
      OrdinalFits(cs, x);
      var ordinal := if key in seen then seen[key] else 0;
      filled := filled[x := NodeId.ChunkOf(cs[x].path, cs[x].contentHash, ordinal)];
      seen := seen[key := ordinal + 1];
    }
    forall x: nat | x < |cs|
      ensures x in filled
    {
      assert x in order;
    }
    ids := seq(|cs|, i requires 0 <= i < |cs| => filled[i]);
  }

  /** The files of a manifest, in the order they are listed. */
  method ManifestChunkIds(files: seq<seq<Chunk>>) returns (ids: seq<NodeId>)
    requires forall f <- files :: Countable(f)
    ensures ids == FileIds(files)
  {
    ids := [];
    for k := 0 to |files|
      invariant ids + FileIds(files[k..]) == FileIds(files)
    {
      assert files[k] in files && files[k..][1..] == files[k + 1..];
      var own := ChunkIdsOf(files[k]);
      ids := ids + own;
    }
  }

  function FileIds(files: seq<seq<Chunk>>): seq<NodeId>
    requires forall f <- files :: Countable(f)
  {
    if files == [] then []
    else
      assert files[0] in files;
      Ids(files[0]) + FileIds(files[1..])
  }
}
