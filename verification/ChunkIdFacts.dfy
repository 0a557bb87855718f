/** What chunk ids are good for: they are distinct, dense and stable. */
module ChunkIdFacts {
  import opened Chunks
  import opened NodeIds
  import opened ChunkIds
  import opened IndexSets
  import opened TextOrder

  lemma EarlierGrows(cs: seq<Chunk>, i: nat, j: nat)
    requires i < |cs| && j < |cs| && SameGroup(cs, i, j) && Precedes(cs, i, j)
    ensures Ordinal(cs, i) < Ordinal(cs, j)
  {
    PrecedesTotal(cs, i, i);
    forall k <- Earlier(cs, i)
      ensures k in Earlier(cs, j)
    {
      PrecedesTransitive(cs, k, i, j);
    }
    assert i in Earlier(cs, j) && i !in Earlier(cs, i);
    SmallerSet(Earlier(cs, i), Earlier(cs, j));
  }

  /** Chunk `j` of the same file and content begins before chunk `i`, or begins there and ends before it, or has
      its lines and comes earlier in the list. */
  predicate Before(cs: seq<Chunk>, j: nat, i: nat)
    requires i < |cs|
  {
    && j < |cs| && cs[j].path == cs[i].path && cs[j].contentHash == cs[i].contentHash
    && (|| cs[j].startLine < cs[i].startLine
        || (cs[j].startLine == cs[i].startLine && cs[j].endLine < cs[i].endLine)
        || (cs[j].startLine == cs[i].startLine && cs[j].endLine == cs[i].endLine && j < i))
  }

  /** A chunk's id is its file, its content and how many of the same file and content come before it. */
  lemma IdCountsThoseBefore(cs: seq<Chunk>, i: nat)
    requires Countable(cs) && i < |cs|
    ensures var id := Ids(cs)[i];
            && id.ChunkOf? && id.path == cs[i].path && id.contentHash == cs[i].contentHash
            && id.ordinal == |set j: nat | j < |cs| && Before(cs, j, i)|
  {
    TextLessTotal(cs[i].path, cs[i].path);
    assert Earlier(cs, i) == set j: nat | j < |cs| && Before(cs, j, i);
  }

  /** No two chunks share an id. */
  lemma IdsDistinct(cs: seq<Chunk>, i: nat, j: nat)
    requires Countable(cs) && i < |cs| && j < |cs| && i != j
    ensures Ids(cs)[i] != Ids(cs)[j]
  {
    if SameGroup(cs, i, j) {
      PrecedesTotal(cs, i, j);
      if Precedes(cs, i, j) { EarlierGrows(cs, i, j); } else { EarlierGrows(cs, j, i); }
    }
  }

  function Ordinals(cs: seq<Chunk>, i: nat): set<nat>
    requires i < |cs|
  {
    set j <- Group(cs, i) :: Ordinal(cs, j)
  }

  /** The ordinals of one group are exactly 0, 1, ..., size - 1. */
  lemma OrdinalsAreDense(cs: seq<Chunk>, i: nat)
    requires i < |cs|
    ensures Ordinals(cs, i) == Below(|Group(cs, i)|)
  {
    var group, below := Group(cs, i), Below(|Group(cs, i)|);
    forall j <- group
      ensures Ordinal(cs, j) < |group|
    {
      PrecedesTotal(cs, j, j);
      assert j !in Earlier(cs, j);
      SmallerSet(Earlier(cs, j), group);
    }
    var f := map j <- group :: Ordinal(cs, j);
    forall x <- group, y <- group | f[x] == f[y]
      ensures x == y
    {
      if x != y {
        PrecedesTotal(cs, x, y);
        if Precedes(cs, x, y) { EarlierGrows(cs, x, y); } else { EarlierGrows(cs, y, x); }
      }
    }
    ImageSize(group, f, Ordinals(cs, i));
    assert Ordinals(cs, i) <= below;
    if Ordinals(cs, i) != below { SmallerSet(Ordinals(cs, i), below); }
  }

  // ---------------------------------------------------------------- stability

  /** `f` carries the group of chunk `i` of `cs` one to one onto that of chunk `f[i]` of `ds`, order kept. */
  ghost predicate Carries(cs: seq<Chunk>, ds: seq<Chunk>, f: map<nat, nat>, i: nat)
    requires i < |cs|
  {
    && i in f && f[i] < |ds|
    && ds[f[i]].path == cs[i].path && ds[f[i]].contentHash == cs[i].contentHash
    && (forall j <- Group(cs, i) :: j in f && f[j] < |ds| && SameGroup(ds, f[j], f[i]))
    && (forall j <- Group(cs, i) :: Precedes(ds, f[j], f[i]) <==> Precedes(cs, j, i))
    && (forall j <- Group(cs, i), k <- Group(cs, i) :: f[j] == f[k] ==> j == k)
    && (forall y <- Group(ds, f[i]) :: exists j <- Group(cs, i) :: f[j] == y)
  }

  /** An id depends on nothing but its group and the order in it. */
  lemma CarriedIdsEqual(cs: seq<Chunk>, ds: seq<Chunk>, f: map<nat, nat>, i: nat)
    requires i < |cs| && Countable(cs) && Countable(ds) && Carries(cs, ds, f, i)
    ensures Ids(ds)[f[i]] == Ids(cs)[i]
  {
    assert Earlier(cs, i) <= Group(cs, i);
    forall y <- Earlier(ds, f[i])
      ensures exists j <- Earlier(cs, i) :: f[j] == y
    {
      assert y in Group(ds, f[i]);
      var j :| j in Group(cs, i) && f[j] == y;
      assert j in Earlier(cs, i);
    }
    ImageSize(Earlier(cs, i), f, Earlier(ds, f[i]));
  }

  ghost predicate Permutes(p: seq<nat>, n: nat) {
    && |p| == n && (forall i :: 0 <= i < n ==> p[i] < n)
    && (forall i, j :: 0 <= i < n && 0 <= j < n && i != j ==> p[i] != p[j])
  }

  ghost predicate Rearranged(cs: seq<Chunk>, ds: seq<Chunk>, p: seq<nat>) {
    Permutes(p, |cs|) && |ds| == |cs| && forall i :: 0 <= i < |cs| ==> ds[p[i]] == cs[i]
  }

  /** The first `k` values of a permutation are `k` distinct ones. */
  lemma {:induction false} ValuesOfPrefix(p: seq<nat>, n: nat, k: nat) returns (values: set<nat>)
    requires Permutes(p, n) && k <= n
    ensures |values| == k
    ensures forall z <- values :: z < n && z in p[..k]
  {
    values := {};
    if k > 0 {
      var front := ValuesOfPrefix(p, n, k - 1);
      var z := p[k - 1];
      assert z !in p[..k - 1];
      values := front + {z};
      assert p[..k] == p[..k - 1] + [z];
    }
  }

  lemma PermutesOnto(p: seq<nat>, n: nat, y: nat)
    requires Permutes(p, n) && y < n
    ensures exists i :: 0 <= i < n && p[i] == y
  {
    var values := ValuesOfPrefix(p, n, n);
    assert values <= Below(n) && y in Below(n);
    if y !in values { SmallerSet(values, Below(n)); }
    assert p[..n] == p;
  }

  /** Nothing else of the group of chunk `i` begins and ends on the same lines. */
  ghost predicate Untied(cs: seq<Chunk>, i: nat)
    requires i < |cs|
  {
    forall j <- Group(cs, i) :: j == i || cs[j].startLine != cs[i].startLine || cs[j].endLine != cs[i].endLine
  }

  lemma RearrangementCarries(cs: seq<Chunk>, ds: seq<Chunk>, p: seq<nat>, i: nat, f: map<nat, nat>)
    requires Rearranged(cs, ds, p) && i < |cs| && Untied(cs, i)
    requires forall j: nat :: j < |cs| ==> j in f && f[j] == p[j]
    ensures Carries(cs, ds, f, i)
  {
    forall j <- Group(cs, i)
      ensures Precedes(ds, f[j], f[i]) <==> Precedes(cs, j, i)
    {
      if j == i {
        PrecedesTotal(cs, i, i);
        PrecedesTotal(ds, f[i], f[i]);
      } else {
      }
    }
    forall y <- Group(ds, f[i])
      ensures exists j <- Group(cs, i) :: f[j] == y
    {
      PermutesOnto(p, |cs|, y);
      var j :| 0 <= j < |cs| && p[j] == y;
      assert j in Group(cs, i);
    }
  }

  /** Any order of the list gives chunk `i` the same id when nothing of its group ties with it on lines. */
  lemma OrderDoesNotMatter(cs: seq<Chunk>, ds: seq<Chunk>, p: seq<nat>, i: nat)
    requires Countable(cs) && Rearranged(cs, ds, p) && i < |cs| && Untied(cs, i)
    ensures Ids(ds)[p[i]] == Ids(cs)[i]
  {
    var f := map k <- Below(|cs|) :: p[k];
    RearrangementCarries(cs, ds, p, i, f);
    CarriedIdsEqual(cs, ds, f, i);
  }

  /** How many chunks of file `path` have content `contentHash`. */
  function Members(cs: seq<Chunk>, path: string, contentHash: string): set<nat> {
    set j: nat | j < |cs| && cs[j].path == path && cs[j].contentHash == contentHash
  }

  lemma GroupIsMembers(cs: seq<Chunk>, i: nat)
    requires i < |cs|
    ensures Group(cs, i) == Members(cs, cs[i].path, cs[i].contentHash)
    ensures Ordinal(cs, i) in Ordinals(cs, i)
  {
  }

  lemma IdAtOrdinal(cs: seq<Chunk>, path: string, contentHash: string, ordinal: u32) returns (j: nat)
    requires Countable(cs) && ordinal < |Members(cs, path, contentHash)|
    ensures j < |cs| && IdAt(cs, j) == NodeId.ChunkOf(path, contentHash, ordinal)
  {
    var members := Members(cs, path, contentHash);
    var i :| i in members;
    GroupIsMembers(cs, i);
    OrdinalsAreDense(cs, i);
    assert ordinal in Ordinals(cs, i);
    j :| j in Group(cs, i) && Ordinal(cs, j) == ordinal;
  }

  /** A list gives an id exactly when its group has more members than the ordinal. */
  lemma IdIffOrdinalBelowGroupSize(cs: seq<Chunk>, path: string, contentHash: string, ordinal: u32)
    requires Countable(cs)
    ensures NodeId.ChunkOf(path, contentHash, ordinal) in Ids(cs) <==> ordinal < |Members(cs, path, contentHash)|
  {
    var id := NodeId.ChunkOf(path, contentHash, ordinal);
    if id in Ids(cs) {
      var i :| 0 <= i < |cs| && Ids(cs)[i] == id;
      GroupIsMembers(cs, i);
      OrdinalsAreDense(cs, i);
    }
    if ordinal < |Members(cs, path, contentHash)| {
      var j := IdAtOrdinal(cs, path, contentHash, ordinal);
      assert Ids(cs)[j] == id;
    }
  }

  /** The set of ids is the same for every order of the list, ties or not. */
  lemma IdSetIgnoresOrder(cs: seq<Chunk>, ds: seq<Chunk>, p: seq<nat>, id: NodeId)
    requires Countable(cs) && Rearranged(cs, ds, p)
    ensures id in Ids(cs) <==> id in Ids(ds)
  {
    if id.ChunkOf? {
      var members, others := Members(cs, id.path, id.contentHash), Members(ds, id.path, id.contentHash);
      var f := map k <- Below(|cs|) :: p[k];
      forall y <- others
        ensures exists j <- members :: f[j] == y
      {
        PermutesOnto(p, |cs|, y);
        var j :| 0 <= j < |cs| && p[j] == y;
        assert j in members;
      }
      ImageSize(members, f, others);
      IdIffOrdinalBelowGroupSize(cs, id.path, id.contentHash, id.ordinal);
      IdIffOrdinalBelowGroupSize(ds, id.path, id.contentHash, id.ordinal);
    }
  }

  /** Moving lines without reordering any group changes no id. */
  lemma LineShiftKeepsIds(cs: seq<Chunk>, ds: seq<Chunk>)
    requires Countable(cs) && |ds| == |cs|
    requires forall i :: 0 <= i < |cs| ==> ds[i].path == cs[i].path && ds[i].contentHash == cs[i].contentHash
    requires forall i, j :: 0 <= i < |cs| && 0 <= j < |cs| && SameGroup(cs, i, j) ==>
               (LinesLess(ds[i], ds[j]) <==> LinesLess(cs[i], cs[j]))
    ensures Ids(ds) == Ids(cs)
  {
    forall i | 0 <= i < |cs|
      ensures Ids(ds)[i] == Ids(cs)[i]
    {
      TextLessTotal(cs[i].path, cs[i].path);
      forall j: nat | j < |cs|
        ensures j in Earlier(ds, i) <==> j in Earlier(cs, i)
      {
      }
      assert Earlier(ds, i) == Earlier(cs, i);
    }
  }

  function Shifted(k: nat, j: nat): (r: nat)
    ensures r != k
  {
    if j < k then j else j + 1
  }

  ghost predicate Inserted(cs: seq<Chunk>, ds: seq<Chunk>, k: nat, x: Chunk) {
    && k <= |cs| && |ds| == |cs| + 1 && ds[k] == x
    && forall j: nat :: j < |cs| ==> ds[Shifted(k, j)] == cs[j]
  }

  lemma InsertionCarries(cs: seq<Chunk>, ds: seq<Chunk>, k: nat, x: Chunk, i: nat, f: map<nat, nat>)
    requires Inserted(cs, ds, k, x) && i < |cs|
    requires x.path != cs[i].path || x.contentHash != cs[i].contentHash
    requires forall j: nat :: j < |cs| ==> j in f && f[j] == Shifted(k, j)
    ensures Carries(cs, ds, f, i)
  {
    assert ds[f[i]] == cs[i];
    forall j <- Group(cs, i)
      ensures j in f && f[j] < |ds| && ds[f[j]] == cs[j] && SameGroup(ds, f[j], f[i])
      ensures f[j] < f[i] <==> j < i
    {
    }
    forall y <- Group(ds, f[i])
      ensures exists j <- Group(cs, i) :: f[j] == y
    {
      var j: nat := if y < k then y else y - 1;
      assert y != k && Shifted(k, j) == y && ds[f[j]] == cs[j];
      assert j in Group(cs, i);
    }
  }

  /** A chunk of another file or other content, inserted anywhere, changes no existing id. */
  lemma InsertionKeepsIds(cs: seq<Chunk>, ds: seq<Chunk>, k: nat, x: Chunk, i: nat)
    requires Inserted(cs, ds, k, x) && Countable(ds) && i < |cs|
    requires x.path != cs[i].path || x.contentHash != cs[i].contentHash
    ensures Ids(ds)[Shifted(k, i)] == Ids(cs)[i]
  {
    var f: map<nat, nat> := map j <- Below(|cs|) :: Shifted(k, j);
    InsertionCarries(cs, ds, k, x, i, f);
    CarriedIdsEqual(cs, ds, f, i);
  }

  // ---------------------------------------------------------------- per file and per snapshot

  lemma LeftIds(xs: seq<Chunk>, ys: seq<Chunk>, i: nat)
    requires |xs| + |ys| < 0x1_0000_0000 && i < |xs|
    requires forall x <- xs, y <- ys :: x.path != y.path
    ensures Ids(xs + ys)[i] == Ids(xs)[i]
  {
    var cs := xs + ys;
    forall j: nat | |xs| <= j < |cs|
      ensures cs[j].path != cs[i].path
    {
      assert cs[j] in ys && xs[i] in xs;
    }
    assert Earlier(cs, i) == Earlier(xs, i);
  }

  /** `cs` ends in `ys`, and nothing before is of the file of chunk `i` of `ys`. */
  ghost predicate EndsIn(cs: seq<Chunk>, ys: seq<Chunk>, base: nat, i: nat)
    requires i < |ys|
  {
    && |cs| == base + |ys|
    && (forall k: nat {:trigger cs[k]} :: base <= k < |cs| ==> cs[k] == ys[k - base])
    && (forall k: nat :: k < base ==> cs[k].path != ys[i].path)
  }

  lemma EndCarries(cs: seq<Chunk>, ys: seq<Chunk>, base: nat, i: nat, f: map<nat, nat>)
    requires i < |ys| && EndsIn(cs, ys, base, i)
    requires forall j: nat :: j < |ys| ==> j in f && f[j] == base + j
    ensures Carries(ys, cs, f, i)
  {
    assert cs[f[i]] == ys[i];
    forall j <- Group(ys, i)
      ensures j in f && f[j] < |cs| && cs[f[j]] == ys[j] && SameGroup(cs, f[j], f[i])
      ensures f[j] < f[i] <==> j < i
    {
    }
    forall y <- Group(cs, f[i])
      ensures exists j <- Group(ys, i) :: f[j] == y
    {
      var j: nat := y - base;
      assert cs[f[j]] == ys[j];
      assert j in Group(ys, i);
    }
  }

  lemma EndIds(cs: seq<Chunk>, ys: seq<Chunk>, base: nat, i: nat)
    requires i < |ys| && EndsIn(cs, ys, base, i) && Countable(cs)
    ensures Ids(cs)[base + i] == Ids(ys)[i]
  {
    var f: map<nat, nat> := map j <- Below(|ys|) :: base + j;
    EndCarries(cs, ys, base, i, f);
    CarriedIdsEqual(ys, cs, f, i);
  }

  lemma RightIds(xs: seq<Chunk>, ys: seq<Chunk>, i: nat)
    requires |xs| + |ys| < 0x1_0000_0000 && i < |ys|
    requires forall x <- xs, y <- ys :: x.path != y.path
    ensures Ids(xs + ys)[|xs| + i] == Ids(ys)[i]
  {
    forall j: nat | j < |xs|
      ensures (xs + ys)[j].path != ys[i].path
    {
      assert xs[j] in xs && ys[i] in ys;
    }
    EndIds(xs + ys, ys, |xs|, i);
  }

  lemma ConcatenatedIds(xs: seq<Chunk>, ys: seq<Chunk>)
    requires |xs| + |ys| < 0x1_0000_0000
    requires forall x <- xs, y <- ys :: x.path != y.path
    ensures Ids(xs + ys) == Ids(xs) + Ids(ys)
  {
    forall i: nat | i < |xs|
      ensures Ids(xs + ys)[i] == Ids(xs)[i]
    {
      LeftIds(xs, ys, i);
    }
    forall i: nat | i < |ys|
      ensures Ids(xs + ys)[|xs| + i] == Ids(ys)[i]
    {
      RightIds(xs, ys, i);
    }
  }

  function Flattened(files: seq<seq<Chunk>>): seq<Chunk> {
    if files == [] then [] else files[0] + Flattened(files[1..])
  }

  ghost predicate OnePathPerFile(files: seq<seq<Chunk>>) {
    forall i, j :: 0 <= i < j < |files| ==> forall x <- files[i], y <- files[j] :: x.path != y.path
  }

  lemma {:induction false} InFlattened(files: seq<seq<Chunk>>, y: Chunk)
    requires y in Flattened(files)
    ensures exists j :: 0 <= j < |files| && y in files[j]
  {
    if y !in files[0] {
      InFlattened(files[1..], y);
      var j :| 0 <= j < |files| - 1 && y in files[1..][j];
      assert y in files[j + 1];
    }
  }

  /** Ids taken file by file are the ids of the whole snapshot. */
  lemma {:induction false} PerFileIdsAreSnapshotIds(files: seq<seq<Chunk>>)
    requires OnePathPerFile(files) && |Flattened(files)| < 0x1_0000_0000
    ensures forall f <- files :: Countable(f)
    ensures FileIds(files) == Ids(Flattened(files))
  {
    if files != [] {
      var rest := files[1..];
      PerFileIdsAreSnapshotIds(rest);
      forall x <- files[0], y <- Flattened(rest)
        ensures x.path != y.path
      {
        InFlattened(rest, y);
        var j :| 0 <= j < |rest| && y in rest[j];
        assert y in files[j + 1];
      }
      ConcatenatedIds(files[0], Flattened(rest));
    }
  }

  /** In a file's own order, which extraction gives, ordinals follow the bytes even on one line. */
  lemma OrdinalsFollowByteOrder(cs: seq<Chunk>, i: nat, j: nat)
    requires InLineOrder(cs) && i < j < |cs| && cs[i].contentHash == cs[j].contentHash
    ensures Ordinal(cs, i) < Ordinal(cs, j)
  {
    TextLessTotal(cs[i].path, cs[j].path);
    EarlierGrows(cs, i, j);
  }

  /** All in one file, in the order of their lines. */
  ghost predicate InLineOrder(cs: seq<Chunk>) {
    forall i, j :: 0 <= i < j < |cs| ==>
      cs[i].path == cs[j].path && cs[i].startLine <= cs[j].startLine && cs[i].endLine <= cs[j].endLine
  }

  lemma OrdinalsFollowLineOrder(cs: seq<Chunk>)
    requires InLineOrder(cs)
    ensures forall i, j :: 0 <= i < j < |cs| ==>
              && !LinesLess(cs[j], cs[i])
              && (cs[i].contentHash == cs[j].contentHash ==> Ordinal(cs, i) < Ordinal(cs, j))
  {
    forall i, j | 0 <= i < j < |cs| && cs[i].contentHash == cs[j].contentHash
      ensures Ordinal(cs, i) < Ordinal(cs, j)
    {
      OrdinalsFollowByteOrder(cs, i, j);
    }
  }
}
