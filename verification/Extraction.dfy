/** From ranges to chunks: the second half of `extract_tree_sitter` in lci-core/src/chunk.rs. */
module Extraction {
  import opened Ranges
  import opened RangeTiling
  import opened RangeAtoms
  import opened Chunks

  /** What the extractor is told about text: Unicode white space and the content hash. */
  datatype Text = Text(space: char -> bool, hash: string -> string)

  datatype Piece = Piece(begin: nat, finish: nat)

  predicate Braces(c: char) {
    c == '{' || c == '}' || c == ';'
  }

  function LeadingSpace(t: Text, s: string): (k: nat)
    ensures k <= |s|
    ensures forall i :: 0 <= i < k ==> t.space(s[i])
    ensures k < |s| ==> !t.space(s[k])
  {
    if s == "" || !t.space(s[0]) then 0 else 1 + LeadingSpace(t, s[1..])
  }

  function TrailingSpace(t: Text, s: string): (k: nat)
    ensures k <= |s|
    ensures forall i :: |s| - k <= i < |s| ==> t.space(s[i])
    ensures k < |s| ==> !t.space(s[|s| - k - 1])
  {
    if s == "" || !t.space(s[|s| - 1]) then 0 else 1 + TrailingSpace(t, s[..|s| - 1])
  }

  /** Where the trimmed text of the range [lo, hi) lies. */
  function Trimmed(t: Text, source: string, lo: nat, hi: nat): (p: Piece)
    requires lo <= hi <= |source|
    ensures lo <= p.begin <= p.finish <= hi
  {
    var raw := source[lo..hi];
    var k := LeadingSpace(t, raw);
    if k == |raw| then Piece(hi, hi)
    else
      var e := TrailingSpace(t, raw);
      assert !t.space(raw[k]);
      Piece(lo + k, hi - e)
  }

  /** A piece with something in it besides white space, braces and semicolons. */
  predicate Kept(t: Text, source: string, p: Piece)
    requires p.begin <= p.finish <= |source|
  {
    exists i :: p.begin <= i < p.finish && !t.space(source[i]) && !Braces(source[i])
  }

  function Newlines(s: string): nat {
    if s == "" then 0 else Newlines(s[..|s| - 1]) + if s[|s| - 1] == '\n' then 1 else 0
  }

  ghost predicate Within(rs: seq<Range>, length: nat) {
    forall r <- rs :: 0 <= r.lo <= r.hi <= length
  }

  function Pieces(t: Text, source: string, rs: seq<Range>): (ps: seq<Piece>)
    requires Within(rs, |source|)
    ensures forall p <- ps :: p.begin <= p.finish <= |source|
  {
    if rs == [] then []
    else
      var r := rs[|rs| - 1];
      assert Within(rs[..|rs| - 1], |source|) && r in rs;
      var p := Trimmed(t, source, r.lo, r.hi);
      Pieces(t, source, rs[..|rs| - 1]) + if Kept(t, source, p) then [p] else []
  }

  function ChunkAt(t: Text, path: string, language: string, source: string, p: Piece): Chunk
    requires p.begin <= p.finish <= |source|
  {
    var code := source[p.begin..p.finish];
    Chunk(path, language, Newlines(source[..p.begin]) + 1, Newlines(source[..p.finish]) + 1, code, t.hash(code))
  }

  function ChunksOf(t: Text, path: string, language: string, source: string, rs: seq<Range>): seq<Chunk>
    requires Within(rs, |source|)
  {
    var ps := Pieces(t, source, rs);
    seq(|ps|, i requires 0 <= i < |ps| => assert ps[i] in ps; ChunkAt(t, path, language, source, ps[i]))
  }

  method CountNewlines(s: string) returns (n: nat)
    ensures n == Newlines(s)
  {
    n := 0;
    for i := 0 to |s|
      invariant n == Newlines(s[..i])
    {
      assert s[..i + 1][..i] == s[..i];
      if s[i] == '\n' { n := n + 1; }
    }
    assert s[..|s|] == s;
  }

  method AllSpaceOrBraces(t: Text, code: string) returns (b: bool)
    ensures b <==> forall i :: 0 <= i < |code| ==> t.space(code[i]) || Braces(code[i])
  {
    for i := 0 to |code|
      invariant forall j :: 0 <= j < i ==> t.space(code[j]) || Braces(code[j])
    {
      if !t.space(code[i]) && !Braces(code[i]) { return false; }
    }
    return true;
  }

  method Dropped(t: Text, source: string, p: Piece) returns (dropped: bool)
    requires p.begin <= p.finish <= |source|
    ensures dropped <==> !Kept(t, source, p)
  {
    var code := source[p.begin..p.finish];
    dropped := AllSpaceOrBraces(t, code);
    if !dropped {
      var k :| 0 <= k < |code| && !t.space(code[k]) && !Braces(code[k]);
      assert source[p.begin + k] == code[k];
    } else {
      forall k | p.begin <= k < p.finish
        ensures t.space(source[k]) || Braces(source[k])
      {
        assert code[k - p.begin] == source[k];
      }
    }
  }

  lemma ChunksOfStep(t: Text, path: string, language: string, source: string, spans: seq<Range>, i: nat)
    requires Within(spans, |source|) && i < |spans|
    ensures var p := Trimmed(t, source, spans[i].lo, spans[i].hi);
            ChunksOf(t, path, language, source, spans[..i + 1]) ==
              ChunksOf(t, path, language, source, spans[..i]) +
              if Kept(t, source, p) then [ChunkAt(t, path, language, source, p)] else []
  {
    assert spans[..i + 1][..i] == spans[..i];
    assert spans[..i + 1][i] == spans[i];
  }

  /** One range: its chunk is added unless nothing but white space, braces and semicolons is in it. */
  method AddPiece(t: Text, path: string, language: string, source: string, p: Piece, chunks: seq<Chunk>)
    returns (r: seq<Chunk>)
    requires p.begin <= p.finish <= |source|
    ensures r == chunks + if Kept(t, source, p) then [ChunkAt(t, path, language, source, p)] else []
  {
    var code := source[p.begin..p.finish];
    var dropped := Dropped(t, source, p);
    if code == "" || dropped { return chunks; }
    var startLine := CountNewlines(source[..p.begin]);
    var endLine := CountNewlines(source[..p.finish]);
    r := chunks + [Chunk(path, language, startLine + 1, endLine + 1, code, t.hash(code))];
  }

  method Extract(t: Text, path: string, language: string, source: string, spans: seq<Range>)
    returns (chunks: seq<Chunk>)
    requires Within(spans, |source|)
    ensures chunks == ChunksOf(t, path, language, source, spans)
  {
    chunks := [];
    for i := 0 to |spans|
      invariant chunks == ChunksOf(t, path, language, source, spans[..i])
    {
      var r := spans[i];
      assert r in spans;
      ChunksOfStep(t, path, language, source, spans, i);
      chunks := AddPiece(t, path, language, source, Trimmed(t, source, r.lo, r.hi), chunks);
    }
    assert spans[..|spans|] == spans;
  }

  // ---------------------------------------------------------------- properties

  lemma {:induction false} NewlinesMonotone(source: string, i: nat, j: nat)
    requires i <= j <= |source|
    ensures Newlines(source[..i]) <= Newlines(source[..j])
    decreases j - i
  {
    if i < j {
      assert source[..j][..j - 1] == source[..j - 1];
      NewlinesMonotone(source, i, j - 1);
    }
  }

  lemma TileBounds(rs: seq<Range>, lo: int, hi: int, length: nat)
    requires Tiles(rs, lo, hi) && 0 <= lo && hi <= length
    ensures Within(rs, length)
  {
    forall r <- rs
      ensures 0 <= r.lo <= r.hi <= length
    {
      var k :| 0 <= k < |rs| && rs[k] == r;
      TileWithin(rs, lo, hi, k);
    }
  }

  lemma DropLastTiles(rs: seq<Range>, lo: int, hi: int)
    requires Tiles(rs, lo, hi)
    ensures Chains(rs[..|rs| - 1], lo, rs[|rs| - 1].lo) && lo <= rs[|rs| - 1].lo
  {
    TileWithin(rs, lo, hi, |rs| - 1);
  }

  ghost predicate InOrder(ps: seq<Piece>, hi: int) {
    && (forall i :: 0 <= i < |ps| ==> ps[i].begin < ps[i].finish <= hi)
    && (forall i, j :: 0 <= i < j < |ps| ==> ps[i].finish <= ps[j].begin)
  }

  /** Kept pieces of tiles are nonempty, disjoint and in byte order. */
  lemma {:induction false} PiecesInOrder(t: Text, source: string, rs: seq<Range>, lo: int, hi: int)
    requires Chains(rs, lo, hi) && 0 <= lo && hi <= |source| && Within(rs, |source|)
    ensures InOrder(Pieces(t, source, rs), hi)
    decreases |rs|
  {
    if rs != [] {
      var r := rs[|rs| - 1];
      DropLastTiles(rs, lo, hi);
      var front := rs[..|rs| - 1];
      assert Within(front, |source|);
      PiecesInOrder(t, source, front, lo, r.lo);
    }
  }

  /** Chunks of a file come out in byte order: each starts on or after the line the one before it
      ends on, so the list is sorted by (start line, end line). */
  lemma ChunksInLineOrder(t: Text, path: string, language: string, source: string, rs: seq<Range>,
    lo: int, hi: int, i: nat, j: nat)
    requires Tiles(rs, lo, hi) && 0 <= lo && hi <= |source| && Within(rs, |source|)
    requires i < j < |ChunksOf(t, path, language, source, rs)|
    ensures var cs := ChunksOf(t, path, language, source, rs);
            cs[i].startLine <= cs[i].endLine <= cs[j].startLine <= cs[j].endLine
  {
    PiecesInOrder(t, source, rs, lo, hi);
    var ps := Pieces(t, source, rs);
    NewlinesMonotone(source, ps[i].begin, ps[i].finish);
    NewlinesMonotone(source, ps[i].finish, ps[j].begin);
    NewlinesMonotone(source, ps[j].begin, ps[j].finish);
  }

  ghost predicate InPiece(ps: seq<Piece>, k: nat) {
    exists p <- ps :: p.begin <= k < p.finish
  }

  lemma TrimmedLosesSpaceOnly(t: Text, source: string, lo: nat, hi: nat, k: nat)
    requires lo <= k < hi <= |source|
    ensures var p := Trimmed(t, source, lo, hi); p.begin <= k < p.finish || t.space(source[k])
  {
    var raw := source[lo..hi];
    assert raw[k - lo] == source[k];
  }

  lemma TrimmedEdges(t: Text, source: string, lo: nat, hi: nat)
    requires lo <= hi <= |source|
    ensures var p := Trimmed(t, source, lo, hi);
            p.begin < p.finish ==> !t.space(source[p.begin]) && !t.space(source[p.finish - 1])
  {
  }

  /** The text of a chunk neither begins nor ends with white space, and holds more than braces and
      semicolons. */
  lemma {:induction false} PiecesAreTrimmed(t: Text, source: string, rs: seq<Range>)
    requires Within(rs, |source|)
    ensures forall p <- Pieces(t, source, rs) ::
              && p.begin < p.finish && !t.space(source[p.begin]) && !t.space(source[p.finish - 1])
              && Kept(t, source, p)
  {
    if rs != [] {
      var r := rs[|rs| - 1];
      assert r in rs && Within(rs[..|rs| - 1], |source|);
      PiecesAreTrimmed(t, source, rs[..|rs| - 1]);
      TrimmedEdges(t, source, r.lo, r.hi);
    }
  }

  /** A byte from the first range on that is in no chunk is white space, a brace or a semicolon. */
  lemma {:induction false} UncoveredIsSpaceOrBraces(
    t: Text, source: string, rs: seq<Range>, lo: int, hi: int, k: nat)
    requires Tiles(rs, lo, hi) && 0 <= lo <= k < hi <= |source| && Within(rs, |source|)
    ensures InPiece(Pieces(t, source, rs), k) || t.space(source[k]) || source[k] in {'{', '}', ';'}
    decreases |rs|
  {
    var r := rs[|rs| - 1];
    var front := rs[..|rs| - 1];
    DropLastTiles(rs, lo, hi);
    assert Within(front, |source|);
    var p := Trimmed(t, source, r.lo, r.hi);
    var ps := Pieces(t, source, front);
    if k < r.lo {
      UncoveredIsSpaceOrBraces(t, source, front, lo, r.lo, k);
      if InPiece(ps, k) {
        var q :| q in ps && q.begin <= k < q.finish;
        assert q in Pieces(t, source, rs);
      }
    } else {
      TrimmedLosesSpaceOnly(t, source, r.lo, r.hi, k);
      if p.begin <= k < p.finish && Kept(t, source, p) {
        assert p in Pieces(t, source, rs);
      }
    }
  }

  /** The whole path from a parsed file to its chunks: every byte of a named child of the root is
      in a chunk, or is white space, a brace or a semicolon. */
  lemma {:induction false} NoNamedByteIsLost(a: Adapter, t: Text, source: string, root: Node, d: Node, k: nat)
    requires WellFormed(root) && root.end <= |source| && InTree(d, root) && d != root
    requires d.start <= k < d.end
    ensures var rs := Cut(a, root, 0);
            && k < |source| && Within(rs, |source|)
            && (InPiece(Pieces(t, source, rs), k) || t.space(source[k]) || source[k] in {'{', '}', ';'})
  {
    var rs := Cut(a, root, 0);
    CutTiles(a, root, 0);
    InTreeFacts(a, root, d, 0);
    TileBounds(rs, CutStart(a, root, 0), root.end, |source|);
    UncoveredIsSpaceOrBraces(t, source, rs, CutStart(a, root, 0), root.end, k);
  }
}
