/** The ids of what is extracted from one file. */
module ExtractedIds {
  import opened Ranges
  import opened RangeTiling
  import opened Extraction
  import opened ChunkIds
  import opened ChunkIdFacts

  lemma ExtractedInLineOrder(a: Adapter, t: Text, path: string, language: string, source: string, root: Node)
    requires WellFormed(root) && root.end <= |source|
    ensures Extraction.Within(Cut(a, root, 0), |source|)
    ensures InLineOrder(ChunksOf(t, path, language, source, Cut(a, root, 0)))
  {
    var rs, lo := Cut(a, root, 0), CutStart(a, root, 0);
    CutTiles(a, root, 0);
    TileBounds(rs, lo, root.end, |source|);
    var cs := ChunksOf(t, path, language, source, rs);
    forall i, j | 0 <= i < j < |cs|
      ensures cs[i].path == cs[j].path && cs[i].startLine <= cs[j].startLine && cs[i].endLine <= cs[j].endLine
    {
      ChunksInLineOrder(t, path, language, source, rs, lo, root.end, i, j);
    }
  }

  /** For each extracted file the chunks come sorted by start and end line, and the ordinals of equal
      chunks follow their bytes, duplicates on one line included. */
  lemma ExtractedOrdinalsFollowBytes(a: Adapter, t: Text, path: string, language: string, source: string, root: Node)
    requires WellFormed(root) && root.end <= |source|
    ensures Extraction.Within(Cut(a, root, 0), |source|)
    ensures var cs := ChunksOf(t, path, language, source, Cut(a, root, 0));
            forall i, j :: 0 <= i < j < |cs| ==>
              && !LinesLess(cs[j], cs[i])
              && (cs[i].contentHash == cs[j].contentHash ==> Ordinal(cs, i) < Ordinal(cs, j))
  {
    ExtractedInLineOrder(a, t, path, language, source, root);
    OrdinalsFollowLineOrder(ChunksOf(t, path, language, source, Cut(a, root, 0)));
  }
}
