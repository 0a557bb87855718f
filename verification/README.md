# Verified models of local-code-intelligence

This project models nine parts of a local code indexer in Dafny and proves what they are for. The
indexer cuts source files into chunks along their syntax trees, names every chunk and symbol with a
printable id, keeps a cache so that unchanged files are neither read nor parsed again, searches a
vector table and a set of matching lines, and stores its results where several processes meet.

Each part that the program writes as loops over changing variables is a method here, with the same
branches, constants and loop variables, proved equal to a specification function or relation; the
theorems are lemmas about that specification. Run `dafny verify dfyconfig.toml` for the whole project.

| part | files |
|---|---|
| syntax-tree chunker: ranges, the cut into chunks | Ranges, RangeTiling, RangeAtoms, RangeWalks, RangeGaps, RangeFronts, RangeParts, RangeDepths, Chunks, Extraction, ChunkTexts |
| node ids: percent-encoding (RFC 3986 section 2.1 over RFC 3629 section 3), printer, parser | Utf8, PercentText, NodeIds, NodeIdRoundTrip, NodeIdForms |
| chunk ordinals | IndexSets, TextOrder, ChunkIds, ChunkIdFacts, ExtractedIds |
| stat gate of the source hashes | StatGates, StatPasses, StatAnswers |
| incremental scan, fingerprint, manifest | Fingerprints, Scans, ScanRuns, ScanContents |
| filtered nearest-neighbour search | Numbers, Searches, SearchFacts, SearchCounts, SearchLanes, SearchReports |
| legacy table migration | LegacyTables |
| civil dates (RFC 3339 section 5.7 and Appendix C for the calendar) | CivilDates |
| query terms, line crediting, BM25 scoring | Identifiers, IdentifierWords, QueryTerms, QueryOffers, Masks, TermMatching, LineMatches, Bm25, Scoring, ScoreFormulas, ChunkScoring |
| reverse breadth-first search | ReverseBfs |
| bundle store shared by processes | Bundles, BundlePlaces, BundleRuns, BundleCalls |
| Qt Linguist catalog recogniser | Catalogs, CatalogRoots |

Things the program gets from elsewhere are parameters: the kind tables of a language adapter, the
content hash, the parser, Unicode character classes and lower-casing, the natural logarithm, the JSON
reader and writer, the row filter, the clock. What a theorem needs of one is a `requires` with a name
(`HashInjective`, `Sound`, `ExtendsAscii`, `LowersAscii`, `WellFormed`).

## Where a promise holds only under a condition

- The ranges of a node tile it when every named node is nonempty. With nodes of zero width anywhere in the
  tree the ranges of a call are still in order and apart, and they follow each other without a gap up to the
  node's end, or there are none, if and only if no turn of the call or of a call below it loses bytes
  (`CutWithoutGapsExactly`). That is a condition on the tree (`Lossless`, over `PushesNothing`): with
  something pushed before, a turn opens a child that pushes nothing although it or its attached prefix has
  an extent, or it closes a run of zero width, right after no opened child, before a later start. The first
  range begins past a nonempty named child, or there is none, if and only if the child is swallowed: with
  nothing pushed before, it is opened and pushes nothing, or is attached to such a child
  (`FirstRangeReachesExactly`). When no turn loses bytes, every byte from a nonempty child that is not
  swallowed to the node's end is in a range (`UnswallowedBytesKept`). The families: `PackedEmptyLosesBytes`,
  `PackedEmptyAtEndLosesAll`, `OpenedEmptyLosesItsPrefix`; an opened leaf of zero width pushes an empty
  range and loses nothing (`OpenedEmptyLeafPushesAnEmptyRange`).
- A call may drop the bytes before a node's first named child: exactly when `DropsHeader`; its caller's
  rewrite puts them back (`OpenedChildTiles`), and only the file's own header before its first named
  child stays out.
- `parse_unchecked` undoes printing exactly for the ids that are `Separable`: symbols whose first
  container segment holds a space, sections whose heading path is not one empty heading.
  `NodeId::validate` demands the rest, so for valid ids the round trip is unconditional.
- The stat gate never answers a stale hash if and only if stamps are no coarser than the racy window
  (`SafeIffWindowCoversGranularity`).
- Byte and character matching agree on every ASCII line if and only if the term is lower-case
  (`AgreeExactlyOnLowercase`); every query term is (`TermsCanBeCredited`).
- A snapshot begun while there is an index answers "no index" if and only if its first open did not find the
  short table and a drop of the legacy one falls between its two opens (`MissesExactlyAcrossADrop`). A caller
  that sees the short table first is safe. The drop does come: a whole commit between the two opens is such a
  run (`CommitBetweenOpensHidesTheIndex`), and the short table is then there for the next attempt.
- A bundle in place stays readable however things go on, its key kept and alone in its place from then on, if
  and only if no put aimed at that place is about to clear it, and no put of a colliding key is still writing,
  renaming, checking, or retrying with its temporary file there (`StaysExactlyUnthreatened`). So a put may
  delete a bundle that another put of the same key has just renamed into place, when it looked before and
  clears after (`StaleLookHappens`).
- A term's weight is positive exactly for frequencies up to the number of files; the comment on
  `inverse_document_frequency` says always (`WeightPositive`).
- A UTF-16 catalog is recognised when its first 512 units after white space are; `LongCommentsHideUtf16`
  gives the family where this differs from the same text in UTF-8.
- An uncapped answer of the search is the filtered ranking, on every ranking with a given number of passing
  rows, if and only if the caller's count covers what could be returned or is past the row cap
  (`CountsExactly`). The code lane over a mixed index and the code-only index agree, on all such rankings,
  if and only if the count covers what could be returned or is at or past the cap (`LanesAgreeExactly`).

The comment on `decode` leaves non-canonical escapes to the comparison of the whole id. The reason matters:
a two-digit escape may be a plus sign and one digit to the library's number parser, so `decode` alone
accepts it; `PercentText.HexByte` follows the code.

## Model

| member | source | states |
|---|---|---|
| `Ranges.CutInto` | lci-core/src/chunk.rs:57-160 | A call appends to the shared vector exactly the ranges of the functional cut and changes no earlier entry; nesting past 128 levels is cut whole, so the recursion ends whatever the tree. |
| `Ranges.VisitChildren` | lci-core/src/chunk.rs:95-156 | The loop over the named children, with its four variables, pushes what the cursor form says. |
| `Ranges.VisitChild` | lci-core/src/chunk.rs:107-156 | One turn: prefix children wait, split children are opened and their first range rewritten, others are packed or close the run. |
| `Ranges.OpenChild` | lci-core/src/chunk.rs:124-136 | A header that does not attach is pushed first; after the recursive call the first new range begins at the header or the child as told, and the index of the last new range is kept only if there is one. |
| `Ranges.CloseRun` | lci-core/src/chunk.rs:141-148 | Closing a run pushes it; right after an opened child its last range is stretched instead, if it still ends there. |
| `Ranges.TrailingPrefix` | lci-core/src/chunk.rs:95-98 | Where the run of prefix children that closes the list begins. |
| `RangeTiling.CutTiles` | lci-core/src/chunk.rs:57-160 | The ranges of a well-formed node are nonempty, each begins where the one before ends, they end at the node's end and begin at its start or, exactly when the call drops its header, at its first named child. |
| `RangeTiling.CutStart` | lci-core/src/chunk.rs:103-158 | The first range begins inside the node and no later than its first named child. |
| `RangeTiling.OpenedChildTiles` | lci-core/src/chunk.rs:124-136 | After the caller's rewrite an opened child is tiled from its attached prefix or header to its end, and the ranges before it reach exactly that point. |
| `RangeTiling.VisitsConsistent` | lci-core/src/chunk.rs:103-156 | The loop invariant: what is pushed tiles up to the open run, and the index kept for stretching is that of the last range. |
| `RangeAtoms.CutClear` | lci-core/src/chunk.rs:70-84 | No range begins or ends strictly inside a named node that is no container, no boundary and within its size limit, at any depth. |
| `RangeAtoms.AtomInOneRange` | lci-core/src/chunk.rs:70-84 | Every such node lies whole in exactly one range and meets no other. |
| `RangeDepths.PartedInTree` | lci-core/src/chunk.rs:114-156 | In the whole tree, at any depth: of two taken children of an opened node a range ends between them if the first is opened, if the second is and does not attach its header, if the node is a container, or if the second ends more than 6000 bytes past the first's start. Opened are boundaries, containers other than a nested source file, declarations over 24000 bytes and other nodes over 6000. |
| `RangeDepths.FrontsInTree` | lci-core/src/chunk.rs:107-145 | An opened child that attaches nothing, and a child packed in a container, begins its range exactly at the first prefix child waiting for it. |
| `RangeDepths.EndsInTreeAreExplained` | lci-core/src/chunk.rs:107-159 | And no range ends anywhere else inside an opened node: each end is at the front of a child that begins a range, or is an end of an opened child cut alone. |
| `RangeDepths.EndsAtDepth` | lci-core/src/chunk.rs:129-133 | The ends strictly inside a node reached through opened ones are those of the node cut alone. |
| `RangeDepths.FrontStaysWithChild` | lci-core/src/chunk.rs:91-113 | No range ends between a waiting prefix child and the child it waits for, nor between an attached header and its child; a closing run of prefixes waits unless it is longer than 6000 bytes. |
| `RangeDepths.UnopenedIsWhole` | lci-core/src/chunk.rs:117-151 | No range ends inside a waiting child or one that is not opened. |
| `RangeDepths.PackedApartDidNotFit` | lci-core/src/chunk.rs:137-156 | Where a node that is no container parts two packed neighbours, the second did not fit in 6000 bytes with what was open. |
| `RangeDepths.DeepAndChildlessAreWhole` | lci-core/src/chunk.rs:63-90 | No range ends inside a node without children or one met 128 levels down, however large. |
| `RangeGaps.CutInOrder` | lci-core/src/chunk.rs:57-160 | Nodes of zero width or not: the ranges of a nested tree are in order, apart and inside the node. |
| `RangeGaps.CutWithoutGapsExactly` | lci-core/src/chunk.rs:57-160 | They follow each other without a gap up to the node's end, or there are none, if and only if no turn of the call or of a call below it loses bytes, a condition on the tree. |
| `RangeGaps.WellFormedIsLossless` | lci-core/src/chunk.rs:57-160 | Trees of nonempty nodes meet that condition. |
| `RangeWalks.CutBegins` | lci-core/src/chunk.rs:103-159 | Where the first range of a call begins, and when the call pushes none, said on the tree alone. |
| `RangeFronts.FirstRangeReachesExactly` | lci-core/src/chunk.rs:107-136 | The first range begins past a nonempty named child, or there is none, if and only if the child is swallowed by an opened one that pushes nothing. |
| `RangeFronts.UnswallowedBytesKept` | lci-core/src/chunk.rs:57-160 | With nothing lost, every byte from a nonempty child that is not swallowed to the node's end is in a range. |
| `RangeFronts.PackedEmptyAtEndLosesAll` | lci-core/src/chunk.rs:137-159 | A container whose only named child is packed, of zero width and at its end pushes nothing. |
| `RangeGaps.PackedEmptyLosesBytes` | lci-core/src/chunk.rs:137-151 | A packed node of zero width leaves the bytes up to the packed node after it in no range: the tree is not lossless. |
| `RangeFronts.OpenedEmptyLosesItsPrefix` | lci-core/src/chunk.rs:107-136 | An opened container of zero width that pushes nothing swallows the comment attached to it. |
| `RangeGaps.OpenedEmptyLeafPushesAnEmptyRange` | lci-core/src/chunk.rs:86-90 | An opened node of zero width without children pushes an empty range and loses no byte: the tree is lossless. |
| `Extraction.Extract` | lci-core/src/chunk.rs:245-264 | The loop over the ranges gives one chunk per range that is more than white space, braces and semicolons, with its trimmed text, lines and hash. |
| `Extraction.PiecesAreTrimmed` | lci-core/src/chunk.rs:246-253 | Chunk texts begin and end with something other than white space. |
| `Extraction.ChunksInLineOrder` | lci-core/src/chunk.rs:245-264 | A file's chunks come in byte order, each starting on or after the line the one before ends on. |
| `Extraction.UncoveredIsSpaceOrBraces` | lci-core/src/chunk.rs:245-264 | A byte of the ranges that is in no chunk is white space, a brace or a semicolon. |
| `Extraction.NoNamedByteIsLost` | lci-core/src/chunk.rs:241-264 | From tree to chunks: every byte of every named node below the root is in a chunk, or is white space, a brace or a semicolon. |
| `ChunkTexts.ChunksAreTheRangesTexts` | lci-core/src/chunk.rs:245-264 | One chunk for each range that holds more than white space, braces and semicolons, in order and no other: its path, language and hash, the range's text without the white space around it, and the lines that text stands on, counted from 1. |
| `Utf8.RoundTrip` | lci-core/src/node.rs:226-258 | Decoding the UTF-8 bytes of a string gives the string. |
| `PercentText.EncodeText` | lci-core/src/node.rs:226-239 | The loop escapes percent signs, control characters and the given set, byte by byte. |
| `PercentText.DecodeText` | lci-core/src/node.rs:243-258 | The loop over the bytes decodes, and refuses a cut escape, a non-number and bytes that are no UTF-8. |
| `PercentText.DecodeEncode` | lci-core/src/node.rs:224-258 | Decoding undoes encoding, whatever set was escaped. |
| `PercentText.SeparatorInEncoded` | lci-core/src/node.rs:212-239 | A separator is in the encoded text exactly when it is in the text and not escaped. |
| `NodeIdRoundTrip.ParsesBackExactly` | lci-core/src/node.rs:363-525 | The unchecked parser undoes printing if and only if the id is separable, for valid and invalid ids of all kinds. |
| `NodeIdRoundTrip.HasTwin` | lci-core/src/node.rs:363-437 | An id that is not separable prints as a different id does. |
| `NodeIdRoundTrip.ValidIsSeparable` | lci-core/src/node.rs:317-352 | Validation admits separable ids only. |
| `NodeIdRoundTrip.FromStrDisplay` | lci-core/src/node.rs:527-545 | Parsing the printed form of a valid id gives it back, for all eight kinds. |
| `NodeIdRoundTrip.AcceptsExactlyCanonicalForms` | lci-core/src/node.rs:527-545 | The accepted strings are exactly the printed forms of valid ids. |
| `NodeIdRoundTrip.DisplayInjective` | lci-core/src/node.rs:363-437 | Two valid ids, of any kinds, that print alike are the same id. |
| `NodeIdForms.PlainFiles` | lci-core/src/node.rs:212-239 | A path without percent signs, control characters, `@`, `#` and `~` is printed as it is after `file:` and, if it is a valid one, read back from there; a slash stays. |
| `NodeIdForms.FilesAsEscaped` | lci-core/src/node.rs:363-370 | Any path is printed with those characters escaped and no others. |
| `NodeIdForms.PlainChunks` | lci-core/src/node.rs:371-380 | So are the path and the hash of a chunk id, before `@`, `#` and the decimal ordinal; a hash also escapes `/` and `:`. |
| `NodeIdForms.PlainTexts` | lci-core/src/node.rs:221-223 | Test names and configuration keys are left as written but for percent signs and control characters. |
| `NodeIdForms.PlainSections` | lci-core/src/node.rs:363-437 | Section ids: path, `#`, headings joined by `/`, and the number of a repeated one. |
| `NodeIdForms.PlainSymbols` | lci-core/src/node.rs:214-220 | Symbol ids: language, `:`, the segments joined by `::`, the name with its kind; modules and names also escape spaces, containers do not. |
| `NodeIdForms.KindsAsWritten` | lci-core/src/node.rs:363-437 | The word for each of the fifteen symbol kinds. |
| `NodeIdForms.JoinedAsWritten` | lci-core/src/node.rs:363-437 | Segments and headings stand one after the other with the separator between. |
| `NodeIdForms.DecimalAsWritten` | lci-core/src/node.rs:363-437 | Ordinals are written in decimal without leading zeros. |
| `NodeIdForms.EscapesAsWritten` | lci-core/src/node.rs:226-239 | Each escaped byte is a percent sign and its two upper-case hexadecimal digits. |
| `NodeIdForms.EncodedIsClean` | lci-core/src/node.rs:224-239 | Encoded text holds no control character, and each percent sign in it is followed by two upper-case hexadecimal digits. |
| `NodeIdForms.BytesFollowTheTable` | lci-core/src/node.rs:230-236 | The bytes escaped are those of section 3 of RFC 3629. |
| `NodeIdForms.HashesAccepted` | lci-core/src/node.rs:317-352 | A commit id is accepted exactly with 40 or 64 lower-case hexadecimal digits, a literal's hash with 64. |
| `NodeIdForms.ValidFields` | lci-core/src/node.rs:317-352 | What validation asks of each field of the other kinds, and nothing else. |
| `ChunkIds.ChunkIdsOf` | lci-core/src/node.rs:595-621 | The sort of indices and the counting map give each chunk, as ordinal, the number of chunks of its path and hash that come before it by lines and then by position. |
| `ChunkIds.SortIndices` | lci-core/src/node.rs:596-606 | The indices end up sorted by path and lines, ties in list order, each once. |
| `ChunkIds.ManifestChunkIds` | lci-core/src/node.rs:624-631 | The ids of a manifest's files, file by file. |
| `ChunkIdFacts.IdsDistinct` | lci-core/src/node.rs:595-621 | No two chunks of a list share an id. |
| `ChunkIdFacts.IdCountsThoseBefore` | lci-core/src/node.rs:595-621 | A chunk's id is its path, its hash and how many of the same path and hash begin before it, or begin with it and end before it, or share its lines and come earlier in the list. |
| `ChunkIdFacts.OrdinalsAreDense` | lci-core/src/node.rs:595-621 | The ordinals of one path and hash are exactly 0 up to their number. |
| `ChunkIdFacts.OrderDoesNotMatter` | lci-core/src/node.rs:583-606 | In any order of the list a chunk keeps its id, when none of its group ties with it on lines. |
| `ChunkIdFacts.IdSetIgnoresOrder` | lci-core/src/node.rs:583-606 | The set of ids does not depend on the order of the list, ties or not. |
| `ChunkIdFacts.LineShiftKeepsIds` | lci-core/src/node.rs:583-606 | Moving chunks to other lines in the same order changes no id. |
| `ChunkIdFacts.InsertionKeepsIds` | lci-core/src/node.rs:583-606 | A chunk of another file or other content, inserted anywhere, changes no existing id. |
| `ChunkIdFacts.PerFileIdsAreSnapshotIds` | lci-core/src/node.rs:622-631 | Ids taken file by file are the ids of the whole snapshot. |
| `ExtractedIds.ExtractedOrdinalsFollowBytes` | lci-core/src/node.rs:595-621 | For each extracted file the chunks come sorted by start and end line and the ordinals of equal chunks follow their bytes, duplicates on one line included. |
| `StatGates.SourceHashes` | lci-core/src/chunk.rs:589-672 | A pass answers the fold of one visit after the other over the gate, listed by path with the columns of each file, and forgets the files it did not list; one that fails leaves the gate as the visits before left it. |
| `StatGates.WalkFiles` | lci-core/src/chunk.rs:597-666 | The loop over the walk, gate updated in place, is that fold, up to its end or the read that failed. |
| `StatGates.ListedByPath` | lci-core/src/chunk.rs:670 | The answer is sorted by path, and holds each hashed file once with its columns. |
| `StatGates.ListedColumns` | lci-core/src/chunk.rs:658-670 | Each file of the answer stands with the language and the adapter version of its path, in these columns, and with the hash and stamp of one hashed file; each hashed file has one entry. |
| `TextOrder.TextLessExactly` | lci-core/src/chunk.rs:670 | Paths are compared as strings are: at the first place where they differ the smaller one ends or has the smaller code point. |
| `StatGates.VisitIsItsEvents` | lci-core/src/chunk.rs:604-665 | Every turn of the loop, over files vanished, unreadable, gated, read, lost or failing, does to the gate, the answer and the counters what the run's events do, other events between stat and read allowed. |
| `StatPasses.PassAnswersHeldBytes` | lci-core/src/chunk.rs:589-672 | A whole gated pass whose visits are met along a run, with writes, deletions and re-creations between them and between stat and read, answers for each file the hash of the bytes it held at that visit, and fails exactly on a failed read. |
| `StatGates.GateNeverLies` | lci-core/src/chunk.rs:505-545 | Over every run of writes, deletions, re-creations and gated passes, finished or failed, with stamps no coarser than three seconds, each answered hash is that of the bytes the file held then. |
| `StatGates.SafeIffWindowCoversGranularity` | lci-core/src/chunk.rs:505-510 | That holds for every run if and only if stamps are no coarser than the window. |
| `StatGates.CoarserStampsLie` | lci-core/src/chunk.rs:505-510 | With coarser stamps some run answers a stale hash. |
| `StatGates.HonestAgrees` | lci-core/src/chunk.rs:615-619 | After any such run every entry a pass would trust for the files as they are holds their hash. |
| `StatGates.GatedPassIsUngatedPass` | lci-core/src/chunk.rs:589-672 | On files that stand still a gated pass answers what reading every file would, reads no more, and leaves an honest gate. |
| `StatAnswers.UngatedPassReadsAll` | lci-core/src/chunk.rs:589-672 | Without a gate every file that is there is read; the answer is the hash of its bytes under its stamp, files gone at their read are not listed, and the first failed read is the error. |
| `StatAnswers.SettledIsNotReadAgain` | lci-core/src/chunk.rs:612-646 | On files that stand still the pass after the first reads exactly those without a stamp or with one less than three seconds old when they were read. |
| `StatAnswers.GateForgetsUnmetFiles` | lci-core/src/chunk.rs:666-669 | A pass leaves entries of files it met alone, and one for every file that could be read. |
| `Fingerprints.MaterialInjective` | lci-core/src/chunk.rs:674-682 | Two lists of path, hash, language and version with the same fingerprint text are the same list, newlines in paths allowed. |
| `Scans.FingerprintWith` | lci-core/src/chunk.rs:691-698 | The fingerprint is the hash of the concatenated material. |
| `Scans.ScanIncremental` | lci-core/src/chunk.rs:713-782 | The loop over the files reuses an entry exactly when hash, language and adapter version agree, and fills chunks, files and counters as the fold says. |
| `ScanContents.ScanChunksAreParses` | lci-core/src/chunk.rs:743-771 | Over a sound cache a scan fails if and only if some file does not parse, and its chunks are those of the files' parses, all of them and no others. |
| `ScanContents.ScanChunksComeInOrder` | lci-core/src/chunk.rs:769-771 | They come by path and then by start line. |
| `ScanContents.ScanListsItsSources` | lci-core/src/chunk.rs:759-767 | Its files are exactly the source paths, each with the language, adapter version and hash of its source and the chunks of its parse. |
| `ScanContents.RemovedAreCounted` | lci-core/src/chunk.rs:730-733 | It counts the cached paths that no source has. |
| `ScanContents.StoredManifestsAreTaken` | lci-core/src/manifest.rs:39-53 | A current manifest is loaded whole if it is of version 2, of this workspace, and each file has its path's language and holds its own chunks, and counts as empty otherwise, as an absent or unparsable one does. |
| `ScanContents.SavedScansAreLoaded` | lci-core/src/manifest.rs:133-154 | What a scan saves, the next one loads. |
| `ScanContents.UnchangedIsNotParsedAgain` | lci-core/src/chunk.rs:744-757 | So while nothing changes the next scan parses nothing. |
| `ScanContents.SourcesAreTheAdaptersFiles` | lci-core/src/chunk.rs:330-362 | The sources are the files whose path has an adapter, prose ones only if asked for. |
| `ScanRuns.IncrementalEqualsFresh` | lci-core/src/chunk.rs:713-782 | Over a sound cache the scan gives the chunks, files and fingerprint of a scan from nothing, and parsed plus unchanged is the number of files. |
| `ScanRuns.AnyHistoryScansFresh` | lci-core/src/manifest.rs:133-154 | After every history of edits, prose flips, upgrades, first-format manifests, scans, killed scans, corruption and loss, the next scan equals one from nothing. |
| `ScanRuns.FirstFormatMigrates` | lci-core/src/manifest.rs:73-114 | A first-format manifest migrates whole, in workspaces of any languages, each entry becoming one of the first chunker. |
| `ScanRuns.LoadedSound` | lci-core/src/manifest.rs:39-114 | What loading or migrating a manifest accepts is sound for the current adapters. |
| `ScanRuns.RescanParsesOnlyChanges` | lci-core/src/chunk.rs:744-757 | A scan after a scan parses exactly the files that are new or have another text, language or version. |
| `ScanRuns.FingerprintIdentifiesSources` | lci-core/src/chunk.rs:674-698 | Fingerprints are equal if and only if paths, texts, languages and versions are. |
| `ScanRuns.SortChunksSorts` | lci-core/src/chunk.rs:769-771 | A scan's chunks are sorted by path and start line, none lost or doubled. |
| `ScanRuns.SortChunksStable` | lci-core/src/chunk.rs:769-771 | Chunks with the same path and start line keep the order they came in. |
| `Searches.FilteredHits` | src/store.rs:543-597 | One fetch gives the first passing rows with ranks from 1, an error if one of them has no finite distance, and the counts of rows and rejected prose. |
| `Searches.SearchWithin` | src/store.rs:483-538 | The loop ends and gives what the recursive widening gives; a missing vector column or another dimension is an error first. |
| `Searches.Search` | src/store.rs:435-459 | The plain search counts every row towards the cap. |
| `Searches.SearchCodeLane` | src/store.rs:461-481 | The code lane lets rejected prose rows raise the cap. |
| `SearchFacts.SearchIsFilteredRanking` | src/store.rs:483-538 | An uncapped answer is the first `limit` rows of the filtered ranking; a capped one is all that passes among the rows it names, and fewer than asked for. |
| `SearchFacts.SearchAnswers` | src/store.rs:483-538 | Hits, error and cap do not depend on the fetch schedule: they are said by looking at the counted rows up to the cap. |
| `SearchReports.HitsAreTheNearestPassing` | src/store.rs:543-597 | Whatever the count, the passing row with k passing rows before it is hit k, with rank k + 1, if there are that many hits. |
| `SearchReports.CapCountsTo` | src/store.rs:519-536 | A cap is reported at row 10240, or, when rejected prose is exempt, at the row by which 10240 others were read. |
| `SearchFacts.CodeLaneIsCodeOnlyIndex` | src/store.rs:461-538 | For every count that covers what could be returned, and every count at or past the row cap, the code lane over a mixed index gives the hits, ranks and error of the plain search over the index without its prose rows, and a cap exactly when that does. |
| `SearchLanes.LanesAgreeExactly` | src/store.rs:461-538 | Over all mixed rankings of n passing rows the two agree if and only if the count reaches the smaller of limit and n, or the row cap. |
| `SearchCounts.CountsExactly` | src/store.rs:423-431 | Over all rankings of n passing rows, uncapped answers are the filtered ranking if and only if the count reaches the smaller of limit and n, or exceeds the row cap. |
| `SearchCounts.CountPastTheCap` | src/store.rs:519-536 | A count past the cap never ends a search early, prose exempt or not. |
| `LegacyTables.RunsAreSafe` | src/store.rs:167-224 | In every interleaving of snapshots, releases, commits, failed drops and crashes: opened tables exist, pinned revisions are stored, and a writer holding the lock has no reader beside it. |
| `LegacyTables.SnapshotsKeepTheirRevision` | src/store.rs:182-184 | A live snapshot reads what its revision held when pinned, and a table opened under the legacy name exists while it is. |
| `LegacyTables.UncontendedCommitRemovesLegacy` | src/store.rs:405-421 | A commit takes the lock exactly when no legacy reader is there, and after its drop no later state has a legacy table. |
| `LegacyTables.UncontendedCommit` | src/store.rs:388-395 | A commit that nobody disturbs goes through every step with an index there throughout. |
| `LegacyTables.SnapshotsReadTheLastCommit` | src/store.rs:388-392 | In every run, a snapshot that pins the short table reads the rows of the last commit before it. |
| `LegacyTables.LegacySnapshotsReadWhatWasLeft` | src/store.rs:167-184 | One that pins the legacy table reads what an earlier version left there. |
| `LegacyTables.SnapshotsKeepTheirContent` | src/store.rs:182-184 | What a snapshot pinned it goes on reading until it is released, whatever is committed and dropped meanwhile. |
| `LegacyTables.IndexPersists` | src/store.rs:388-395 | Once there is an index there always is one. |
| `LegacyTables.NoIndexMeansMigrated` | src/store.rs:171-181 | A snapshot that finds none although there was one leaves the short table to be found. |
| `LegacyTables.MissesExactlyAcrossADrop` | src/store.rs:171-181 | Exactly when a snapshot begun with an index there finds none: the short table was missing at its first open, and the legacy one is dropped between its two opens. |
| `LegacyTables.CommitBetweenOpensHidesTheIndex` | src/store.rs:171-181 | And that does happen: a run of steps, with an index throughout, to a snapshot that finds none. |
| `CivilDates.YearOfEraFinds` | src/init.rs:581-585 | For a day of the era 0..146096 the year of the era is 0..399 and the day lies in that year. |
| `CivilDates.MarchYearFinds` | src/init.rs:580-585 | The day of the year is 0..365, and 365 only in a leap year. |
| `CivilDates.CivilIsCalendar` | src/init.rs:577-593 | For every day number the arithmetic gives the date reached by counting calendar days from 1970-01-01. |
| `CivilDates.CivilInRange` | src/init.rs:586-593 | The month is 1..12 and the day within that month's length. |
| `CivilDates.DayNumberInverts` | src/init.rs:577-593 | The inverse day count gives the day number back. |
| `CivilDates.PrintedShape` | src/init.rs:594 | Up to the year 9999 the text is four, two and two digits that read back as year, month and day. |
| `CivilDates.UtcDateIdentifiesDay` | src/init.rs:577-595 | A moment prints as its calendar date, the 64-bit conversion never falls back, and two moments print alike exactly on the same day. |
| `Identifiers.SplitIdentifier` | lci-core/src/lexical.rs:203-231 | The loop with its current part cuts at the positions the characters around them say. |
| `Identifiers.WordsKeepText` | lci-core/src/lexical.rs:203-231 | The parts hold every letter and digit of the identifier in order and nothing else; none is empty. |
| `Identifiers.WordsStartAtBoundaries` | lci-core/src/lexical.rs:200-231 | There is one part for each boundary (after another character, at a hump, between digit and letter), cut from there to the next. |
| `IdentifierWords.TurnsSplit` | lci-core/src/lexical.rs:215-221 | A capital after lower case, a capitalised word after capitals, and digits beside letters begin a word: parseConfig, HTTPServer and sha256 have two each. |
| `IdentifierWords.OneWordStays` | lci-core/src/lexical.rs:200-231 | Lower-case letters, capitals, digits, and a capital with lower-case letters are one word. |
| `IdentifierWords.SeparatorsSplit` | lci-core/src/lexical.rs:208-213 | Any other character separates words and is in none. |
| `QueryTerms.QueryTermsOf` | lci-core/src/lexical.rs:240-270 | Collecting unseen usable terms and keeping the longest by sort, cut and sort gives the terms of the query. |
| `QueryTerms.KeepLongest` | lci-core/src/lexical.rs:256-268 | Sorting indices by length, cutting to 24 and restoring the order keeps the longest, the earlier first among equals. |
| `QueryTerms.TermsAreTheLongestUsable` | lci-core/src/lexical.rs:232-270 | Terms are usable, lower-case, offered by the query, distinct and at most 24; a usable one is left out only if 24 are in, none of them shorter. |
| `QueryTerms.EquallyLongKeepTheEarlier` | lci-core/src/lexical.rs:256-268 | Of equally long terms the ones offered earlier are kept. |
| `QueryTerms.TermsKeepFirstSeenOrder` | lci-core/src/lexical.rs:232-239 | They come in the order the query first offers them. |
| `QueryTerms.TermsAreDetermined` | lci-core/src/lexical.rs:256-268 | The query determines its terms. |
| `QueryTerms.TermsCanBeCredited` | lci-core/src/lexical.rs:240-270 | Every such list fits a mask and meets what the matchers ask of it. |
| `QueryOffers.OfferedExactly` | lci-core/src/lexical.rs:240-253 | A query offers each of its tokens, and each word of one that is not all digits, in lower case, and nothing else. |
| `QueryOffers.TokensSplit` | lci-core/src/lexical.rs:173-177 | Tokens are the runs of letters, digits, underscores and hashes. |
| `QueryOffers.HashesGo` | lci-core/src/lexical.rs:176 | Hashes go from both ends of a token and from nowhere else. |
| `TermMatching.CreditAscii` | lci-core/src/lexical.rs:325-354 | Bit i is set exactly when the byte matcher finds term i somewhere on the line. |
| `TermMatching.CreditUnicode` | lci-core/src/lexical.rs:356-384 | Bit i is set exactly when the character matcher finds term i somewhere on the line. |
| `TermMatching.Credit` | lci-core/src/lexical.rs:317-323 | Whichever matcher is chosen, the mask is the character matcher's. |
| `TermMatching.AsciiLineCreditsAgree` | lci-core/src/lexical.rs:288-296 | On an ASCII line both matchers credit a lower-case term alike, the whole-word rule for at most four characters included. |
| `TermMatching.AgreeExactlyOnLowercase` | lci-core/src/lexical.rs:288-296 | They agree on every ASCII line if and only if the term is lower-case. |
| `LineMatches.CreditsExactly` | lci-core/src/lexical.rs:288-296 | A line is credited if and only if it can be cut before and after the term in some case, a term of at most four characters standing as a word or before a capital. |
| `LineMatches.FoldsAscii` | lci-core/src/lexical.rs:272-278 | On ASCII the fold moves the 26 capitals and nothing else. |
| `Scoring.DocumentFrequencies` | lci-core/src/lexical.rs:802-816 | Or-ing masks per file and counting bits gives the number of distinct files each term is credited in. |
| `Scoring.SelectTerms` | lci-core/src/lexical.rs:830-845 | At most twelve eligible terms, rarest first, and no eligible term left out is rarer. |
| `ChunkScoring.SelectionUnique` | lci-core/src/lexical.rs:830-845 | That determines the selection. |
| `ScoreFormulas.EligibleAreRare` | lci-core/src/lexical.rs:830-845 | Eligible are the terms some file has and at most a quarter of the files do, or all that some file has if none is so rare; twelve of them score, or all if there are fewer. |
| `ScoreFormulas.CountsLines` | lci-core/src/lexical.rs:888-901 | A term counts in a chunk once for each of its lines credited with it. |
| `ScoreFormulas.CountsScoringLines` | lci-core/src/lexical.rs:888-901 | A line is credited once, however many scoring terms it has. |
| `ScoreFormulas.AverageIsTheMean` | lci-core/src/lexical.rs:870-886 | The average length is the mean of the lengths, none below one, or one without chunks. |
| `ScoreFormulas.LengthOfChunk` | lci-core/src/lexical.rs:908-910 | A chunk past the known lengths has the average one; no length is below one. |
| `Bm25.RisesWithCount` | lci-core/src/lexical.rs:850-854 | A term score strictly rises with the line count. |
| `Bm25.FallsWithLength` | lci-core/src/lexical.rs:850-854 | It strictly falls with the chunk's length. |
| `Bm25.StaysBelowSaturation` | lci-core/src/lexical.rs:850-854 | It stays below idf times 2.2. |
| `ScoreFormulas.TermScoreMultipliedOut` | lci-core/src/lexical.rs:850-854 | The score satisfies the BM25 equation with 1.2 and 0.75, multiplied out. |
| `ScoreFormulas.OneLineScoresTheWeight` | lci-core/src/lexical.rs:850-854 | One line in a chunk of average length scores the term's weight. |
| `ScoreFormulas.ScoresAddUp` | lci-core/src/lexical.rs:902-920 | A chunk's score is the sum over the scoring terms, each by its own count in the chunk. |
| `ScoreFormulas.WeightIsLogOfQuotient` | lci-core/src/lexical.rs:818-823 | The weight is the logarithm of the files and one more over the term's files and a half. |
| `Bm25.WeightPositive` | lci-core/src/lexical.rs:818-823 | The weight is positive if and only if the frequency is at most the number of files. |
| `Bm25.RarerWeighsMore` | lci-core/src/lexical.rs:818-823 | A rarer term weighs more. |
| `ChunkScoring.Gather` | lci-core/src/lexical.rs:888-901 | The pass keeps evidence for exactly the chunks with a scoring line, with the true count of each scoring term. |
| `ChunkScoring.ScoreChunks` | lci-core/src/lexical.rs:864-926 | The answer holds each chunk with a scoring line once, with the sum of its terms' scores at the counts of the naive definition, sorted by score and then index. |
| `ScoreFormulas.AnswersByScore` | lci-core/src/lexical.rs:921-926 | Higher scores come first, lower chunk indices among equal ones. |
| `ChunkScoring.ScoreChunksIgnoresLineOrder` | lci-core/src/lexical.rs:864-926 | The answer depends on which lines are credited, not on their order. |
| `ReverseBfs.Search` | lci-maps/examples/entry_check.rs:35-52 | Every node gets the length of its shortest forward path to the target, or the sentinel exactly when it has none, and parents lie one step nearer. |
| `ReverseBfs.Expand` | lci-maps/examples/entry_check.rs:43-49 | Expanding a node keeps the search invariant and leaves it finished. |
| `ReverseBfs.Chain` | lci-maps/examples/entry_check.rs:148-153 | Following parents from a reached node takes real edges and ends at the target after exactly its distance. |
| `ReverseBfs.Closure` | lci-maps/examples/entry_check.rs:188 | The count of reached nodes within a distance. |
| `ReverseBfs.ClosureMeansPaths` | lci-maps/examples/entry_check.rs:188 | After a search those are exactly the nodes with a path of at most that many edges. |
| `Bundles.NamesAreTellable` | lci-core/src/bundle.rs:102-107 | Bundle files and temporary files of the store are never taken for each other. |
| `Bundles.DoomedBundles` | lci-core/src/bundle.rs:200-252 | A pass dooms a bundle's file exactly when no kept key shares its digest; so never a kept key's. |
| `BundlePlaces.LookupExactly` | lci-core/src/bundle.rs:109-137 | A lookup fails exactly on a file that is there and cannot be read, and finds exactly a bundle of format 1 for the key. |
| `BundlePlaces.MaterialTellsKeysApart` | lci-core/src/bundle.rs:55-61 | What is hashed for a place tells keys apart when no field but the last holds a NUL. |
| `BundlePlaces.PlaceSpellsTheDigest` | lci-core/src/bundle.rs:102-107 | Two digits of the hash name the directory and thirty the file. |
| `BundlePlaces.TemporariesGoAfterAnHour` | lci-core/src/bundle.rs:200-252 | A temporary file is doomed exactly when it is more than an hour old, whatever is kept. |
| `BundlePlaces.OnlyTheStoresFilesGo` | lci-core/src/bundle.rs:200-256 | Doomed are only temporary files over an hour old and files named as bundles whose place is not kept, in directories named by two digits; foreign files stay. |
| `Bundles.BundleStore.Get` | lci-core/src/bundle.rs:113-137 | The payload of a readable file that parses, in this format, for this very key; nothing for any other; an error for an unreadable one. |
| `Bundles.BundleStore.Put` | lci-core/src/bundle.rs:147-190 | The step-by-step put leaves the files and the answer of its specification, for every step that may fail: directory, write, either rename, clearing, tidying. |
| `Bundles.PutMeans` | lci-core/src/bundle.rs:139-190 | When a put succeeds, what it leaves readable, that a bundle of the key is only ever replaced by its own, and that nothing but its two files changes. |
| `Bundles.BundleStore.Retain` | lci-core/src/bundle.rs:200-256 | It deletes only doomed files, all but stuck temporaries when it ends well, counts them, leaves every kept key's file, and stops at a stuck or vanished bundle or a directory it cannot list. |
| `BundleRuns.RunsAreSafe` | lci-core/src/bundle.rs:139-190 | In every interleaving files hold only bundles written whole, and a put's temporary file holds a prefix of its bytes until it is renamed. |
| `BundleRuns.GetsAreGenuine` | lci-core/src/bundle.rs:109-137 | With puts, retains, killed writers, foreign files and colliding digests interleaved, a get finds nothing or a payload some put wrote out whole for exactly its key. |
| `BundleRuns.SuccessMeansInPlace` | lci-core/src/bundle.rs:139-190 | A put reports success only if, at that step, a bundle of its key is in place. |
| `BundleRuns.SweepsSpareKept` | lci-core/src/bundle.rs:200-256 | A deletion by a retain changes nothing a get of a kept key sees. |
| `BundleRuns.BundlesStay` | lci-core/src/bundle.rs:139-256 | In every run a bundle in place that no put threatens stays readable through every later step that keeps its key and brings in no colliding one. |
| `BundleRuns.StaysExactlyUnthreatened` | lci-core/src/bundle.rs:139-256 | From every state, a bundle stays readable through all continuations if and only if no put is in one of the named stages at its place. |
| `BundleRuns.ThreatsAreCarriedOut` | lci-core/src/bundle.rs:165-181 | From each of those stages the put alone can go on to lose the bundle. |
| `BundleRuns.StaleLookHappens` | lci-core/src/bundle.rs:165-181 | Without the first condition it does not: two puts of one key can end with the key's file missing. |
| `BundleCalls.PutIsItsEvents` | lci-core/src/bundle.rs:147-190 | Every undisturbed put, whatever fails in it, is a run of the shared directory's events with the same files and the same answer. |
| `BundleCalls.RetainIsItsSweeps` | lci-core/src/bundle.rs:200-256 | What an undisturbed retain deletes is a run of as many sweeps with its keys. |
| `Catalogs.FindCommentEnd` | lci-core/src/language.rs:522-528 | The first `-->` is found. |
| `Catalogs.SkipDoctype` | lci-core/src/language.rs:552-577 | The scan with quote and depth ends after the closing bracket outside quotes and internal subsets. |
| `Catalogs.CatalogStart` | lci-core/src/language.rs:517-550 | The loop over comments and document types decides what the recursive rule says. |
| `CatalogRoots.RootsBeginCatalogs` | lci-core/src/language.rs:536-550 | After white space an XML declaration begins a catalog, and so does a `TS` tag with white space, a name and an equals sign. |
| `CatalogRoots.OnlyRootsBeginCatalogs` | lci-core/src/language.rs:536-550 | After comments and document types nothing else does. |
| `CatalogRoots.CommentsAreSkipped` | lci-core/src/language.rs:520-528 | A comment before a text changes nothing. |
| `CatalogRoots.DoctypesAreSkipped` | lci-core/src/language.rs:552-577 | Nor does a document type without quotes or brackets. |
| `Catalogs.RecognitionIsMonotone` | lci-core/src/language.rs:512-550 | Once a prefix of a text is recognised, every continuation of it is. |
| `Catalogs.MarkedUtf16` | lci-core/src/language.rs:484-510 | ASCII text in UTF-16, in either byte order, is recognised exactly when its first 512 characters after white space are. |
| `CatalogRoots.MarkedUtf8` | lci-core/src/language.rs:484-492 | The byte order mark of UTF-8 before a text changes nothing. |
| `Catalogs.EncodingsAgree` | lci-core/src/language.rs:463-510 | Recognition in UTF-16 implies recognition in UTF-8, and equals it when the trimmed text fits in 512 units. |
| `Catalogs.ByteOrdersAgree` | lci-core/src/language.rs:484-510 | Both byte orders are recognised alike. |
| `Catalogs.LongCommentsHideUtf16` | lci-core/src/language.rs:463-468 | A leading comment of 508 characters or more hides a catalog in UTF-16 and not in UTF-8. |

## Left out

- Tree-sitter parsing and grammars: a tree is any well-formed input; the per-language kind tables are predicates of an adapter.
- The Markdown splitter and the Rust declaration extractor: other code paths than the chunker modelled here.
- Byte offsets: source text is a sequence of characters, so offsets count characters where the program counts bytes; the 32-bit casts of line numbers are not modelled.
- Zero-width named nodes: excluded from the tiling of nonempty ranges, from the rules of where ranges end and from chunk coverage; `RangeGaps` and `RangeFronts` say exactly when ranges have gaps or begin late.
- SHA-256: a function parameter; theorems that need it collision-free say `HashInjective`, and the bundle store is proved with collisions.
- Directory walking, ignore files and real file access: a walk is the list of what each stat and read gave.
- StatGates.SourceHashes: an error of the directory walk itself is not a visit; it ends a pass as a failed read does.
- The process-wide map of stat gates: one gate per root is assumed.
- StatGates.GateNeverLies: reading one file and sampling the clock is one step, as the program samples after the read; stamps lag the clock by less than the granularity.
- Lossy and skipped files of a scan: not listed; they do not reach chunks or counters.
- LanceDB and Arrow: a table is a ranked list of rows with immutable revisions, and record batches are concatenated.
- Fields of a hit besides its chunk and rank, and the role classification: the filter is a predicate of the chunk.
- SearchFacts.CodeLaneIsCodeOnlyIndex: the row cap is at least the first fetch, as the program's constants have it.
- The check of the stored workspace path, the metadata of a snapshot and more than one `Store`: the lock modelled is the one a `Store` shares among its own snapshots and commits.
- Floating point: BM25 scores are reals and the logarithm an increasing function that is positive exactly above one; comparing with a quarter of the files is exact.
- The std sorts: modelled as insertion sorts with the same order and stability; `sort_unstable` of distinct indices as a walk over them in order.
- Masks: a 32-bit word is the sequence of its bits; `|`, `&` and `1 << i` are defined bit by bit.
- The iteration order of hash maps: loops over them pick any element next.
- The stop-word list, Unicode tables and lower-casing of whole texts: parameters; `terms` for language servers.
- ReverseBfs.Search: graphs of fewer than 2^32 - 1 nodes, as the distances are 32-bit.
- The choice of the best site and the report of the entry check: plumbing over the chains modelled here.
- Decoding a bundle's payload as a caller's type: payloads are JSON values, and a payload that is none of the caller's type counts as unparsable.
- Bundles.BundleStore.Retain: a directory that cannot be listed is met only if it holds files, and the store's root can always be listed.
- BundleRuns.GetsAreGenuine: process kills, not power loss; two live writers never share a process id and counter.
- Ordering, serde and the constructors of node ids: they go through the printer, parser and validator modelled here.
- ripgrep, JSON parsing, HTTP and protocol servers, the command line, configuration checks: not modelled.
