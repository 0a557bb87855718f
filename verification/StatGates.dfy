/** The stat gate of lci-core/src/chunk.rs: hashes of unread files, trusted by their stamps. */
module StatGates {
  import opened Wrappers
  import opened TextOrder

  /** Milliseconds. A stamp younger than this when the file is read is not kept. */
  const RACY_WINDOW := 3000

  type Content = string

  /** What reading one file's bytes gives: its content hash, or nothing for a known non-source
      format. It depends on the path too, which picks the language. */
  type Digest = (string, Content) -> Option<string>

  datatype GateEntry = GateEntry(modified: Option<int>, len: nat, hash: Option<string>)

  datatype Stat = Stamp(modified: Option<int>, len: nat) | Vanished | Unreadable

  datatype ReadBytes = Bytes(content: Content) | Gone | Failed

  /** One walked file as the pass meets it: its stat, what a read right after gives, and the clock
      sampled after that read. */
  datatype Visit = Visit(path: string, stat: Stat, read: ReadBytes, now: int)

  datatype Hashed = Hashed(path: string, hash: string, modified: Option<int>)

  datatype Pass = Pass(
    entries: map<string, GateEntry>, listed: set<string>, files: seq<Hashed>, readFiles: nat, listedFiles: int)

  function Modified(v: Visit): Option<int> {
    if v.stat.Stamp? then v.stat.modified else None
  }

  function Length(v: Visit): nat {
    if v.stat.Stamp? then v.stat.len else 0
  }

  predicate Hits(entries: map<string, GateEntry>, path: string, modified: Option<int>, len: nat) {
    path in entries && modified.Some? && entries[path].modified == modified && entries[path].len == len
  }

  /** The stamp is old enough at `now` to be kept. */
  predicate Settled(modified: Option<int>, now: int) {
    modified.Some? && now - modified.value >= RACY_WINDOW
  }

  function Recorded(p: Pass, gated: bool, path: string, modified: Option<int>, trusted: bool, len: nat,
    hash: Option<string>): Pass
  {
    var entry := GateEntry(if trusted then modified else None, len, hash);
    var p' := if gated then p.(entries := p.entries[path := entry], listed := p.listed + {path}) else p;
    if hash.Some? then p'.(files := p'.files + [Hashed(path, hash.value, modified)]) else p'
  }

  /** One turn of the walk; an error is a read that failed. */
  function VisitFile(digest: Digest, p: Pass, gated: bool, v: Visit): Result<Pass, string> {
    if v.stat.Vanished? then Ok(p)
    else
      var modified, len := Modified(v), Length(v);
      var p1 := p.(listedFiles := p.listedFiles + 1);
      if gated && Hits(p.entries, v.path, modified, len) then
        Ok(Recorded(p1, gated, v.path, modified, true, len, p.entries[v.path].hash))
      else
        var p2 := p1.(readFiles := p1.readFiles + 1);
        match v.read
        case Gone => Ok(p2.(listedFiles := p2.listedFiles - 1))
        case Failed => Err(v.path)
        case Bytes(content) =>
          Ok(Recorded(p2, gated, v.path, modified, Settled(modified, v.now), len, digest(v.path, content)))
  }

  function VisitAll(digest: Digest, p: Pass, gated: bool, visits: seq<Visit>): Result<Pass, string>
    decreases |visits|
  {
    if visits == [] then Ok(p)
    else
      match VisitFile(digest, p, gated, visits[0])
      case Err(e) => Err(e)
      case Ok(p') => VisitAll(digest, p', gated, visits[1..])
  }

  function Retained(entries: map<string, GateEntry>, listed: set<string>): map<string, GateEntry> {
    map path <- entries | path in listed :: entries[path]
  }

  function Begin(entries: map<string, GateEntry>): Pass {
    Pass(entries, {}, [], 0, 0)
  }

  // ---------------------------------------------------------------- the procedure

  class StatGate {
    var entries: map<string, GateEntry>

    constructor ()
      ensures entries == map[]
    {
      entries := map[];
    }
  }

  /** The pass up to the end of the walk or the read that failed. */
  function Reached(digest: Digest, p: Pass, gated: bool, visits: seq<Visit>): Pass
    decreases |visits|
  {
    if visits == [] then p
    else
      match VisitFile(digest, p, gated, visits[0])
      case Err(_) => p
      case Ok(p') => Reached(digest, p', gated, visits[1..])
  }

  datatype HashedSource = HashedSource(
    relative: string, language: string, adapterVersion: string, contentHash: string, modified: Option<int>)

  /** The language and adapter version a path is read with. */
  type Adapters = string -> (string, string)

  datatype SourceHashList = SourceHashList(files: seq<HashedSource>, listedFiles: int, readFiles: nat)

  function Source(adapters: Adapters, h: Hashed): HashedSource {
    var (language, version) := adapters(h.path);
    HashedSource(h.path, language, version, h.hash, h.modified)
  }

  function Insert(f: HashedSource, fs: seq<HashedSource>): seq<HashedSource> {
    if fs == [] || TextLess(f.relative, fs[0].relative) then [f] + fs else [fs[0]] + Insert(f, fs[1..])
  }

  /** The hashed files sorted by path. */
  function Listed(adapters: Adapters, hs: seq<Hashed>): seq<HashedSource> {
    if hs == [] then [] else Insert(Source(adapters, hs[|hs| - 1]), Listed(adapters, hs[..|hs| - 1]))
  }

  /** The hashes of the walked files. With no gate every file is read. A read that fails ends the pass with an
      error and leaves the entries of the files before it in the gate, none forgotten. */
  method SourceHashes(digest: Digest, adapters: Adapters, gate: StatGate?, visits: seq<Visit>)
    returns (r: Result<SourceHashList, string>)
    modifies gate
    ensures var start := Begin(if gate != null then old(gate.entries) else map[]);
            match VisitAll(digest, start, gate != null, visits)
            case Err(path) =>
              r == Err(path) && (gate != null ==> gate.entries == Reached(digest, start, true, visits).entries)
            case Ok(p) =>
              && r == Ok(SourceHashList(Listed(adapters, p.files), p.listedFiles, p.readFiles))
              && (gate != null ==> gate.entries == Retained(p.entries, p.listed))
              && ColumnsOf(adapters, r.value.files, p.files)
  {
    var p := WalkFiles(digest, gate, visits);
    if p.Err? { return Err(p.error); }
    if gate != null { gate.entries := Retained(p.value.entries, p.value.listed); }
    var files := SortFiles(adapters, p.value.files);
    ListedColumns(adapters, p.value.files);
    r := Ok(SourceHashList(files, p.value.listedFiles, p.value.readFiles));
  }

  method SortFiles(adapters: Adapters, hs: seq<Hashed>) returns (files: seq<HashedSource>)
    ensures files == Listed(adapters, hs)
  {
    files := [];
    for i := 0 to |hs|
      invariant files == Listed(adapters, hs[..i])
    {
      assert hs[..i + 1][..i] == hs[..i];
      files := Insert(Source(adapters, hs[i]), files);
    }
    assert hs[..|hs|] == hs;
  }

  /** The loop over the walk. */
  method WalkFiles(digest: Digest, gate: StatGate?, visits: seq<Visit>) returns (r: Result<Pass, string>)
    modifies gate
    ensures r == VisitAll(digest, Begin(if gate != null then old(gate.entries) else map[]), gate != null, visits)
    ensures gate != null ==> gate.entries == Reached(digest, Begin(old(gate.entries)), true, visits).entries
    ensures gate != null && r.Ok? ==> gate.entries == r.value.entries
  {
    var gated := gate != null;
    var p := Begin(if gated then gate.entries else map[]);
    for i := 0 to |visits|
      invariant VisitAll(digest, Begin(if gated then old(gate.entries) else map[]), gated, visits)
             == VisitAll(digest, p, gated, visits[i..])
      invariant gated ==> gate.entries == p.entries
      invariant gated ==> Reached(digest, Begin(old(gate.entries)), true, visits) == Reached(digest, p, true, visits[i..])
    {
      var v := visits[i];
      assert visits[i..][0] == v && visits[i..][1..] == visits[i + 1..];
      if v.stat.Vanished? { continue; }
      var modified, len := Modified(v), Length(v);
      ghost var before := p;
      p := p.(listedFiles := p.listedFiles + 1);
      var trusted, hash := true, None;
      if gated && Hits(gate.entries, v.path, modified, len) {
        hash := gate.entries[v.path].hash;
      } else {
        p := p.(readFiles := p.readFiles + 1);
        match v.read {
          case Gone =>
            p := p.(listedFiles := p.listedFiles - 1);
            continue;
          case Failed =>
            assert VisitFile(digest, before, gated, v) == Err(v.path);
            return Err(v.path);
          case Bytes(content) =>
            hash := digest(v.path, content);
            trusted := Settled(modified, v.now);
        }
      }
      p := Recorded(p, gated, v.path, modified, trusted, len, hash);
      if gated { gate.entries := p.entries; }
    }
    r := Ok(p);
  }

  // ---------------------------------------------------------------- the order of the answer

  ghost predicate InPathOrder(fs: seq<HashedSource>) {
    forall i, j :: 0 <= i < j < |fs| ==> !TextLess(fs[j].relative, fs[i].relative)
  }

  lemma NotLessTransitive(s: string, t: string, u: string)
    requires !TextLess(t, s) && !TextLess(u, t)
    ensures !TextLess(u, s)
  {
    TextLessTotal(s, t);
    TextLessTotal(t, u);
    TextLessTotal(s, u);
    if TextLess(s, t) && TextLess(t, u) { TextLessTransitive(s, t, u); }
  }

  lemma {:induction false} InsertKeepsAll(f: HashedSource, fs: seq<HashedSource>)
    ensures multiset(Insert(f, fs)) == multiset(fs) + multiset{f}
  {
    if fs != [] {
      assert fs == [fs[0]] + fs[1..];
      if !TextLess(f.relative, fs[0].relative) { InsertKeepsAll(f, fs[1..]); }
    }
  }

  lemma InsertMembers(f: HashedSource, fs: seq<HashedSource>)
    ensures forall x :: x in Insert(f, fs) <==> x in fs || x == f
  {
    InsertKeepsAll(f, fs);
    assert forall x :: x in Insert(f, fs) <==> x in multiset(Insert(f, fs));
  }

  lemma {:induction false} InsertSorts(f: HashedSource, fs: seq<HashedSource>)
    requires InPathOrder(fs)
    ensures InPathOrder(Insert(f, fs))
  {
    if fs == [] {
    } else if TextLess(f.relative, fs[0].relative) {
      TextLessTotal(f.relative, fs[0].relative);
      TextLessTotal(fs[0].relative, fs[0].relative);
      forall j | 0 <= j < |fs|
        ensures !TextLess(fs[j].relative, f.relative)
      {
        NotLessTransitive(f.relative, fs[0].relative, fs[j].relative);
      }
    } else {
      InsertSorts(f, fs[1..]);
      InsertMembers(f, fs[1..]);
      forall x <- Insert(f, fs[1..])
        ensures !TextLess(x.relative, fs[0].relative)
      {
      }
    }
  }

  function Sources(adapters: Adapters, hs: seq<Hashed>): seq<HashedSource> {
    seq(|hs|, i requires 0 <= i < |hs| => Source(adapters, hs[i]))
  }

  lemma LastSource(adapters: Adapters, hs: seq<Hashed>)
    requires hs != []
    ensures multiset(Sources(adapters, hs))
         == multiset(Sources(adapters, hs[..|hs| - 1])) + multiset{Source(adapters, hs[|hs| - 1])}
  {
    assert Sources(adapters, hs) == Sources(adapters, hs[..|hs| - 1]) + [Source(adapters, hs[|hs| - 1])];
  }

  /** The hashed file an entry is for. */
  function HashedOf(fs: seq<HashedSource>): seq<Hashed> {
    seq(|fs|, i requires 0 <= i < |fs| => Hashed(fs[i].relative, fs[i].contentHash, fs[i].modified))
  }

  /** Every file of an answer stands with its path's language and adapter version, and with the hash and the
      stamp of the one hashed file it is for; no hashed file is lost or doubled. */
  ghost predicate ColumnsOf(adapters: Adapters, fs: seq<HashedSource>, hs: seq<Hashed>) {
    && (forall f <- fs :: f.language == adapters(f.relative).0 && f.adapterVersion == adapters(f.relative).1)
    && |fs| == |hs|
    && multiset(HashedOf(fs)) == multiset(hs)
  }

  lemma {:induction false} InsertColumns(f: HashedSource, fs: seq<HashedSource>)
    ensures |Insert(f, fs)| == |fs| + 1
    ensures multiset(HashedOf(Insert(f, fs)))
         == multiset(HashedOf(fs)) + multiset{Hashed(f.relative, f.contentHash, f.modified)}
  {
    var h := Hashed(f.relative, f.contentHash, f.modified);
    if fs == [] || TextLess(f.relative, fs[0].relative) {
      assert HashedOf([f] + fs) == [h] + HashedOf(fs);
    } else {
      InsertColumns(f, fs[1..]);
      var first := HashedOf(fs)[0];
      assert HashedOf(fs) == [first] + HashedOf(fs[1..]);
      assert HashedOf([fs[0]] + Insert(f, fs[1..])) == [first] + HashedOf(Insert(f, fs[1..]));
    }
  }

  lemma {:induction false} ListedColumns(adapters: Adapters, hs: seq<Hashed>)
    ensures ColumnsOf(adapters, Listed(adapters, hs), hs)
  {
    if hs != [] {
      var front, last := hs[..|hs| - 1], hs[|hs| - 1];
      ListedColumns(adapters, front);
      assert hs == front + [last];
      InsertMembers(Source(adapters, last), Listed(adapters, front));
      InsertColumns(Source(adapters, last), Listed(adapters, front));
    }
  }

  /** The answer lists the hashed files by path, each with its columns, none lost or doubled. */
  lemma {:induction false} ListedByPath(adapters: Adapters, hs: seq<Hashed>)
    ensures InPathOrder(Listed(adapters, hs))
    ensures multiset(Listed(adapters, hs)) == multiset(Sources(adapters, hs))
  {
    if hs != [] {
      ListedByPath(adapters, hs[..|hs| - 1]);
      InsertSorts(Source(adapters, hs[|hs| - 1]), Listed(adapters, hs[..|hs| - 1]));
      InsertKeepsAll(Source(adapters, hs[|hs| - 1]), Listed(adapters, hs[..|hs| - 1]));
      LastSource(adapters, hs);
    }
  }

  // ---------------------------------------------------------------- runs

  datatype File = File(content: Content, modified: Option<int>)

  /** A file the running pass has statted and is about to read. */
  datatype Pending = Pending(path: string, modified: Option<int>, len: nat)

  /** What a pass answered for a file, with the bytes the file held at that moment. */
  datatype Answer = Answer(path: string, hash: Option<string>, actual: Content)

  datatype World = World(
    files: map<string, File>, clock: int, entries: map<string, GateEntry>,
    listed: set<string>, pending: Option<Pending>, answers: seq<Answer>)

  datatype Event =
    | Tick(to: int)
    | Write(path: string, content: Content, stamp: Option<int>)
    | Delete(path: string)
    | StatFile(path: string)
    | StatUnreadable(path: string)
    | ReadAndSampleClock
    | LosePending
    | EndPass
    | FailPass

  /** The clock never goes back; a write stamps a time less than `granularity` behind the clock. */
  ghost predicate Allowed(granularity: int, w: World, e: Event) {
    match e
    case Tick(to) => w.clock <= to
    case Write(_, _, stamp) => stamp.Some? ==> w.clock - stamp.value < granularity
    case Delete(path) => path in w.files
    case StatFile(path) => w.pending == None && path in w.files
    case StatUnreadable(path) => w.pending == None
    case ReadAndSampleClock => w.pending.Some? && w.pending.value.path in w.files
    case LosePending => w.pending.Some?
    case EndPass => w.pending == None
    case FailPass => true
  }

  function Keep(w: World, path: string, entry: GateEntry, actual: Content): World {
    w.(entries := w.entries[path := entry], listed := w.listed + {path}, pending := None,
       answers := w.answers + [Answer(path, entry.hash, actual)])
  }

  function Next(digest: Digest, granularity: int, w: World, e: Event): World
    requires Allowed(granularity, w, e)
  {
    match e
    case Tick(to) => w.(clock := to)
    case Write(path, content, stamp) => w.(files := w.files[path := File(content, stamp)])
    case Delete(path) => w.(files := w.files - {path})
    case StatFile(path) =>
      var f := w.files[path];
      if Hits(w.entries, path, f.modified, |f.content|) then
        Keep(w, path, w.entries[path].(modified := f.modified, len := |f.content|), f.content)
      else w.(pending := Some(Pending(path, f.modified, |f.content|)))
    case StatUnreadable(path) => w.(pending := Some(Pending(path, None, 0)))
    case ReadAndSampleClock =>
      var s := w.pending.value;
      var content := w.files[s.path].content;
      var modified := if Settled(s.modified, w.clock) then s.modified else None;
      Keep(w, s.path, GateEntry(modified, s.len, digest(s.path, content)), content)
    case LosePending => w.(pending := None)
    case EndPass => w.(entries := Retained(w.entries, w.listed), listed := {})
    case FailPass => w.(listed := {}, pending := None)
  }

  function Start(clock: int): World {
    World(map[], clock, map[], {}, None, [])
  }

  ghost predicate Run(digest: Digest, granularity: int, ws: seq<World>, es: seq<Event>) {
    && |ws| == |es| + 1 && ws[0] == Start(ws[0].clock)
    && forall i :: 0 <= i < |es| ==>
         Allowed(granularity, ws[i], es[i]) && ws[i + 1] == Next(digest, granularity, ws[i], es[i])
  }

  /** A kept stamp is older than any stamp a later write can leave, and while the file still bears
      it the kept hash is the hash of the file's bytes. */
  ghost predicate EntryHonest(digest: Digest, w: World, path: string)
    requires path in w.entries
  {
    var e := w.entries[path];
    e.modified.Some? ==>
      && Settled(e.modified, w.clock)
      && (path in w.files && w.files[path].modified == e.modified && |w.files[path].content| == e.len ==>
            digest(path, w.files[path].content) == e.hash)
  }

  ghost predicate Honest(digest: Digest, w: World) {
    && (forall path <- w.entries :: EntryHonest(digest, w, path))
    && (forall a <- w.answers :: a.hash == digest(a.path, a.actual))
  }

  lemma StepKeepsHonest(digest: Digest, granularity: int, w: World, e: Event)
    requires granularity <= RACY_WINDOW && Honest(digest, w) && Allowed(granularity, w, e)
    ensures Honest(digest, Next(digest, granularity, w, e))
  {
  }

  /** Over every run of writes, deletions, re-creations and gated passes, each hash a pass answers,
      for a file it read or did not read, is the hash of the bytes the file held at that moment. */
  lemma {:induction false} GateNeverLies(digest: Digest, granularity: int, ws: seq<World>, es: seq<Event>, i: nat)
    requires granularity <= RACY_WINDOW && Run(digest, granularity, ws, es) && i < |ws|
    ensures Honest(digest, ws[i])
  {
    if i > 0 {
      GateNeverLies(digest, granularity, ws, es, i - 1);
      StepKeepsHonest(digest, granularity, ws[i - 1], es[i - 1]);
    }
  }

  lemma Then(digest: Digest, granularity: int, ws: seq<World>, es: seq<Event>, e: Event)
    returns (ws': seq<World>, es': seq<Event>)
    requires Run(digest, granularity, ws, es) && Allowed(granularity, ws[|es|], e)
    ensures Run(digest, granularity, ws', es') && ws'[|es'|] == Next(digest, granularity, ws[|es|], e)
  {
    ws', es' := ws + [Next(digest, granularity, ws[|es|], e)], es + [e];
  }

  /** The window is exactly as wide as it must be: one unit coarser and some run answers a stale hash. */
  lemma CoarserStampsLie(granularity: int)
    requires granularity > RACY_WINDOW
    ensures exists digest: Digest, ws: seq<World>, es: seq<Event> ::
              Run(digest, granularity, ws, es) && !Honest(digest, ws[|es|])
  {
    var digest: Digest := (path, content) => Some(content);
    var ws, es := Then(digest, granularity, [Start(0)], [], Write("f", "a", Some(0)));
    ws, es := Then(digest, granularity, ws, es, Tick(RACY_WINDOW));
    ws, es := Then(digest, granularity, ws, es, StatFile("f"));
    ws, es := Then(digest, granularity, ws, es, ReadAndSampleClock);
    ws, es := Then(digest, granularity, ws, es, Write("f", "b", Some(0)));
    ws, es := Then(digest, granularity, ws, es, StatFile("f"));
    assert ws[|es|].answers[1] == Answer("f", Some("a"), "b");
  }

  /** The gate is safe for every run exactly when stamps are finer than the racy window or as fine. */
  lemma SafeIffWindowCoversGranularity(granularity: int)
    ensures granularity <= 3000 <==>
            forall digest: Digest, ws: seq<World>, es: seq<Event> ::
              Run(digest, granularity, ws, es) ==> Honest(digest, ws[|es|])
  {
    if granularity <= RACY_WINDOW {
      forall digest: Digest, ws: seq<World>, es: seq<Event> | Run(digest, granularity, ws, es)
        ensures Honest(digest, ws[|es|])
      {
        GateNeverLies(digest, granularity, ws, es, |es|);
      }
    } else {
      CoarserStampsLie(granularity);
    }
  }

  function LastHash(w: World): Option<string> {
    if w.answers == [] then None else w.answers[|w.answers| - 1].hash
  }

  /** The world `later` is `w` after anything other processes did meanwhile. */
  ghost predicate Meanwhile(w: World, later: World) {
    later.pending == w.pending && later.entries == w.entries && later.listed == w.listed
  }

  /** The stat event of a visit to a file that is there. */
  function StatEvent(v: Visit): Event {
    if v.stat.Unreadable? then StatUnreadable(v.path) else StatFile(v.path)
  }

  ghost predicate StatSeen(w: World, v: Visit) {
    v.stat.Unreadable? ||
      (v.path in w.files && v.stat == Stamp(w.files[v.path].modified, |w.files[v.path].content|))
  }

  /** One turn of the walk is no event, or a stat that hits the gate, or a stat and, in a later world that
      may hold other bytes, a read, a loss or the end of the pass: the gate, the answer and the counters come
      out the same. */
  lemma VisitIsItsEvents(digest: Digest, granularity: int, p: Pass, v: Visit, w: World, later: World)
    requires p.entries == w.entries && p.listed == w.listed && w.pending == None
    ensures v.stat.Vanished? ==> VisitFile(digest, p, true, v) == Ok(p)
    ensures !v.stat.Vanished? && StatSeen(w, v) ==>
              && Allowed(granularity, w, StatEvent(v))
              && var statted := Next(digest, granularity, w, StatEvent(v));
                 && (statted.pending == None ==> VisitFile(digest, p, true, v) == Ok(VisitedAs(p, v, statted, 0)))
                 && (statted.pending.Some? && Meanwhile(statted, later) ==>
                      match v.read
                      case Bytes(content) =>
                        v.path in later.files && content == later.files[v.path].content && v.now == later.clock ==>
                          && Allowed(granularity, later, ReadAndSampleClock)
                          && VisitFile(digest, p, true, v)
                             == Ok(VisitedAs(p, v, Next(digest, granularity, later, ReadAndSampleClock), 1))
                      case Gone =>
                        && Allowed(granularity, later, LosePending)
                        && var lost := Next(digest, granularity, later, LosePending);
                           VisitFile(digest, p, true, v)
                           == Ok(p.(entries := lost.entries, listed := lost.listed, readFiles := p.readFiles + 1))
                      case Failed =>
                        && VisitFile(digest, p, true, v) == Err(v.path)
                        && Next(digest, granularity, later, FailPass).entries == p.entries)
  {
  }

  /** What a pass becomes when the world `w` holds the gate and the answer after visiting `v`. */
  function VisitedAs(p: Pass, v: Visit, w: World, newReads: nat): Pass {
    Pass(w.entries, w.listed,
      if LastHash(w).Some? then p.files + [Hashed(v.path, LastHash(w).value, Modified(v))] else p.files,
      p.readFiles + newReads, p.listedFiles + 1)
  }

  // ---------------------------------------------------------------- a gated pass is an ungated one

  /** What the walk meets while nothing else touches the files. */
  ghost predicate Observes(files: map<string, File>, v: Visit) {
    if v.path in files then
      v.stat == Stamp(files[v.path].modified, |files[v.path].content|) && v.read == Bytes(files[v.path].content)
    else v.stat.Vanished?
  }

  /** Every entry that would be trusted for the files as they are holds their hash. */
  ghost predicate Agrees(digest: Digest, entries: map<string, GateEntry>, files: map<string, File>) {
    forall path <- entries :: path in files && Hits(entries, path, files[path].modified, |files[path].content|)
      ==> entries[path].hash == digest(path, files[path].content)
  }

  lemma HonestAgrees(digest: Digest, w: World)
    requires Honest(digest, w)
    ensures Agrees(digest, w.entries, w.files)
  {
  }

  /** On files that stand still, a gated pass over an honest gate answers what reading every file
      would, lists as many files, and leaves the gate fit for the next pass. */
  lemma {:induction false} GatedPassIsUngatedPass(
    digest: Digest, files: map<string, File>, gated: Pass, plain: Pass, visits: seq<Visit>)
    requires forall v <- visits :: Observes(files, v)
    requires Agrees(digest, gated.entries, files)
    requires gated.files == plain.files && gated.listedFiles == plain.listedFiles && gated.readFiles <= plain.readFiles
    ensures var g, u := VisitAll(digest, gated, true, visits), VisitAll(digest, plain, false, visits);
            && g.Ok? && u.Ok? && g.value.files == u.value.files
            && g.value.listedFiles == u.value.listedFiles && g.value.readFiles <= u.value.readFiles
            && Agrees(digest, g.value.entries, files)
    decreases |visits|
  {
    if visits != [] {
      var v := visits[0];
      assert v in visits && Observes(files, v);
      var g, u := VisitFile(digest, gated, true, v), VisitFile(digest, plain, false, v);
      forall x <- visits[1..]
        ensures Observes(files, x)
      {
        assert x in visits;
      }
      GatedPassIsUngatedPass(digest, files, g.value, u.value, visits[1..]);
    }
  }
}
