/** Moving an index off its legacy table name: `snapshot`, `commit` and `drop_legacy_table` of
    src/store.rs, interleaved over one store's reader/writer lock. */
module LegacyTables {
  datatype Table = Short | Legacy

  /** A revision of a table; its content never changes, and goes when the table is dropped. */
  datatype Revision = Revision(table: Table, number: nat)

  /** Where a snapshot is. From `Guarded` on, a legacy snapshot holds the lock for reading. */
  datatype Reader =
    | Looking
    | ShortMissing
    | Guarded
    | Opened(table: Table)
    | Live(revision: Revision, pinned: string)
    | NoIndex
    | Broken

  datatype Writer = Idle | Committed | Exclusive

  datatype State = State(
    current: map<Table, nat>, stored: map<Revision, string>, next: nat, readers: map<nat, Reader>, writer: Writer)

  datatype Event =
    | Begin(id: nat)
    | OpenShort(id: nat)
    | LockForReading(id: nat)
    | OpenLegacy(id: nat)
    | PinRevision(id: nat)
    | Release(id: nat)
    | CreateShort(rows: string)
    | TryLockForWriting
    | DropLegacy
    | DropFails
    | Crash

  predicate HoldsLock(r: Reader) {
    r.Guarded? || (r.Opened? && r.table.Legacy?) || (r.Live? && r.revision.table.Legacy?)
  }

  predicate ReadersPresent(s: State) {
    exists id <- s.readers :: HoldsLock(s.readers[id])
  }

  predicate At(s: State, id: nat, r: Reader) {
    id in s.readers && s.readers[id] == r
  }

  ghost predicate Enabled(s: State, e: Event) {
    match e
    case Begin(id) => id !in s.readers
    case OpenShort(id) => At(s, id, Looking)
    case LockForReading(id) => At(s, id, ShortMissing) && !s.writer.Exclusive?
    case OpenLegacy(id) => At(s, id, Guarded)
    case PinRevision(id) => id in s.readers && s.readers[id].Opened?
    case Release(id) => id in s.readers
    case CreateShort(_) => s.writer.Idle?
    case TryLockForWriting => s.writer.Committed?
    case DropLegacy => s.writer.Exclusive?
    case DropFails => s.writer.Exclusive?
    case Crash => true
  }

  function Put(s: State, id: nat, r: Reader): State {
    s.(readers := s.readers[id := r])
  }

  function Next(s: State, e: Event): State
    requires Enabled(s, e)
  {
    match e
    case Begin(id) => Put(s, id, Looking)
    case OpenShort(id) => Put(s, id, if Short in s.current then Opened(Short) else ShortMissing)
    case LockForReading(id) => Put(s, id, Guarded)
    case OpenLegacy(id) => Put(s, id, if Legacy in s.current then Opened(Legacy) else NoIndex)
    case PinRevision(id) =>
      var t := s.readers[id].table;
      if t in s.current && Revision(t, s.current[t]) in s.stored
      then Put(s, id, Live(Revision(t, s.current[t]), s.stored[Revision(t, s.current[t])]))
      else Put(s, id, Broken)
    case Release(id) => s.(readers := s.readers - {id})
    case CreateShort(rows) =>
      s.(current := s.current[Short := s.next], stored := s.stored[Revision(Short, s.next) := rows],
         next := s.next + 1, writer := Committed)
    case TryLockForWriting => s.(writer := if ReadersPresent(s) then Idle else Exclusive)
    case DropLegacy =>
      s.(current := s.current - {Legacy},
         stored := map r <- s.stored | r.table.Short? :: s.stored[r], writer := Idle)
    case DropFails => s.(writer := Idle)
    case Crash => s.(readers := map[], writer := Idle)
  }

  ghost predicate ReaderSafe(s: State, r: Reader) {
    && (r.Opened? ==> r.table in s.current)
    && (r.Live? ==>
         && r.revision.table in s.current
         && r.revision in s.stored && s.stored[r.revision] == r.pinned)
    && !r.Broken?
    && (r.NoIndex? ==> Legacy !in s.current)
  }

  ghost predicate Safe(s: State) {
    && (forall id <- s.readers :: ReaderSafe(s, s.readers[id]))
    && (s.writer.Exclusive? ==> !ReadersPresent(s))
    && (!s.writer.Idle? ==> Short in s.current)
    && (forall t <- s.current :: Revision(t, s.current[t]) in s.stored)
    && (forall r <- s.stored :: r.number < s.next)
  }

  /** Before anything runs: whatever tables earlier versions left, no readers, no writer. */
  ghost predicate Start(s: State) {
    && s.readers == map[] && s.writer == Idle
    && (forall t <- s.current :: Revision(t, s.current[t]) in s.stored)
    && (forall r <- s.stored :: r.number < s.next)
  }

  ghost predicate Run(ss: seq<State>, es: seq<Event>) {
    && |ss| == |es| + 1 && Start(ss[0])
    && forall i :: 0 <= i < |es| ==> Enabled(ss[i], es[i]) && ss[i + 1] == Next(ss[i], es[i])
  }

  lemma ReaderStepSafe(s: State, e: Event)
    requires Safe(s) && Enabled(s, e)
    requires e.Begin? || e.OpenShort? || e.LockForReading? || e.OpenLegacy? || e.PinRevision? || e.Release?
    ensures Safe(Next(s, e))
  {
  }

  lemma WriterStepSafe(s: State, e: Event)
    requires Safe(s) && Enabled(s, e)
    requires e.CreateShort? || e.TryLockForWriting? || e.DropLegacy? || e.DropFails? || e.Crash?
    ensures Safe(Next(s, e))
  {
  }

  lemma {:induction false} RunsAreSafe(ss: seq<State>, es: seq<Event>, i: nat)
    requires Run(ss, es) && i < |ss|
    ensures Safe(ss[i])
  {
    if i > 0 {
      RunsAreSafe(ss, es, i - 1);
      var e := es[i - 1];
      if e.Begin? || e.OpenShort? || e.LockForReading? || e.OpenLegacy? || e.PinRevision? || e.Release? {
        ReaderStepSafe(ss[i - 1], e);
      } else {
        WriterStepSafe(ss[i - 1], e);
      }
    }
  }

  /** While a snapshot is alive, its table exists and its revision holds what it held when pinned; no
      snapshot fails to pin the table it opened. */
  lemma SnapshotsKeepTheirRevision(ss: seq<State>, es: seq<Event>, i: nat, id: nat)
    requires Run(ss, es) && i < |ss| && id in ss[i].readers
    ensures var s, r := ss[i], ss[i].readers[id];
            && !r.Broken?
            && (r.Live? ==> r.revision.table in s.current && r.revision in s.stored && s.stored[r.revision] == r.pinned)
            && (HoldsLock(r) && !r.Guarded? ==> Legacy in s.current)
  {
    RunsAreSafe(ss, es, i);
    assert ReaderSafe(ss[i], ss[i].readers[id]);
  }

  lemma {:induction false} LegacyStaysGone(ss: seq<State>, es: seq<Event>, i: nat, j: nat)
    requires Run(ss, es) && i <= j < |ss| && Legacy !in ss[i].current
    ensures Legacy !in ss[j].current
    decreases j - i
  {
    if i < j { LegacyStaysGone(ss, es, i + 1, j); }
  }

  /** A commit that finds no reader of the legacy table takes the lock, no snapshot can take it until
      the drop, and once the drop is done there is no legacy table in any later state. */
  lemma UncontendedCommitRemovesLegacy(ss: seq<State>, es: seq<Event>, i: nat, j: nat)
    requires Run(ss, es) && i < |es| && i < j < |ss|
    ensures es[i].TryLockForWriting? ==> (ss[i + 1].writer.Exclusive? <==> !ReadersPresent(ss[i]))
    ensures es[i].DropLegacy? ==> !ReadersPresent(ss[i]) && Legacy !in ss[j].current && Short in ss[i].current
  {
    RunsAreSafe(ss, es, i);
    if es[i].DropLegacy? { LegacyStaysGone(ss, es, i + 1, j); }
  }

  predicate Indexed(s: State) {
    Short in s.current || Legacy in s.current
  }

  lemma {:induction false} IndexPersists(ss: seq<State>, es: seq<Event>, i: nat, j: nat)
    requires Run(ss, es) && i <= j < |ss| && Indexed(ss[i])
    ensures Indexed(ss[j])
    decreases j - i
  {
    if i < j {
      RunsAreSafe(ss, es, i);
      IndexPersists(ss, es, i + 1, j);
    }
  }

  /** A snapshot that answers "no index" although there was one means the short table is there now, so
      the next attempt opens it. */
  lemma NoIndexMeansMigrated(ss: seq<State>, es: seq<Event>, i: nat, j: nat, id: nat)
    requires Run(ss, es) && i <= j < |ss| && Indexed(ss[i]) && At(ss[j], id, NoIndex)
    ensures Short in ss[j].current
  {
    RunsAreSafe(ss, es, j);
    assert ReaderSafe(ss[j], ss[j].readers[id]);
    IndexPersists(ss, es, i, j);
  }

  /** A drop of the legacy table is one of the events from `i` up to `j`. */
  ghost predicate DroppedWithin(es: seq<Event>, i: nat, j: nat)
    requires j <= |es|
  {
    exists k :: i <= k < j && es[k] == DropLegacy
  }

  /** The legacy table goes by a drop only, and a drop is for good. */
  lemma {:induction false} LegacyGoesByDropsOnly(ss: seq<State>, es: seq<Event>, i: nat, j: nat)
    requires Run(ss, es) && i <= j < |ss| && Legacy in ss[i].current
    ensures Legacy in ss[j].current <==> !DroppedWithin(es, i, j)
    decreases j - i
  {
    if i < j {
      LegacyGoesByDropsOnly(ss, es, i, j - 1);
      if DroppedWithin(es, i, j - 1) { LegacyStaysGone(ss, es, j - 1, j); }
    }
  }

  /** Exactly when a snapshot begun while there is an index answers that there is none: its first open
      did not find the short table, and a drop of the legacy one falls between its two opens. */
  lemma MissesExactlyAcrossADrop(ss: seq<State>, es: seq<Event>, i: nat, j: nat, id: nat)
    requires Run(ss, es) && i < j < |es| && es[i] == OpenShort(id) && Indexed(ss[i])
    ensures At(ss[i + 1], id, Opened(Short)) <==> Short in ss[i].current
    ensures At(ss[i + 1], id, ShortMissing) <==> Short !in ss[i].current
    ensures At(ss[i + 1], id, ShortMissing) && es[j] == OpenLegacy(id) ==>
              && (At(ss[j + 1], id, NoIndex) <==> DroppedWithin(es, i + 1, j))
              && (At(ss[j + 1], id, Opened(Legacy)) <==> !DroppedWithin(es, i + 1, j))
  {
    if Short !in ss[i].current { LegacyGoesByDropsOnly(ss, es, i + 1, j); }
  }

  // ---------------------------------------------------------------- what snapshots read

  /** The short table's current revision holds `rows`. */
  ghost predicate Serves(s: State, rows: string) {
    && Short in s.current
    && Revision(Short, s.current[Short]) in s.stored && s.stored[Revision(Short, s.current[Short])] == rows
  }

  lemma StepServes(s: State, e: Event, rows: string)
    requires Enabled(s, e)
    requires if e.CreateShort? then e.rows == rows else Serves(s, rows)
    ensures Serves(Next(s, e), rows)
  {
  }

  lemma {:induction false} CommitStays(ss: seq<State>, es: seq<Event>, i: nat, j: nat, rows: string)
    requires Run(ss, es) && i < j < |ss| && es[i] == CreateShort(rows)
    requires forall k :: i < k < j ==> !es[k].CreateShort?
    ensures Serves(ss[j], rows)
    decreases j - i
  {
    if j > i + 1 { CommitStays(ss, es, i, j - 1, rows); }
    StepServes(ss[j - 1], es[j - 1], rows);
  }

  /** A snapshot that pins the short table reads the rows of the last commit before it. */
  lemma SnapshotsReadTheLastCommit(ss: seq<State>, es: seq<Event>, i: nat, j: nat, rows: string, id: nat)
    requires Run(ss, es) && i < j < |es| && es[i] == CreateShort(rows)
    requires forall k :: i < k < j ==> !es[k].CreateShort?
    requires es[j] == PinRevision(id) && At(ss[j], id, Opened(Short))
    ensures id in ss[j + 1].readers && ss[j + 1].readers[id].Live?
    ensures ss[j + 1].readers[id].pinned == rows && ss[j + 1].readers[id].revision.table == Short
  {
    CommitStays(ss, es, i, j, rows);
  }

  lemma {:induction false} LegacyIsAsFound(ss: seq<State>, es: seq<Event>, j: nat)
    requires Run(ss, es) && j < |ss| && Legacy in ss[j].current
    ensures Legacy in ss[0].current && ss[j].current[Legacy] == ss[0].current[Legacy]
    ensures var r := Revision(Legacy, ss[0].current[Legacy]);
            r in ss[0].stored && r in ss[j].stored && ss[j].stored[r] == ss[0].stored[r]
    decreases j
  {
    if j > 0 { LegacyIsAsFound(ss, es, j - 1); }
  }

  /** A snapshot that pins the legacy table reads what an earlier version left there. */
  lemma LegacySnapshotsReadWhatWasLeft(ss: seq<State>, es: seq<Event>, j: nat, id: nat)
    requires Run(ss, es) && j < |es| && es[j] == PinRevision(id) && At(ss[j], id, Opened(Legacy))
    ensures Legacy in ss[0].current && Revision(Legacy, ss[0].current[Legacy]) in ss[0].stored
    ensures var r := Revision(Legacy, ss[0].current[Legacy]); At(ss[j + 1], id, Live(r, ss[0].stored[r]))
  {
    RunsAreSafe(ss, es, j);
    assert ReaderSafe(ss[j], ss[j].readers[id]);
    LegacyIsAsFound(ss, es, j);
  }

  /** And goes on reading them, whatever is committed and dropped meanwhile, until it is released. */
  lemma {:induction false} SnapshotsKeepTheirContent(ss: seq<State>, es: seq<Event>, i: nat, j: nat, id: nat, r: Revision,
    content: string)
    requires Run(ss, es) && i <= j < |ss| && At(ss[i], id, Live(r, content))
    requires forall k :: i <= k < j ==> es[k] != Release(id) && es[k] != Crash
    ensures At(ss[j], id, Live(r, content)) && r in ss[j].stored && ss[j].stored[r] == content
    decreases j - i
  {
    if i < j { SnapshotsKeepTheirContent(ss, es, i, j - 1, id, r, content); }
    SnapshotsKeepTheirRevision(ss, es, j, id);
  }

  lemma UncontendedCommit(s: State, rows: string)
    requires s.writer.Idle? && !ReadersPresent(s) && Legacy in s.current
    ensures var s1 := Next(s, CreateShort(rows));
            && Enabled(s1, TryLockForWriting)
            && var s2 := Next(s1, TryLockForWriting);
               && Enabled(s2, DropLegacy)
               && var s3 := Next(s2, DropLegacy);
                  && Indexed(s1) && Indexed(s2) && Indexed(s3)
                  && s3.readers == s.readers && s3.writer.Idle? && Legacy !in s3.current
  {
  }

  /** The events lead from `s`, where there is an index all along, to snapshot 0 answering "no index". */
  ghost predicate HidesIndex(s: State, es: seq<Event>)
    decreases |es|
  {
    && Indexed(s)
    && if es == [] then At(s, 0, NoIndex) else Enabled(s, es[0]) && HidesIndex(Next(s, es[0]), es[1..])
  }

  lemma OpensTooLate(s: State) returns (es: seq<Event>)
    requires At(s, 0, ShortMissing) && s.writer.Idle? && Indexed(s) && Legacy !in s.current
    ensures HidesIndex(s, es)
  {
    var s1 := Next(s, LockForReading(0));
    assert At(s1, 0, Guarded);
    assert HidesIndex(Next(s1, OpenLegacy(0)), []);
    es := [LockForReading(0)] + ([OpenLegacy(0)] + []);
  }

  lemma CommitsMeanwhile(s: State, rows: string) returns (es: seq<Event>)
    requires At(s, 0, ShortMissing) && s.writer.Idle? && Legacy in s.current && !ReadersPresent(s)
    ensures HidesIndex(s, es)
  {
    UncontendedCommit(s, rows);
    var s1 := Next(s, CreateShort(rows));
    var s2 := Next(s1, TryLockForWriting);
    es := OpensTooLate(Next(s2, DropLegacy));
    es := [DropLegacy] + es;
    es := [TryLockForWriting] + es;
    es := [CreateShort(rows)] + es;
  }

  /** And it does happen: from any start with only a legacy table, a whole commit between a snapshot's
      two opens makes it answer "no index" although one existed throughout. */
  lemma CommitBetweenOpensHidesTheIndex(s: State, rows: string) returns (es: seq<Event>)
    requires Start(s) && Legacy in s.current && Short !in s.current
    ensures HidesIndex(s, es)
  {
    var s1 := Next(s, Begin(0));
    var s2 := Next(s1, OpenShort(0));
    es := CommitsMeanwhile(s2, rows);
    es := [OpenShort(0)] + es;
    es := [Begin(0)] + es;
  }
}
