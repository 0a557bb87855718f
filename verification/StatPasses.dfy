/** A whole pass of the stat gate, met along a run in which other processes go on writing. */
module StatPasses {
  import opened Wrappers
  import opened StatGates

  /** What other processes and the clock do. */
  predicate Outside(e: Event) {
    e.Tick? || e.Write? || e.Delete?
  }

  ghost predicate OnlyOutside(es: seq<Event>, i: nat, j: nat) {
    i <= j <= |es| && forall k :: i <= k < j ==> Outside(es[k])
  }

  /** A visit, and which events of the run are its stat and its read. */
  datatype Meeting = Meeting(visit: Visit, stat: nat, read: nat)

  predicate Gated(ws: seq<World>, m: Meeting) {
    m.stat + 1 < |ws| && ws[m.stat + 1].pending == None
  }

  /** The visit is met after state `k`: nothing but other processes' events come before its stat, and between
      its stat and its read. */
  ghost predicate MetAfter(ws: seq<World>, es: seq<Event>, k: nat, m: Meeting)
    requires |ws| == |es| + 1
  {
    var v := m.visit;
    v.stat.Vanished? ||
      (&& OnlyOutside(es, k, m.stat) && m.stat < |es| && es[m.stat] == StatEvent(v) && StatSeen(ws[m.stat], v)
       && (Gated(ws, m) ||
            (&& OnlyOutside(es, m.stat + 1, m.read) && m.read < |es|
             && match v.read
                case Bytes(content) =>
                  && es[m.read] == ReadAndSampleClock && v.path in ws[m.read].files
                  && content == ws[m.read].files[v.path].content && v.now == ws[m.read].clock
                case Gone => es[m.read] == LosePending
                case Failed => es[m.read] == FailPass)))
  }

  predicate Fails(ws: seq<World>, m: Meeting) {
    !m.visit.stat.Vanished? && !Gated(ws, m) && m.visit.read.Failed?
  }

  /** The state after the visit. */
  function Then(ws: seq<World>, k: nat, m: Meeting): nat {
    if m.visit.stat.Vanished? then k else if Gated(ws, m) then m.stat + 1 else m.read + 1
  }

  /** The visits of one pass, one after the other from state `k`, up to one that fails. */
  ghost predicate MetAlong(ws: seq<World>, es: seq<Event>, k: nat, ms: seq<Meeting>)
    requires |ws| == |es| + 1
    decreases |ms|
  {
    ms != [] ==> MetAfter(ws, es, k, ms[0]) && (Fails(ws, ms[0]) || MetAlong(ws, es, Then(ws, k, ms[0]), ms[1..]))
  }

  ghost predicate SomeFails(ws: seq<World>, ms: seq<Meeting>) {
    exists m <- ms :: Fails(ws, m)
  }

  /** The bytes the file holds when the pass answers for it: at its stat if the gate hits, else at its read. */
  function Held(ws: seq<World>, m: Meeting): Option<Content> {
    var at := if Gated(ws, m) then m.stat else m.read;
    if m.visit.stat.Vanished? || (!Gated(ws, m) && !m.visit.read.Bytes?) then None
    else if at < |ws| && m.visit.path in ws[at].files then Some(ws[at].files[m.visit.path].content)
    else None
  }

  /** What the pass is to answer for one visit. */
  function Answered(digest: Digest, ws: seq<World>, m: Meeting): seq<Hashed> {
    var held := Held(ws, m);
    var hash := if held.Some? then digest(m.visit.path, held.value) else None;
    if hash.Some? then [Hashed(m.visit.path, hash.value, Modified(m.visit))] else []
  }

  /** The hashes of the bytes held, in the order of the visits. */
  function HeldHashes(digest: Digest, ws: seq<World>, ms: seq<Meeting>): seq<Hashed> {
    if ms == [] then [] else Answered(digest, ws, ms[0]) + HeldHashes(digest, ws, ms[1..])
  }

  function Visits(ms: seq<Meeting>): seq<Visit> {
    seq(|ms|, i requires 0 <= i < |ms| => ms[i].visit)
  }

  ghost predicate AtState(p: Pass, w: World) {
    p.entries == w.entries && p.listed == w.listed && w.pending == None
  }

  lemma {:induction false} OutsideKeepsGate(digest: Digest, granularity: int, ws: seq<World>, es: seq<Event>, i: nat, j: nat)
    requires Run(digest, granularity, ws, es) && OnlyOutside(es, i, j)
    ensures ws[j].entries == ws[i].entries && ws[j].listed == ws[i].listed && ws[j].pending == ws[i].pending
    decreases j - i
  {
    if i < j { OutsideKeepsGate(digest, granularity, ws, es, i, j - 1); }
  }

  /** The visit adds the hash of the bytes held, and leaves pass and run in step. */
  ghost predicate Answers(digest: Digest, ws: seq<World>, k: nat, m: Meeting, p: Pass) {
    var r := VisitFile(digest, p, true, m.visit);
    && (r.Err? <==> Fails(ws, m))
    && (r.Ok? ==>
         && Then(ws, k, m) < |ws| && AtState(r.value, ws[Then(ws, k, m)])
         && r.value.files == p.files + Answered(digest, ws, m))
  }

  /** A world just after an answer: the pass in step with it has the answer as its last hash. */
  lemma VisitedInStep(p: Pass, v: Visit, w: World, path: string, entry: GateEntry, actual: Content, newReads: nat)
    requires path == v.path
    ensures var w' := Keep(w, path, entry, actual);
            && AtState(VisitedAs(p, v, w', newReads), w') && LastHash(w') == entry.hash
  {
  }

  lemma GatedVisit(digest: Digest, granularity: int, ws: seq<World>, es: seq<Event>, k: nat, m: Meeting, p: Pass)
    requires granularity <= RACY_WINDOW && Run(digest, granularity, ws, es)
    requires MetAfter(ws, es, k, m) && !m.visit.stat.Vanished? && Gated(ws, m) && AtState(p, ws[m.stat])
    ensures Answers(digest, ws, k, m, p)
  {
    var v, w, w' := m.visit, ws[m.stat], ws[m.stat + 1];
    assert Allowed(granularity, w, es[m.stat]) && w' == Next(digest, granularity, w, es[m.stat]);
    VisitIsItsEvents(digest, granularity, p, v, w, w);
    var content := w.files[v.path].content;
    VisitedInStep(p, v, w, v.path, w.entries[v.path].(modified := w.files[v.path].modified, len := |content|), content, 0);
    GateNeverLies(digest, granularity, ws, es, m.stat);
    assert EntryHonest(digest, w, v.path);
  }

  lemma ReadVisit(digest: Digest, granularity: int, ws: seq<World>, es: seq<Event>, k: nat, m: Meeting, p: Pass)
    requires Run(digest, granularity, ws, es)
    requires MetAfter(ws, es, k, m) && !m.visit.stat.Vanished? && !Gated(ws, m) && AtState(p, ws[m.stat])
    requires m.visit.read.Bytes? && Meanwhile(ws[m.stat + 1], ws[m.read])
    ensures Answers(digest, ws, k, m, p)
  {
    var v, w, later := m.visit, ws[m.stat], ws[m.read];
    assert Allowed(granularity, w, es[m.stat]) && ws[m.stat + 1] == Next(digest, granularity, w, es[m.stat]);
    assert Allowed(granularity, later, es[m.read]) && ws[m.read + 1] == Next(digest, granularity, later, es[m.read]);
    VisitIsItsEvents(digest, granularity, p, v, w, later);
    var s := later.pending.value;
    var entry := GateEntry(if Settled(s.modified, later.clock) then s.modified else None, s.len,
      digest(v.path, later.files[v.path].content));
    VisitedInStep(p, v, later, v.path, entry, later.files[v.path].content, 1);
  }

  lemma UnansweredVisit(digest: Digest, granularity: int, ws: seq<World>, es: seq<Event>, k: nat, m: Meeting, p: Pass)
    requires Run(digest, granularity, ws, es)
    requires MetAfter(ws, es, k, m) && !m.visit.stat.Vanished? && !Gated(ws, m) && AtState(p, ws[m.stat])
    requires !m.visit.read.Bytes? && Meanwhile(ws[m.stat + 1], ws[m.read])
    ensures Answers(digest, ws, k, m, p)
  {
    var v, w, later := m.visit, ws[m.stat], ws[m.read];
    assert Allowed(granularity, w, es[m.stat]) && ws[m.stat + 1] == Next(digest, granularity, w, es[m.stat]);
    assert ws[m.read + 1] == Next(digest, granularity, later, es[m.read]);
    VisitIsItsEvents(digest, granularity, p, v, w, later);
  }

  lemma VisitAnswersHeldBytes(digest: Digest, granularity: int, ws: seq<World>, es: seq<Event>, k: nat, m: Meeting, p: Pass)
    requires granularity <= RACY_WINDOW && Run(digest, granularity, ws, es)
    requires k < |ws| && MetAfter(ws, es, k, m) && AtState(p, ws[k])
    ensures Answers(digest, ws, k, m, p)
  {
    if !m.visit.stat.Vanished? {
      OutsideKeepsGate(digest, granularity, ws, es, k, m.stat);
      if Gated(ws, m) {
        GatedVisit(digest, granularity, ws, es, k, m, p);
      } else {
        OutsideKeepsGate(digest, granularity, ws, es, m.stat + 1, m.read);
        if m.visit.read.Bytes? {
          ReadVisit(digest, granularity, ws, es, k, m, p);
        } else {
          UnansweredVisit(digest, granularity, ws, es, k, m, p);
        }
      }
    }
  }

  /** The pass `whole` from `p` fails exactly on a failed read, and otherwise adds the hashes of the bytes held. */
  ghost predicate PassAnswers(digest: Digest, ws: seq<World>, ms: seq<Meeting>, p: Pass, whole: Result<Pass, string>) {
    && (whole.Err? <==> SomeFails(ws, ms))
    && (whole.Ok? ==> whole.value.files == p.files + HeldHashes(digest, ws, ms))
  }

  lemma FirstThenRest(digest: Digest, ws: seq<World>, ms: seq<Meeting>, p: Pass, first: Result<Pass, string>,
    rest: Result<Pass, string>)
    requires ms != [] && (first.Err? <==> Fails(ws, ms[0]))
    requires first.Ok? ==> first.value.files == p.files + Answered(digest, ws, ms[0])
    requires first.Ok? ==> PassAnswers(digest, ws, ms[1..], first.value, rest)
    ensures PassAnswers(digest, ws, ms, p, if first.Err? then first else rest)
  {
    SomeFailsFirst(ws, ms);
  }

  /** A gated pass whose visits are met along a run, while files are written, deleted and re-created around
      it, answers for each file the hash of the bytes it held at that visit, and fails only on a failed read. */
  lemma {:induction false} PassAnswersHeldBytes(digest: Digest, granularity: int, ws: seq<World>, es: seq<Event>, k: nat,
    ms: seq<Meeting>, p: Pass)
    requires granularity <= RACY_WINDOW && Run(digest, granularity, ws, es)
    requires k < |ws| && MetAlong(ws, es, k, ms) && AtState(p, ws[k])
    ensures PassAnswers(digest, ws, ms, p, VisitAll(digest, p, true, Visits(ms)))
    decreases |ms|
  {
    if ms != [] {
      VisitAnswersHeldBytes(digest, granularity, ws, es, k, ms[0], p);
      VisitsFirst(digest, ms, p);
      var first := VisitFile(digest, p, true, ms[0].visit);
      if first.Ok? {
        PassAnswersHeldBytes(digest, granularity, ws, es, Then(ws, k, ms[0]), ms[1..], first.value);
        FirstThenRest(digest, ws, ms, p, first, VisitAll(digest, first.value, true, Visits(ms[1..])));
      } else {
        FirstThenRest(digest, ws, ms, p, first, first);
      }
    }
  }

  lemma VisitsFirst(digest: Digest, ms: seq<Meeting>, p: Pass)
    requires ms != []
    ensures var r := VisitFile(digest, p, true, ms[0].visit);
            VisitAll(digest, p, true, Visits(ms))
            == (match r case Err(e) => Err(e) case Ok(p') => VisitAll(digest, p', true, Visits(ms[1..])))
  {
    assert Visits(ms)[0] == ms[0].visit && Visits(ms)[1..] == Visits(ms[1..]);
  }

  lemma SomeFailsFirst(ws: seq<World>, ms: seq<Meeting>)
    requires ms != []
    ensures SomeFails(ws, ms) <==> Fails(ws, ms[0]) || SomeFails(ws, ms[1..])
  {
    assert forall m :: m in ms <==> m == ms[0] || m in ms[1..];
  }
}
