/** What passes of the stat gate read and answer, file by file. */
module StatAnswers {
  import opened Wrappers
  import opened StatGates

  // ---------------------------------------------------------------- a pass with no gate

  predicate There(v: Visit) {
    !v.stat.Vanished?
  }

  function StampOf(v: Visit): Option<int> {
    if v.stat.Stamp? then v.stat.modified else None
  }

  /** One entry for a file whose bytes are read and are a source. */
  function ReadAnswer(digest: Digest, v: Visit): seq<Hashed> {
    if There(v) && v.read.Bytes? && digest(v.path, v.read.content).Some?
    then [Hashed(v.path, digest(v.path, v.read.content).value, StampOf(v))]
    else []
  }

  function ReadAnswers(digest: Digest, visits: seq<Visit>): seq<Hashed> {
    if visits == [] then [] else ReadAnswer(digest, visits[0]) + ReadAnswers(digest, visits[1..])
  }

  function CountThere(visits: seq<Visit>): nat {
    if visits == [] then 0 else (if There(visits[0]) then 1 else 0) + CountThere(visits[1..])
  }

  function CountGone(visits: seq<Visit>): nat {
    if visits == [] then 0 else (if There(visits[0]) && visits[0].read.Gone? then 1 else 0) + CountGone(visits[1..])
  }

  /** The first file there whose read fails. */
  function FirstFailed(visits: seq<Visit>): Option<string> {
    if visits == [] then None
    else if There(visits[0]) && visits[0].read.Failed? then Some(visits[0].path)
    else FirstFailed(visits[1..])
  }

  /** With no gate every file that is there is read. A failed read ends the pass with its path; otherwise the
      answer holds the hash of each file's bytes under its stamp, in the order of the walk, and lists all files
      but those gone at their read. */
  lemma {:induction false} UngatedPassReadsAll(digest: Digest, p: Pass, visits: seq<Visit>)
    ensures match VisitAll(digest, p, false, visits)
            case Err(path) => FirstFailed(visits) == Some(path)
            case Ok(q) =>
              && FirstFailed(visits) == None
              && q.files == p.files + ReadAnswers(digest, visits)
              && q.readFiles == p.readFiles + CountThere(visits)
              && q.listedFiles == p.listedFiles + CountThere(visits) - CountGone(visits)
    decreases |visits|
  {
    if visits != [] {
      var first := VisitFile(digest, p, false, visits[0]);
      if first.Ok? { UngatedPassReadsAll(digest, first.value, visits[1..]); }
    }
  }

  // ---------------------------------------------------------------- what the next pass reads

  /** The entry a first visit leaves: the stamp is kept if it is at least three seconds old. */
  ghost predicate LeftBy(digest: Digest, files: map<string, File>, v: Visit, entries: map<string, GateEntry>) {
    v.path in files ==>
      && v.path in entries
      && entries[v.path].len == |files[v.path].content|
      && entries[v.path].modified
         == if files[v.path].modified.Some? && v.now - files[v.path].modified.value >= 3000
            then files[v.path].modified else None
  }

  ghost predicate Apart(visits: seq<Visit>) {
    forall i, j :: 0 <= i < j < |visits| ==> visits[i].path != visits[j].path
  }

  lemma {:induction false} FirstPassLeaves(digest: Digest, files: map<string, File>, p: Pass, visits: seq<Visit>)
    requires (forall v <- visits :: Observes(files, v) && v.path !in p.entries) && Apart(visits)
    ensures var r := VisitAll(digest, p, true, visits);
            && r.Ok?
            && (forall v <- visits :: LeftBy(digest, files, v, r.value.entries)
                                      && (v.path in files ==> v.path in r.value.listed))
            && (forall path <- p.entries :: path in r.value.entries && r.value.entries[path] == p.entries[path])
            && p.listed <= r.value.listed
    decreases |visits|
  {
    if visits != [] {
      var v := visits[0];
      assert v in visits && Observes(files, v);
      var next := VisitFile(digest, p, true, v).value;
      forall x <- visits[1..]
        ensures Observes(files, x) && x.path !in next.entries
      {
        var i :| 0 <= i < |visits[1..]| && visits[1..][i] == x;
        assert x == visits[i + 1] && visits[0].path != visits[i + 1].path;
      }
      FirstPassLeaves(digest, files, next, visits[1..]);
      assert forall x :: x in visits <==> x == v || x in visits[1..];
    }
  }

  /** The files whose stamp was younger than three seconds when they were read, or that have none. */
  function Unsettled(files: map<string, File>, visits: seq<Visit>): nat {
    if visits == [] then 0
    else
      var v := visits[0];
      Unsettled(files, visits[1..])
      + if v.path in files && !(files[v.path].modified.Some? && v.now - files[v.path].modified.value >= 3000) then 1 else 0
  }

  lemma {:induction false} SecondPassReads(digest: Digest, files: map<string, File>, p: Pass, before: seq<Visit>, visits: seq<Visit>)
    requires |before| == |visits| && forall i :: 0 <= i < |visits| ==> visits[i].path == before[i].path
    requires (forall v <- before :: LeftBy(digest, files, v, p.entries)) && Apart(before)
    requires forall v <- visits :: Observes(files, v)
    ensures var r := VisitAll(digest, p, true, visits);
            r.Ok? && r.value.readFiles == p.readFiles + Unsettled(files, before)
    decreases |visits|
  {
    if visits != [] {
      var v := visits[0];
      assert v in visits && Observes(files, v) && before[0] in before;
      var next := VisitFile(digest, p, true, v).value;
      forall x <- before[1..]
        ensures LeftBy(digest, files, x, next.entries)
      {
        var i :| 0 <= i < |before[1..]| && before[1..][i] == x;
        assert x == before[i + 1] && before[0].path != before[i + 1].path;
        assert LeftBy(digest, files, x, p.entries);
      }
      forall x <- visits[1..]
        ensures Observes(files, x)
      {
        assert x in visits;
      }
      SecondPassReads(digest, files, next, before[1..], visits[1..]);
    }
  }

  /** On files that stand still, the pass after the first reads exactly those whose stamp was not yet three
      seconds old; a settled file is not read again. */
  lemma SettledIsNotReadAgain(digest: Digest, files: map<string, File>, before: seq<Visit>, visits: seq<Visit>)
    requires |before| == |visits| && forall i :: 0 <= i < |visits| ==> visits[i].path == before[i].path
    requires Apart(before) && (forall v <- before :: Observes(files, v)) && (forall v <- visits :: Observes(files, v))
    ensures var first := VisitAll(digest, Begin(map[]), true, before);
            && first.Ok?
            && var second := VisitAll(digest, Begin(Retained(first.value.entries, first.value.listed)), true, visits);
               second.Ok? && second.value.readFiles == Unsettled(files, before)
  {
    FirstPassLeaves(digest, files, Begin(map[]), before);
    var first := VisitAll(digest, Begin(map[]), true, before).value;
    SecondPassReads(digest, files, Begin(Retained(first.entries, first.listed)), before, visits);
  }

  // ---------------------------------------------------------------- what the gate forgets

  lemma {:induction false} ListedAreMet(digest: Digest, p: Pass, visits: seq<Visit>)
    requires p.listed <= p.entries.Keys
    ensures var r := VisitAll(digest, p, true, visits);
            r.Ok? ==>
              && p.listed <= r.value.listed <= r.value.entries.Keys
              && (forall v <- visits :: There(v) && v.read.Bytes? ==> v.path in r.value.listed)
              && (forall path <- r.value.listed :: path in p.listed || exists v <- visits :: There(v) && v.path == path)
    decreases |visits|
  {
    if visits != [] {
      var first := VisitFile(digest, p, true, visits[0]);
      if first.Ok? {
        ListedAreMet(digest, first.value, visits[1..]);
        assert forall v :: v in visits <==> v == visits[0] || v in visits[1..];
      }
    }
  }

  /** A pass leaves entries of files it met and of no others, whatever the gate held before, and one for every
      file that could be read. */
  lemma GateForgetsUnmetFiles(digest: Digest, entries: map<string, GateEntry>, visits: seq<Visit>)
    ensures var r := VisitAll(digest, Begin(entries), true, visits);
            r.Ok? ==>
              var left := Retained(r.value.entries, r.value.listed);
              && (forall path <- left :: exists v <- visits :: There(v) && v.path == path)
              && (forall v <- visits :: There(v) && v.read.Bytes? ==> v.path in left)
  {
    ListedAreMet(digest, Begin(entries), visits);
  }
}
