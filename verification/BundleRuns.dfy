/** Many processes sharing one bundle directory: puts, retains, killed writers and foreign files,
    interleaved one file operation at a time. */
module BundleRuns {
  import opened Wrappers
  import opened Bundles

  /** How far a put has got; `done` bytes of the temporary file are written. */
  datatype Stage =
    | Writing(done: nat)
    | Renaming
    | Checking
    | Clearing
    | Retrying
    | Rechecking
    | Dropping(ok: bool)

  datatype Put = Put(key: Key, payload: string, stage: Stage)

  /** `whole` is history: the keys and payloads whose bytes some put wrote out completely. */
  datatype State = State(files: Files, puts: map<string, Put>, whole: set<(Key, string)>)

  datatype Event =
    | Begin(id: string, key: Key, payload: string, now: int)
    | WriteMore(id: string, done: nat, now: int)
    | Finish(id: string)
    | Rename(id: string)
    | RenameFails(id: string)
    | Check(id: string)
    | Clear(id: string)
    | ClearFails(id: string)
    | Drop(id: string, removed: bool)
    | Kill(id: string)
    | Sweep(keep: set<Key>, path: Path)
    | Intrude(path: Path, file: File)

  function Written(c: Codec, p: Put): Bytes {
    c.write(Bundle(FORMAT, p.key, p.payload))
  }

  /** What the bytes hold for a reader of this format, if anything, was written whole. */
  ghost predicate Genuine(c: Codec, bytes: Bytes, whole: set<(Key, string)>) {
    var b := c.parse(bytes);
    b.Some? && b.value.format == FORMAT ==> (b.value.key, b.value.payload) in whole
  }

  predicate InStage(s: State, id: string, stages: set<Stage>) {
    id in s.puts && s.puts[id].stage in stages
  }

  function Place(c: Codec, p: Put): Path
    requires Sound(c)
  {
    PathOf(c, p.key)
  }

  function Scratch(c: Codec, p: Put, id: string): Path
    requires Sound(c)
  {
    TemporaryOf(c, p.key, id)
  }

  /** A retain may meet its directory entries at any time and in any order, and its look at a file's age
      comes before the deletion, so a sweep may hit temporaries of every age. */
  ghost predicate Enabled(c: Codec, s: State, e: Event)
    requires Sound(c)
  {
    match e
    case Begin(id, _, _, _) => id !in s.puts
    case WriteMore(id, done, _) =>
      && id in s.puts && s.puts[id].stage.Writing?
      && s.puts[id].stage.done <= done <= |Written(c, s.puts[id])|
    case Finish(id) => id in s.puts && s.puts[id].stage == Writing(|Written(c, s.puts[id])|)
    case Rename(id) => InStage(s, id, {Renaming, Retrying}) && Scratch(c, s.puts[id], id) in s.files
    case RenameFails(id) => InStage(s, id, {Renaming, Retrying})
    case Check(id) => InStage(s, id, {Checking, Rechecking})
    case Clear(id) => InStage(s, id, {Clearing}) && Place(c, s.puts[id]) in s.files
    case ClearFails(id) => InStage(s, id, {Clearing})
    case Drop(id, _) => id in s.puts && s.puts[id].stage.Dropping?
    case Kill(id) => id in s.puts
    case Sweep(keep, path) =>
      && path in s.files && IsHex(path.shard, 2)
      && (Temporary(path.name) || (NamedAsBundle(path.name) && path !in KeptPaths(c, keep)))
    case Intrude(path, file) => !Temporary(path.name) && Genuine(c, file.bytes, s.whole)
  }

  function Moved(s: State, id: string, stage: Stage): State
    requires id in s.puts
  {
    s.(puts := s.puts[id := s.puts[id].(stage := stage)])
  }

  ghost function Next(c: Codec, s: State, e: Event): State
    requires Sound(c) && Enabled(c, s, e)
  {
    match e
    case Begin(id, key, payload, now) =>
      s.(files := s.files[TemporaryOf(c, key, id) := File("", true, now)],
         puts := s.puts[id := Put(key, payload, Writing(0))])
    case WriteMore(id, done, now) =>
      var p := s.puts[id];
      var path := Scratch(c, p, id);
      var s' := Moved(s, id, Writing(done));
      if path in s.files then s'.(files := s.files[path := File(Written(c, p)[..done], true, now)]) else s'
    case Finish(id) =>
      Moved(s, id, Renaming).(whole := s.whole + {(s.puts[id].key, s.puts[id].payload)})
    case Rename(id) =>
      var p := s.puts[id];
      s.(files := s.files[Place(c, p) := s.files[Scratch(c, p, id)]] - {Scratch(c, p, id)}, puts := s.puts - {id})
    case RenameFails(id) => Moved(s, id, if s.puts[id].stage.Renaming? then Checking else Rechecking)
    case Check(id) =>
      var p := s.puts[id];
      Moved(s, id, if Holds(c, s.files, p.key) then Dropping(true)
                   else if p.stage.Checking? then Clearing else Dropping(false))
    case Clear(id) => Moved(s, id, Retrying).(files := s.files - {Place(c, s.puts[id])})
    case ClearFails(id) => Moved(s, id, Dropping(false))
    case Drop(id, removed) =>
      s.(files := if removed then s.files - {Scratch(c, s.puts[id], id)} else s.files, puts := s.puts - {id})
    case Kill(id) => s.(puts := s.puts - {id})
    case Sweep(_, path) => s.(files := s.files - {path})
    case Intrude(path, file) => s.(files := s.files[path := file])
  }

  /** What a put's temporary file holds while it is still there. */
  predicate ScratchHolds(c: Codec, files: Files, p: Put, id: string)
    requires Sound(c)
  {
    var path := Scratch(c, p, id);
    && (p.stage.Writing? ==> p.stage.done <= |Written(c, p)|)
    && (path in files ==>
         && files[path].readable
         && files[path].bytes == if p.stage.Writing? then Written(c, p)[..p.stage.done] else Written(c, p))
  }

  ghost predicate Safe(c: Codec, s: State)
    requires Sound(c)
  {
    && (forall path <- s.files :: !Temporary(path.name) ==> Genuine(c, s.files[path].bytes, s.whole))
    && (forall id <- s.puts :: ScratchHolds(c, s.files, s.puts[id], id))
    && (forall id <- s.puts :: !s.puts[id].stage.Writing? ==> (s.puts[id].key, s.puts[id].payload) in s.whole)
  }

  ghost predicate Run(c: Codec, ss: seq<State>, es: seq<Event>)
    requires Sound(c)
  {
    && |ss| == |es| + 1 && ss[0].puts == map[] && Safe(c, ss[0])
    && forall i :: 0 <= i < |es| ==> Enabled(c, ss[i], es[i]) && ss[i + 1] == Next(c, ss[i], es[i])
  }

  /** The events can happen from `s` on, one after the other. */
  ghost predicate Follows(c: Codec, s: State, es: seq<Event>)
    requires Sound(c)
    decreases |es|
  {
    es != [] ==> Enabled(c, s, es[0]) && Follows(c, Next(c, s, es[0]), es[1..])
  }

  ghost function After(c: Codec, s: State, es: seq<Event>): State
    requires Sound(c) && Follows(c, s, es)
    decreases |es|
  {
    if es == [] then s else After(c, Next(c, s, es[0]), es[1..])
  }

  lemma FollowsFirst(c: Codec, s: State, e: Event, es: seq<Event>)
    requires Sound(c) && Enabled(c, s, e) && Follows(c, Next(c, s, e), es)
    ensures Follows(c, s, [e] + es) && After(c, s, [e] + es) == After(c, Next(c, s, e), es)
  {
    assert ([e] + es)[1..] == es;
  }

  /** A step on one put's files leaves the temporaries of the others as they are. */
  lemma OtherScratchKept(c: Codec, s: State, e: Event, id: string)
    requires Sound(c) && Enabled(c, s, e) && id in s.puts && ScratchHolds(c, s.files, s.puts[id], id)
    requires id in Next(c, s, e).puts && (e.Sweep? || e.Intrude? || e.id != id)
    ensures Next(c, s, e).puts[id] == s.puts[id]
    ensures ScratchHolds(c, Next(c, s, e).files, s.puts[id], id)
  {
    var path := Scratch(c, s.puts[id], id);
    NamesAreTellable(c, s.puts[id].key, id);
    match e
    case Begin(id', key, _, _) =>
      if TemporaryOf(c, key, id') == path { TemporariesDiffer(c, key, id', s.puts[id].key, id); }
    case WriteMore(id', _, _) =>
      if Scratch(c, s.puts[id'], id') == path { TemporariesDiffer(c, s.puts[id'].key, id', s.puts[id].key, id); }
    case Rename(id') => NamesAreTellable(c, s.puts[id'].key, id');
    case _ =>
  }

  lemma OwnScratchKept(c: Codec, s: State, e: Event)
    requires Sound(c) && Enabled(c, s, e) && !e.Sweep? && !e.Intrude? && e.id in Next(c, s, e).puts
    requires e.id in s.puts ==> ScratchHolds(c, s.files, s.puts[e.id], e.id)
    ensures ScratchHolds(c, Next(c, s, e).files, Next(c, s, e).puts[e.id], e.id)
  {
  }

  lemma FilesStayGenuine(c: Codec, s: State, e: Event)
    requires Sound(c) && Enabled(c, s, e) && Safe(c, s)
    ensures forall path <- Next(c, s, e).files :: !Temporary(path.name) ==>
              Genuine(c, Next(c, s, e).files[path].bytes, Next(c, s, e).whole)
  {
  }

  lemma StepSafe(c: Codec, s: State, e: Event)
    requires Sound(c) && Enabled(c, s, e) && Safe(c, s)
    ensures Safe(c, Next(c, s, e))
  {
    var s' := Next(c, s, e);
    FilesStayGenuine(c, s, e);
    forall id <- s'.puts
      ensures ScratchHolds(c, s'.files, s'.puts[id], id)
    {
      if e.Sweep? || e.Intrude? || e.id != id { OtherScratchKept(c, s, e, id); } else { OwnScratchKept(c, s, e); }
    }
  }

  lemma {:induction false} RunsAreSafe(c: Codec, ss: seq<State>, es: seq<Event>, i: nat)
    requires Sound(c) && Run(c, ss, es) && i < |ss|
    ensures Safe(c, ss[i])
    decreases i
  {
    if i > 0 {
      RunsAreSafe(c, ss, es, i - 1);
      StepSafe(c, ss[i - 1], es[i - 1]);
    }
  }

  /** Whatever has run, a get finds nothing or a payload that some put wrote out whole for this key. */
  lemma GetsAreGenuine(c: Codec, ss: seq<State>, es: seq<Event>, i: nat, key: Key)
    requires Sound(c) && Run(c, ss, es) && i < |ss|
    ensures var r := Lookup(c, ss[i].files, key); r.Ok? && r.value.Some? ==> (key, r.value.value) in ss[i].whole
  {
    RunsAreSafe(c, ss, es, i);
    NamesAreTellable(c, key, "");
  }

  lemma RenamePutsWhole(c: Codec, s: State, id: string)
    requires Sound(c) && Safe(c, s) && Enabled(c, s, Rename(id))
    ensures Lookup(c, Next(c, s, Rename(id)).files, s.puts[id].key) == Ok(Some(s.puts[id].payload))
  {
  }

  /** A put that reports success saw, at that very step, a bundle of its key in place: its own if its
      rename went through. */
  lemma SuccessMeansInPlace(c: Codec, ss: seq<State>, es: seq<Event>, i: nat, id: string)
    requires Sound(c) && Run(c, ss, es) && i < |es| && id in ss[i].puts
    ensures es[i] == Rename(id) ==> Lookup(c, ss[i + 1].files, ss[i].puts[id].key) == Ok(Some(ss[i].puts[id].payload))
    ensures es[i] == Check(id) && InStage(ss[i + 1], id, {Dropping(true)}) ==> Holds(c, ss[i + 1].files, ss[i].puts[id].key)
  {
    RunsAreSafe(c, ss, es, i);
    if es[i] == Rename(id) { RenamePutsWhole(c, ss[i], id); }
  }

  /** A retain never deletes the file of a key it keeps. */
  lemma SweepsSpareKept(c: Codec, s: State, keep: set<Key>, path: Path, key: Key)
    requires Sound(c) && Enabled(c, s, Sweep(keep, path)) && key in keep
    ensures Lookup(c, Next(c, s, Sweep(keep, path)).files, key) == Lookup(c, s.files, key)
  {
  }

  // ---------------------------------------------------------------- how long a bundle stays

  predicate Clashes(c: Codec, key: Key, other: Key)
    requires Sound(c)
  {
    other != key && PathOf(c, other) == PathOf(c, key)
  }

  /** The event is of a world where `key` is kept, alone in its place and not overwritten from outside. */
  predicate Respects(c: Codec, e: Event, key: Key)
    requires Sound(c)
  {
    && (e.Begin? ==> !Clashes(c, key, e.key))
    && (e.Sweep? ==> key in e.keep)
    && (e.Intrude? ==> e.path != PathOf(c, key))
  }

  /** The put aims at the place of `key` and can still replace or clear what is there: any put on the
      strength of an earlier look, and a put of a clashing key unless all it has left is to give up. */
  predicate Threatens(c: Codec, s: State, id: string, key: Key)
    requires Sound(c) && id in s.puts
  {
    var p := s.puts[id];
    && Place(c, p) == PathOf(c, key)
    && (|| p.stage.Clearing?
        || (p.key != key &&
             (p.stage.Writing? || p.stage.Renaming? || p.stage.Checking?
              || (p.stage.Retrying? && Scratch(c, p, id) in s.files))))
  }

  ghost predicate Unthreatened(c: Codec, s: State, key: Key)
    requires Sound(c)
  {
    forall id <- s.puts :: !Threatens(c, s, id, key)
  }

  lemma PlaceKept(c: Codec, s: State, e: Event, key: Key)
    requires Sound(c) && Enabled(c, s, e) && Respects(c, e, key) && !e.Rename?
    requires PathOf(c, key) in s.files && (e.Clear? ==> !Threatens(c, s, e.id, key))
    ensures PathOf(c, key) in Next(c, s, e).files
    ensures Next(c, s, e).files[PathOf(c, key)] == s.files[PathOf(c, key)]
  {
    NamesAreTellable(c, key, "");
    match e
    case Begin(id, k, _, _) => NamesAreTellable(c, k, id);
    case WriteMore(id, _, _) => NamesAreTellable(c, s.puts[id].key, id);
    case Drop(id, _) => NamesAreTellable(c, s.puts[id].key, id);
    case _ =>
  }

  lemma RenameKeepsBundle(c: Codec, s: State, id: string, key: Key)
    requires Sound(c) && Safe(c, s) && Enabled(c, s, Rename(id))
    requires Holds(c, s.files, key) && !Threatens(c, s, id, key)
    ensures Holds(c, Next(c, s, Rename(id)).files, key)
  {
    RenamePutsWhole(c, s, id);
    var files, files' := s.files, Next(c, s, Rename(id)).files;
    NamesAreTellable(c, key, "");
    NamesAreTellable(c, s.puts[id].key, id);
    if Place(c, s.puts[id]) == PathOf(c, key) {
      assert s.puts[id].key == key;
    } else {
      assert files'[PathOf(c, key)] == files[PathOf(c, key)];
    }
  }

  /** A temporary file once gone comes back only with a new put. */
  lemma ScratchStaysGone(c: Codec, s: State, e: Event, id: string)
    requires Sound(c) && Enabled(c, s, e) && id in s.puts && Scratch(c, s.puts[id], id) !in s.files
    ensures Scratch(c, s.puts[id], id) !in Next(c, s, e).files
  {
    var path := Scratch(c, s.puts[id], id);
    NamesAreTellable(c, s.puts[id].key, id);
    match e
    case Begin(id', key, _, _) =>
      if TemporaryOf(c, key, id') == path { TemporariesDiffer(c, key, id', s.puts[id].key, id); }
    case Rename(id') => NamesAreTellable(c, s.puts[id'].key, id');
    case _ =>
  }

  lemma StepLeavesUnthreatened(c: Codec, s: State, e: Event, key: Key, id: string)
    requires Sound(c) && Enabled(c, s, e) && Respects(c, e, key)
    requires Holds(c, s.files, key) && id in Next(c, s, e).puts
    requires id in s.puts ==> !Threatens(c, s, id, key)
    ensures !Threatens(c, Next(c, s, e), id, key)
  {
    if id in s.puts && s.puts[id].stage.Retrying? && Scratch(c, s.puts[id], id) !in s.files {
      ScratchStaysGone(c, s, e, id);
    }
  }

  lemma StepKeepsBundle(c: Codec, s: State, e: Event, key: Key)
    requires Sound(c) && Safe(c, s) && Enabled(c, s, e) && Respects(c, e, key)
    requires Holds(c, s.files, key) && Unthreatened(c, s, key)
    ensures Holds(c, Next(c, s, e).files, key) && Unthreatened(c, Next(c, s, e), key)
  {
    forall id <- Next(c, s, e).puts
      ensures !Threatens(c, Next(c, s, e), id, key)
    {
      StepLeavesUnthreatened(c, s, e, key, id);
    }
    if e.Rename? { RenameKeepsBundle(c, s, e.id, key); } else { PlaceKept(c, s, e, key); }
  }

  /** Once in place and unthreatened a bundle stays readable through every later step of a run. */
  lemma {:induction false} BundlesStay(c: Codec, ss: seq<State>, es: seq<Event>, i: nat, j: nat, key: Key)
    requires Sound(c) && Run(c, ss, es) && i <= j < |ss|
    requires Holds(c, ss[i].files, key) && Unthreatened(c, ss[i], key)
    requires forall k :: i <= k < j ==> Respects(c, es[k], key)
    ensures Holds(c, ss[j].files, key)
    decreases j - i
  {
    if i < j {
      RunsAreSafe(c, ss, es, i);
      StepKeepsBundle(c, ss[i], es[i], key);
      BundlesStay(c, ss, es, i + 1, j, key);
    }
  }

  // ---------------------------------------------------------------- exactly when it stays

  /** Every event that follows keeps `key` readable, if each respects it. */
  ghost predicate Keeps(c: Codec, s: State, es: seq<Event>, key: Key)
    requires Sound(c)
  {
    Follows(c, s, es) && (forall e <- es :: Respects(c, e, key)) ==> Holds(c, After(c, s, es).files, key)
  }

  lemma {:induction false} UnthreatenedStays(c: Codec, s: State, es: seq<Event>, key: Key)
    requires Sound(c) && Safe(c, s) && Holds(c, s.files, key) && Unthreatened(c, s, key)
    ensures Keeps(c, s, es, key)
    decreases |es|
  {
    if es != [] && Follows(c, s, es) && forall e <- es :: Respects(c, e, key) {
      StepKeepsBundle(c, s, es[0], key);
      StepSafe(c, s, es[0]);
      UnthreatenedStays(c, Next(c, s, es[0]), es[1..], key);
    }
  }

  /** What a threatening put does next to lose the bundle. */
  function Harm(c: Codec, s: State, id: string): Event
    requires id in s.puts
  {
    match s.puts[id].stage
    case Writing(done) => if done < |Written(c, s.puts[id])| then WriteMore(id, |Written(c, s.puts[id])|, 0) else Finish(id)
    case Renaming => RenameFails(id)
    case Checking => Check(id)
    case Clearing => Clear(id)
    case _ => Rename(id)
  }

  function StepsToHarm(c: Codec, s: State, id: string): nat
    requires id in s.puts
  {
    match s.puts[id].stage
    case Writing(done) => if done < |Written(c, s.puts[id])| then 5 else 4
    case Renaming => 3
    case Checking => 2
    case _ => 1
  }

  lemma HarmProceeds(c: Codec, s: State, id: string, key: Key)
    requires Sound(c) && Safe(c, s) && Holds(c, s.files, key) && id in s.puts && Threatens(c, s, id, key)
    requires StepsToHarm(c, s, id) > 1
    ensures var e := Harm(c, s, id);
            && Enabled(c, s, e) && Respects(c, e, key) && Holds(c, Next(c, s, e).files, key)
            && id in Next(c, s, e).puts && Threatens(c, Next(c, s, e), id, key)
            && StepsToHarm(c, Next(c, s, e), id) < StepsToHarm(c, s, id)
  {
    assert ScratchHolds(c, s.files, s.puts[id], id);
    PlaceKept(c, s, Harm(c, s, id), key);
  }

  lemma HarmIsDone(c: Codec, s: State, id: string, key: Key)
    requires Sound(c) && Safe(c, s) && Holds(c, s.files, key) && id in s.puts && Threatens(c, s, id, key)
    requires StepsToHarm(c, s, id) == 1
    ensures var e := Harm(c, s, id);
            Enabled(c, s, e) && Respects(c, e, key) && !Holds(c, Next(c, s, e).files, key)
  {
    if s.puts[id].stage.Retrying? { RenamePutsWhole(c, s, id); }
  }

  lemma {:induction false} ThreatsAreCarriedOut(c: Codec, s: State, id: string, key: Key) returns (es: seq<Event>)
    requires Sound(c) && Safe(c, s) && Holds(c, s.files, key) && id in s.puts && Threatens(c, s, id, key)
    ensures !Keeps(c, s, es, key)
    decreases StepsToHarm(c, s, id)
  {
    var e := Harm(c, s, id);
    if StepsToHarm(c, s, id) == 1 {
      HarmIsDone(c, s, id, key);
      es := [];
    } else {
      HarmProceeds(c, s, id, key);
      StepSafe(c, s, e);
      es := ThreatsAreCarriedOut(c, Next(c, s, e), id, key);
    }
    LostLater(c, s, e, es, key);
    es := [e] + es;
  }

  lemma LostLater(c: Codec, s: State, e: Event, es: seq<Event>, key: Key)
    requires Sound(c) && Enabled(c, s, e) && Respects(c, e, key) && !Keeps(c, Next(c, s, e), es, key)
    ensures !Keeps(c, s, [e] + es, key)
  {
    FollowsFirst(c, s, e, es);
    assert forall x <- [e] + es :: x == e || x in es;
  }

  /** A bundle in place stays readable however things go on, if and only if no put threatens its place. */
  lemma StaysExactlyUnthreatened(c: Codec, s: State, key: Key)
    requires Sound(c) && Safe(c, s) && Holds(c, s.files, key)
    ensures (forall es :: Keeps(c, s, es, key)) <==> Unthreatened(c, s, key)
  {
    if Unthreatened(c, s, key) {
      forall es
        ensures Keeps(c, s, es, key)
      {
        UnthreatenedStays(c, s, es, key);
      }
    } else {
      var id :| id in s.puts && Threatens(c, s, id, key);
      var es := ThreatsAreCarriedOut(c, s, id, key);
    }
  }

  // ---------------------------------------------------------------- a look that comes too early

  /** A run of events that respect `key`. */
  ghost predicate RespectfulRun(c: Codec, ss: seq<State>, es: seq<Event>, key: Key)
    requires Sound(c)
  {
    Run(c, ss, es) && forall k :: 0 <= k < |es| ==> Respects(c, es[k], key)
  }

  lemma Extended(c: Codec, ss: seq<State>, es: seq<Event>, e: Event, key: Key)
    requires Sound(c) && RespectfulRun(c, ss, es, key)
    requires Enabled(c, ss[|es|], e) && Respects(c, e, key)
    ensures RespectfulRun(c, ss + [Next(c, ss[|es|], e)], es + [e], key)
  {
  }

  /** A new put of `key` can get as far as its rename, its temporary file complete. */
  lemma WritesOut(c: Codec, ss: seq<State>, es: seq<Event>, id: string, key: Key, payload: string)
    returns (ss': seq<State>, es': seq<Event>)
    requires Sound(c) && RespectfulRun(c, ss, es, key) && id !in ss[|es|].puts
    ensures RespectfulRun(c, ss', es', key)
    ensures ss'[|es'|].puts == ss[|es|].puts[id := Put(key, payload, Renaming)]
    ensures Enabled(c, ss'[|es'|], Rename(id)) && ss'[0] == ss[0]
    ensures PathOf(c, key) !in ss[|es|].files ==> PathOf(c, key) !in ss'[|es'|].files
  {
    NamesAreTellable(c, key, id);
    var begin, finish := Begin(id, key, payload, 0), Finish(id);
    var s1 := Next(c, ss[|es|], begin);
    Extended(c, ss, es, begin, key);
    var write := WriteMore(id, |Written(c, s1.puts[id])|, 0);
    var s2 := Next(c, s1, write);
    Extended(c, ss + [s1], es + [begin], write, key);
    Extended(c, ss + [s1] + [s2], es + [begin] + [write], finish, key);
    ss', es' := ss + [s1] + [s2] + [Next(c, s2, finish)], es + [begin] + [write] + [finish];
  }

  /** Its rename fails, and it finds nothing in its place. */
  lemma LooksInVain(c: Codec, ss: seq<State>, es: seq<Event>, id: string, key: Key)
    returns (ss': seq<State>, es': seq<Event>)
    requires Sound(c) && RespectfulRun(c, ss, es, key) && InStage(ss[|es|], id, {Renaming})
    requires ss[|es|].puts[id].key == key && PathOf(c, key) !in ss[|es|].files
    ensures RespectfulRun(c, ss', es', key) && ss'[0] == ss[0]
    ensures ss'[|es'|] == Moved(ss[|es|], id, Clearing)
  {
    var s1 := Next(c, ss[|es|], RenameFails(id));
    Extended(c, ss, es, RenameFails(id), key);
    Extended(c, ss + [s1], es + [RenameFails(id)], Check(id), key);
    ss', es' := ss + [s1] + [Next(c, s1, Check(id))], es + [RenameFails(id)] + [Check(id)];
  }

  /** From any directory without the key's file, two puts of one key can leave it missing although one of
      them has renamed a whole bundle into place: the other looked before and clears the place after. */
  lemma StaleLookHappens(c: Codec, start: State, key: Key, payload: string)
    returns (ss: seq<State>, es: seq<Event>, i: nat)
    requires Sound(c) && Safe(c, start) && start.puts == map[] && PathOf(c, key) !in start.files
    ensures RespectfulRun(c, ss, es, key) && ss[0] == start && i < |es|
    ensures Holds(c, ss[i].files, key) && Lookup(c, ss[|es|].files, key) == Ok(None)
  {
    ss, es := WritesOut(c, [start], [], "slow", key, payload);
    ss, es := LooksInVain(c, ss, es, "slow", key);
    ss, es := WritesOut(c, ss, es, "quick", key, payload);
    var s := ss[|es|];
    RunsAreSafe(c, ss, es, |es|);
    var s1 := Next(c, s, Rename("quick"));
    Extended(c, ss, es, Rename("quick"), key);
    Extended(c, ss + [s1], es + [Rename("quick")], Clear("slow"), key);
    i := |es| + 1;
    ss, es := ss + [s1] + [Next(c, s1, Clear("slow"))], es + [Rename("quick")] + [Clear("slow")];
  }
}
