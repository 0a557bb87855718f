/** A put and a retain that run undisturbed, as events of the shared directory. */
module BundleCalls {
  import opened Bundles
  import opened BundleRuns

  /** The events end the put `id`, and it reports success. */
  ghost predicate Reports(c: Codec, s: State, es: seq<Event>, id: string)
    requires Sound(c) && Follows(c, s, es)
    decreases |es|
  {
    && es != []
    && (|| es[0] == Rename(id)
        || (es[0].Drop? && es[0].id == id && s.puts[id].stage == Dropping(true))
        || Reports(c, Next(c, s, es[0]), es[1..], id))
  }

  /** Running the events ends the put `id` with these files and this answer. */
  ghost predicate Ends(c: Codec, s: State, es: seq<Event>, id: string, end: (Files, bool))
    requires Sound(c) && id in s.puts
  {
    && Follows(c, s, es)
    && After(c, s, es).files == end.0 && After(c, s, es).puts == s.puts - {id}
    && (Reports(c, s, es, id) <==> end.1)
  }

  lemma EndsByRename(c: Codec, s: State, id: string)
    requires Sound(c) && InStage(s, id, {Renaming, Retrying}) && Scratch(c, s.puts[id], id) in s.files
    ensures Ends(c, s, [Rename(id)], id, (Renamed(s.files, Scratch(c, s.puts[id], id), Place(c, s.puts[id])), true))
  {
    assert Follows(c, Next(c, s, Rename(id)), []);
    FollowsFirst(c, s, Rename(id), []);
    assert [Rename(id)] + [] == [Rename(id)];
  }

  lemma EndsByDrop(c: Codec, s: State, id: string, removed: bool)
    requires Sound(c) && id in s.puts && s.puts[id].stage.Dropping?
    ensures Ends(c, s, [Drop(id, removed)], id,
              (if removed then s.files - {Scratch(c, s.puts[id], id)} else s.files, s.puts[id].stage.ok))
  {
    assert Follows(c, Next(c, s, Drop(id, removed)), []);
    FollowsFirst(c, s, Drop(id, removed), []);
    assert [Drop(id, removed)] + [] == [Drop(id, removed)];
  }

  lemma EndsLater(c: Codec, s: State, e: Event, es: seq<Event>, id: string, end: (Files, bool))
    requires Sound(c) && id in s.puts && Enabled(c, s, e) && !e.Sweep? && !e.Intrude? && e.id == id
    requires e != Rename(id) && !e.Drop? && !e.Kill?
    requires id in Next(c, s, e).puts && Ends(c, Next(c, s, e), es, id, end)
    ensures Ends(c, s, [e] + es, id, end)
  {
    FollowsFirst(c, s, e, es);
    assert ([e] + es)[1..] == es;
    assert Next(c, s, e).puts - {id} == s.puts - {id};
  }

  /** The second half of a put, once its rename has failed and it has looked in vain. */
  lemma ClearingIsItsEvents(c: Codec, s: State, id: string, luck: Luck) returns (es: seq<Event>)
    requires Sound(c) && InStage(s, id, {Clearing}) && Scratch(c, s.puts[id], id) in s.files
    requires !luck.renames && !Holds(c, s.files, s.puts[id].key)
    ensures Ends(c, s, es, id, Placed(c, s.files, s.puts[id].key, id, luck))
  {
    NamesAreTellable(c, s.puts[id].key, id);
    var end := Placed(c, s.files, s.puts[id].key, id, luck);
    if Place(c, s.puts[id]) in s.files && luck.clears {
      var s1 := Next(c, s, Clear(id));
      if luck.renamesAgain {
        EndsByRename(c, s1, id);
        es := [Rename(id)];
      } else {
        var s2 := Next(c, s1, RenameFails(id));
        var s3 := Next(c, s2, Check(id));
        assert s3.puts[id].stage == Dropping(false);
        EndsByDrop(c, s3, id, luck.tidies);
        EndsLater(c, s2, Check(id), [Drop(id, luck.tidies)], id, end);
        es := [Check(id)] + [Drop(id, luck.tidies)];
        EndsLater(c, s1, RenameFails(id), es, id, end);
        es := [RenameFails(id)] + es;
      }
      EndsLater(c, s, Clear(id), es, id, end);
      es := [Clear(id)] + es;
    } else {
      var s1 := Next(c, s, ClearFails(id));
      EndsByDrop(c, s1, id, luck.tidies);
      es := [Drop(id, luck.tidies)];
      EndsLater(c, s, ClearFails(id), es, id, end);
      es := [ClearFails(id)] + es;
    }
  }

  lemma PlacingIsItsEvents(c: Codec, s: State, id: string, luck: Luck) returns (es: seq<Event>)
    requires Sound(c) && InStage(s, id, {Renaming}) && Scratch(c, s.puts[id], id) in s.files
    ensures Ends(c, s, es, id, Placed(c, s.files, s.puts[id].key, id, luck))
  {
    NamesAreTellable(c, s.puts[id].key, id);
    var end := Placed(c, s.files, s.puts[id].key, id, luck);
    if luck.renames {
      EndsByRename(c, s, id);
      return [Rename(id)];
    }
    var s1 := Next(c, s, RenameFails(id));
    var s2 := Next(c, s1, Check(id));
    if Holds(c, s.files, s.puts[id].key) {
      EndsByDrop(c, s2, id, luck.tidies);
      es := [Drop(id, luck.tidies)];
    } else {
      es := ClearingIsItsEvents(c, s2, id, luck);
    }
    EndsLater(c, s1, Check(id), es, id, end);
    EndsLater(c, s, RenameFails(id), [Check(id)] + es, id, end);
    es := [RenameFails(id)] + ([Check(id)] + es);
  }

  lemma EndsByKill(c: Codec, s: State, id: string)
    requires Sound(c) && id in s.puts
    ensures Ends(c, s, [Kill(id)], id, (s.files, false))
  {
    assert Follows(c, Next(c, s, Kill(id)), []);
    FollowsFirst(c, s, Kill(id), []);
    assert [Kill(id)] + [] == [Kill(id)];
  }

  lemma StartsAndEnds(c: Codec, s: State, begin: Event, es: seq<Event>, end: (Files, bool))
    requires Sound(c) && begin.Begin? && Enabled(c, s, begin)
    requires Ends(c, Next(c, s, begin), es, begin.id, end)
    ensures Follows(c, s, [begin] + es)
    ensures After(c, s, [begin] + es).files == end.0 && After(c, s, [begin] + es).puts == s.puts
    ensures Reports(c, s, [begin] + es, begin.id) <==> end.1
  {
    FollowsFirst(c, s, begin, es);
    assert ([begin] + es)[1..] == es;
    assert Next(c, s, begin).puts - {begin.id} == s.puts;
  }

  /** From the begun put to its end: cut off in the write, or placed. */
  lemma WritingIsItsEvents(c: Codec, s: State, key: Key, payload: string, id: string, now: int, luck: Luck)
    returns (es: seq<Event>)
    requires Sound(c) && id !in s.puts && luck.opens
    ensures Ends(c, Next(c, s, Begin(id, key, payload, now)), es, id,
              PutFiles(c, s.files, key, payload, id, now, luck))
  {
    var bytes, temporary := c.write(Bundle(FORMAT, key, payload)), TemporaryOf(c, key, id);
    var end := PutFiles(c, s.files, key, payload, id, now, luck);
    var s1 := Next(c, s, Begin(id, key, payload, now));
    var whole := Writes(c, key, payload, luck);
    var write := WriteMore(id, if whole then |bytes| else luck.cutAt.value, now);
    var s2 := Next(c, s1, write);
    assert s2.files == s.files[temporary := File(bytes[..write.done], true, now)];
    if whole {
      assert bytes[..|bytes|] == bytes;
      es := PlacingIsItsEvents(c, Next(c, s2, Finish(id)), id, luck);
      EndsLater(c, s2, Finish(id), es, id, end);
      es := [Finish(id)] + es;
    } else {
      EndsByKill(c, s2, id);
      es := [Kill(id)];
    }
    EndsLater(c, s1, write, es, id, end);
    es := [write] + es;
  }

  /** Every put that runs undisturbed, whatever fails in it, is a run of the put's events: the same files
      and the same answer. */
  lemma PutIsItsEvents(c: Codec, s: State, key: Key, payload: string, id: string, now: int, luck: Luck)
    returns (es: seq<Event>)
    requires Sound(c) && id !in s.puts
    ensures Follows(c, s, es)
    ensures After(c, s, es).files == PutFiles(c, s.files, key, payload, id, now, luck).0
    ensures After(c, s, es).puts == s.puts
    ensures Reports(c, s, es, id) <==> PutFiles(c, s.files, key, payload, id, now, luck).1
  {
    if luck.opens {
      es := WritingIsItsEvents(c, s, key, payload, id, now, luck);
      var begin := Begin(id, key, payload, now);
      StartsAndEnds(c, s, begin, es, PutFiles(c, s.files, key, payload, id, now, luck));
      es := [begin] + es;
    } else {
      es := [];
    }
  }

  /** Every deletion of a retain is a sweep with its keys: running those sweeps leaves the same files. */
  lemma {:induction false} RetainIsItsSweeps(c: Codec, s: State, keep: set<Key>, now: int, gone: set<Path>)
    returns (es: seq<Event>)
    requires Sound(c) && gone <= s.files.Keys
    requires forall p <- gone :: Doomed(KeptPaths(c, keep), p, s.files[p], now)
    ensures Follows(c, s, es) && After(c, s, es) == s.(files := s.files - gone)
    ensures |es| == |gone| && forall e <- es :: e.Sweep? && e.keep == keep && e.path in gone
    decreases gone
  {
    if gone == {} {
      assert s.files - gone == s.files;
      return [];
    }
    var p :| p in gone;
    var e := Sweep(keep, p);
    var rest := RetainIsItsSweeps(c, Next(c, s, e), keep, now, gone - {p});
    FollowsFirst(c, s, e, rest);
    assert s.files - {p} - (gone - {p}) == s.files - gone;
    es := [e] + rest;
  }
}
