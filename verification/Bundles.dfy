/** The bundle store of lci-core/src/bundle.rs: one file per key, written beside its place and renamed. */
module Bundles {
  import opened Wrappers

  const FORMAT: nat := 1
  const KEY_DIGITS: nat := 32
  const STALE_TEMPORARY := 3600

  datatype Key = Key(contentHash: string, language: string, adapterVersion: string, producer: string)

  type Bytes = string

  datatype Bundle = Bundle(format: nat, key: Key, payload: string)

  /** The JSON writer and parser and the content hash. */
  datatype Codec = Codec(write: Bundle -> Bytes, parse: Bytes -> Option<Bundle>, hash: string -> string)

  predicate HexDigit(c: char) {
    '0' <= c <= '9' || 'a' <= c <= 'f' || 'A' <= c <= 'F'
  }

  predicate IsHex(name: string, length: nat) {
    |name| == length && forall i :: 0 <= i < length ==> HexDigit(name[i])
  }

  /** Parsing gives back what was written, and a hash starts with 32 hexadecimal digits. Keys may collide. */
  ghost predicate Sound(c: Codec) {
    && (forall b :: c.parse(c.write(b)) == Some(b))
    && (forall s :: |c.hash(s)| >= KEY_DIGITS && IsHex(c.hash(s)[..KEY_DIGITS], KEY_DIGITS))
  }

  datatype Path = Path(shard: string, name: string)

  datatype File = File(bytes: Bytes, readable: bool, modified: int)

  type Files = map<Path, File>

  function Material(key: Key): string {
    key.contentHash + "\0" + key.language + "\0" + key.adapterVersion + "\0" + key.producer
  }

  function Digest(c: Codec, key: Key): string
    requires Sound(c)
  {
    c.hash(Material(key))[..KEY_DIGITS]
  }

  function PathOf(c: Codec, key: Key): Path
    requires Sound(c)
  {
    var d := Digest(c, key);
    Path(d[..2], d[2..] + ".json")
  }

  /** The temporary file of the write `id`, a process id and a counter written out. */
  function TemporaryOf(c: Codec, key: Key, id: string): Path
    requires Sound(c)
  {
    var d := Digest(c, key);
    Path(d[..2], "." + d + "." + id + ".tmp")
  }

  predicate EndsWith(s: string, suffix: string) {
    |suffix| <= |s| && s[|s| - |suffix|..] == suffix
  }

  predicate Temporary(name: string) {
    name != "" && name[0] == '.' && EndsWith(name, ".tmp")
  }

  predicate NamedAsBundle(name: string) {
    EndsWith(name, ".json") && IsHex(name[..|name| - 5], KEY_DIGITS - 2)
  }

  lemma NamesAreTellable(c: Codec, key: Key, id: string)
    requires Sound(c)
    ensures NamedAsBundle(PathOf(c, key).name) && !Temporary(PathOf(c, key).name)
    ensures Temporary(TemporaryOf(c, key, id).name) && !NamedAsBundle(TemporaryOf(c, key, id).name)
    ensures IsHex(PathOf(c, key).shard, 2) && TemporaryOf(c, key, id).shard == PathOf(c, key).shard
  {
  }

  lemma TemporariesDiffer(c: Codec, key: Key, id: string, key': Key, id': string)
    requires Sound(c) && TemporaryOf(c, key, id) == TemporaryOf(c, key', id')
    ensures id == id' && Digest(c, key) == Digest(c, key')
  {
    var name, name' := TemporaryOf(c, key, id).name, TemporaryOf(c, key', id').name;
    assert name[1..33] == Digest(c, key) && name'[1..33] == Digest(c, key');
    assert name[34..|name| - 4] == id && name'[34..|name'| - 4] == id';
  }

  function Lookup(c: Codec, files: Files, key: Key): Result<Option<string>, Path>
    requires Sound(c)
  {
    var path := PathOf(c, key);
    if path !in files then Ok(None)
    else if !files[path].readable then Err(path)
    else
      match c.parse(files[path].bytes)
      case Some(b) => Ok(if b.format == FORMAT && b.key == key then Some(b.payload) else None)
      case None => Ok(None)
  }

  predicate Holds(c: Codec, files: Files, key: Key)
    requires Sound(c)
  {
    var r := Lookup(c, files, key);
    r.Ok? && r.value.Some?
  }

  predicate Stale(file: File, now: int) {
    now - file.modified > STALE_TEMPORARY
  }

  function KeptPaths(c: Codec, keep: set<Key>): set<Path>
    requires Sound(c)
  {
    set k <- keep :: PathOf(c, k)
  }

  /** What a retain pass that keeps `kept` sets out to delete. */
  predicate Doomed(kept: set<Path>, p: Path, file: File, now: int) {
    && IsHex(p.shard, 2)
    && ((Temporary(p.name) && Stale(file, now)) || (NamedAsBundle(p.name) && p !in kept))
  }

  /** Every file of a bundle not to be kept goes, and no file of a kept key does: collisions included. */
  lemma DoomedBundles(c: Codec, keep: set<Key>, key: Key, file: File, now: int)
    requires Sound(c)
    ensures key in keep ==> !Doomed(KeptPaths(c, keep), PathOf(c, key), file, now)
    ensures Doomed(KeptPaths(c, keep), PathOf(c, key), file, now) <==>
              forall k <- keep :: Digest(c, k) != Digest(c, key)
  {
  }

  /** What the file system lets through of one put: making the directory and the temporary file, how much
      of a write that fails is done, and each later step. */
  datatype Luck = Luck(opens: bool, cutAt: Option<nat>, renames: bool, clears: bool, renamesAgain: bool, tidies: bool)

  function Renamed(files: Files, from: Path, to: Path): Files
    requires from in files
  {
    files[to := files[from]] - {from}
  }

  /** The files and the success of a put from the moment its temporary file is whole. */
  function Placed(c: Codec, files: Files, key: Key, id: string, luck: Luck): (Files, bool)
    requires Sound(c) && TemporaryOf(c, key, id) in files
  {
    var path, temporary := PathOf(c, key), TemporaryOf(c, key, id);
    NamesAreTellable(c, key, id);
    if luck.renames then (Renamed(files, temporary, path), true)
    else if Holds(c, files, key) then (if luck.tidies then files - {temporary} else files, true)
    else if path in files && luck.clears then
      var cleared := files - {path};
      if luck.renamesAgain then (Renamed(cleared, temporary, path), true)
      else (if luck.tidies then cleared - {temporary} else cleared, false)
    else (if luck.tidies then files - {temporary} else files, false)
  }

  function PutFiles(c: Codec, files: Files, key: Key, payload: string, id: string, now: int, luck: Luck): (Files, bool)
    requires Sound(c)
  {
    var bytes, temporary := c.write(Bundle(FORMAT, key, payload)), TemporaryOf(c, key, id);
    if !luck.opens then (files, false)
    else if luck.cutAt.Some? && luck.cutAt.value <= |bytes| then
      (files[temporary := File(bytes[..luck.cutAt.value], true, now)], false)
    else Placed(c, files[temporary := File(bytes, true, now)], key, id, luck)
  }

  /** The temporary file is written to its end. */
  predicate Writes(c: Codec, key: Key, payload: string, luck: Luck) {
    luck.opens && (luck.cutAt.None? || luck.cutAt.value > |c.write(Bundle(FORMAT, key, payload))|)
  }

  /** A put succeeds when its write does and a rename gets through or a readable bundle of the key is in the
      way; then there is one: its own unless the rename was refused. Nothing but its own two files changes,
      and a bundle of the key that was there is only ever replaced by its own. */
  lemma PutMeans(c: Codec, files: Files, key: Key, payload: string, id: string, now: int, luck: Luck)
    requires Sound(c)
    ensures var (files', ok) := PutFiles(c, files, key, payload, id, now, luck);
            var path, temporary := PathOf(c, key), TemporaryOf(c, key, id);
            && (ok <==> Writes(c, key, payload, luck)
                        && (luck.renames || Holds(c, files, key) || (path in files && luck.clears && luck.renamesAgain)))
            && (ok && (luck.renames || !Holds(c, files, key)) ==>
                 Lookup(c, files', key) == Ok(Some(payload)) && temporary !in files')
            && (!(luck.renames && ok) && Holds(c, files, key) ==> Lookup(c, files', key) == Lookup(c, files, key))
            && (Writes(c, key, payload, luck) && luck.tidies ==> temporary !in files')
            && files' - {path, temporary} == files - {path, temporary}
  {
    NamesAreTellable(c, key, id);
  }

  class BundleStore {
    const codec: Codec
    var files: Files

    constructor (c: Codec)
      ensures codec == c && files == map[]
    {
      codec := c;
      files := map[];
    }

    method Get(key: Key) returns (r: Result<Option<string>, Path>)
      requires Sound(codec)
      ensures r == Lookup(codec, files, key)
    {
      var path := PathOf(codec, key);
      if path !in files { return Ok(None); }
      if !files[path].readable { return Err(path); }
      var parsed := codec.parse(files[path].bytes);
      if parsed.Some? && parsed.value.format == FORMAT && parsed.value.key == key {
        return Ok(Some(parsed.value.payload));
      }
      return Ok(None);
    }

    /** A put that nothing interrupts. */
    method Put(key: Key, payload: string, id: string, now: int, luck: Luck) returns (ok: bool)
      requires Sound(codec)
      modifies this
      ensures (files, ok) == PutFiles(codec, old(files), key, payload, id, now, luck)
    {
      var path, temporary := PathOf(codec, key), TemporaryOf(codec, key, id);
      var bytes := codec.write(Bundle(FORMAT, key, payload));
      NamesAreTellable(codec, key, id);
      if !luck.opens { return false; }
      if luck.cutAt.Some? && luck.cutAt.value <= |bytes| {
        files := files[temporary := File(bytes[..luck.cutAt.value], true, now)];
        return false;
      }
      files := files[temporary := File(bytes, true, now)];
      ok := Rename(temporary, path, luck.renames);
      if ok { return; }
      var found := Get(key);
      if found.Ok? && found.value.Some? {
        Tidy(temporary, luck.tidies);
        return true;
      }
      if path in files && luck.clears {
        files := files - {path};
        ok := Rename(temporary, path, luck.renamesAgain);
        if ok { return; }
        found := Get(key);
        assert found == Ok(None);
      }
      Tidy(temporary, luck.tidies);
    }

    method Rename(from: Path, to: Path, granted: bool) returns (ok: bool)
      requires from in files
      modifies this
      ensures ok == granted
      ensures files == if ok then Renamed(old(files), from, to) else old(files)
    {
      if granted { files := Renamed(files, from, to); }
      ok := granted;
    }

    method Tidy(temporary: Path, granted: bool)
      modifies this
      ensures files == if granted then old(files) - {temporary} else old(files)
    {
      if granted { files := files - {temporary}; }
    }

    /** A retain, with `stuck` the files the system will not delete, `vanished` the files other processes
        delete before it reaches them and `unlistable` the directories it cannot list. It deletes just the
        doomed files. A stuck temporary is passed over; a stuck or vanished bundle and a directory that cannot
        be listed stop it. */
    method Retain(keep: set<Key>, now: int, stuck: set<Path>, vanished: set<Path>, unlistable: set<string>)
      returns (r: Result<nat, Path>)
      requires Sound(codec)
      modifies this
      ensures forall p <- old(files) :: p !in files ==> p in vanished || Doomed(KeptPaths(codec, keep), p, old(files)[p], now)
      ensures forall p <- files :: p in old(files) && files[p] == old(files)[p]
      ensures forall k <- keep :: PathOf(codec, k) in old(files) && PathOf(codec, k) !in vanished ==> PathOf(codec, k) in files
      ensures r.Ok? ==>
                && (forall p <- files :: Doomed(KeptPaths(codec, keep), p, files[p], now) ==> p in stuck && Temporary(p.name))
                && r.value == |old(files).Keys - vanished - files.Keys|
      ensures r.Err? ==>
                || r.error.shard in unlistable
                || (NamedAsBundle(r.error.name) && r.error !in KeptPaths(codec, keep)
                    && (r.error in vanished || (r.error in stuck && r.error in files)))
    {
      var kept := KeptPaths(codec, keep);
      var rest := files.Keys;
      var deleted := 0;
      forall k <- keep, file: File
        ensures !Doomed(kept, PathOf(codec, k), file, now)
      {
        DoomedBundles(codec, keep, k, file, now);
      }
      while rest != {}
        invariant rest <= files.Keys <= old(files).Keys
        invariant forall p <- files :: files[p] == old(files)[p]
        invariant forall p <- old(files) :: p !in files ==> p in vanished || Doomed(kept, p, old(files)[p], now)
        invariant forall p <- files :: p !in rest && Doomed(kept, p, files[p], now) ==> p in stuck && Temporary(p.name)
        invariant deleted == |old(files).Keys - vanished - files.Keys|
        decreases rest
      {
        var p :| p in rest;
        rest := rest - {p};
        if !IsHex(p.shard, 2) { continue; }
        if p.shard in unlistable { return Err(p); }
        if p in vanished {
          assert old(files).Keys - vanished - (files.Keys - {p}) == old(files).Keys - vanished - files.Keys;
          files := files - {p};
          if NamedAsBundle(p.name) && p !in kept { return Err(p); }
          continue;
        }
        if Temporary(p.name) && Stale(files[p], now) {
          if p !in stuck {
            OneGone(old(files).Keys - vanished, files.Keys, p);
            files := files - {p};
            deleted := deleted + 1;
          }
          continue;
        }
        if NamedAsBundle(p.name) && p !in kept {
          if p in stuck { return Err(p); }
          OneGone(old(files).Keys - vanished, files.Keys, p);
          files := files - {p};
          deleted := deleted + 1;
        }
      }
      return Ok(deleted);
    }
  }

  lemma OneGone(all: set<Path>, present: set<Path>, p: Path)
    requires p in all && p in present
    ensures |all - (present - {p})| == |all - present| + 1
  {
    assert all - (present - {p}) == (all - present) + {p};
  }
}
