/** Which bundle a lookup finds, where a key's files are, and which of them a sweep takes. */
module BundlePlaces {
  import opened Wrappers
  import opened Bundles

  /** A lookup fails exactly on a file that is there and cannot be read, and finds exactly a bundle of
      format 1 written for the key; anything else is no bundle. */
  lemma LookupExactly(c: Codec, files: Files, key: Key)
    requires Sound(c)
    ensures var path, r := PathOf(c, key), Lookup(c, files, key);
            && (r.Err? <==> path in files && !files[path].readable)
            && (r.Err? ==> r.error == path)
            && (forall payload :: r == Ok(Some(payload)) <==>
                  && path in files && files[path].readable
                  && c.parse(files[path].bytes) == Some(Bundle(1, key, payload)))
  {
  }

  predicate NulFree(s: string) {
    forall i :: 0 <= i < |s| ==> s[i] != '\0'
  }

  lemma FirstNul(s: string, rest: string, s': string, rest': string)
    requires NulFree(s) && NulFree(s') && s + "\0" + rest == s' + "\0" + rest'
    ensures s == s' && rest == rest'
  {
    var all := s + "\0" + rest;
    assert all[|s|] == '\0' && all[|s'|] == '\0';
    assert (forall i :: 0 <= i < |s| ==> all[i] == s[i]) && forall i :: 0 <= i < |s'| ==> all[i] == s'[i];
    assert all[..|s|] == s && all[..|s'|] == s';
    assert all[|s| + 1..] == rest && all[|s'| + 1..] == rest';
  }

  ghost predicate NulFreeKey(k: Key) {
    NulFree(k.contentHash) && NulFree(k.language) && NulFree(k.adapterVersion)
  }

  /** What is hashed tells keys apart: two keys share a place only by a collision of the hash. */
  lemma MaterialTellsKeysApart(k: Key, k': Key)
    requires NulFreeKey(k) && NulFreeKey(k')
    ensures Material(k) == Material(k') <==> k == k'
  {
    if Material(k) == Material(k') {
      var r, r' := k.adapterVersion + "\0" + k.producer, k'.adapterVersion + "\0" + k'.producer;
      var q, q' := k.language + "\0" + r, k'.language + "\0" + r';
      assert Material(k) == k.contentHash + "\0" + q && Material(k') == k'.contentHash + "\0" + q';
      FirstNul(k.contentHash, q, k'.contentHash, q');
      FirstNul(k.language, r, k'.language, r');
      FirstNul(k.adapterVersion, k.producer, k'.adapterVersion, k'.producer);
    }
  }

  /** A key's place spells the first 32 digits of its hash: two for the directory, thirty for the file. */
  lemma PlaceSpellsTheDigest(c: Codec, key: Key)
    requires Sound(c)
    ensures var p := PathOf(c, key);
            && |p.shard| == 2 && p.shard + p.name == c.hash(Material(key))[..32] + ".json"
  {
  }

  /** A left temporary file goes exactly when it has not changed for more than an hour, whatever is kept. */
  lemma TemporariesGoAfterAnHour(c: Codec, kept: set<Path>, key: Key, id: string, file: File, now: int)
    requires Sound(c)
    ensures Doomed(kept, TemporaryOf(c, key, id), file, now) <==> now - file.modified > 3600
  {
    NamesAreTellable(c, key, id);
  }

  predicate HexDigits(s: string) {
    forall i :: 0 <= i < |s| ==> '0' <= s[i] <= '9' || 'a' <= s[i] <= 'f' || 'A' <= s[i] <= 'F'
  }

  /** A sweep takes nothing but temporary files of the store and files named as its bundles are: foreign
      files, and files in directories not named by two digits, stay. */
  lemma OnlyTheStoresFilesGo(kept: set<Path>, p: Path, file: File, now: int)
    ensures Doomed(kept, p, file, now) <==>
              && |p.shard| == 2 && HexDigits(p.shard)
              && (|| (&& |p.name| >= 4 && p.name[0] == '.' && p.name[|p.name| - 4..] == ".tmp"
                      && now - file.modified > 3600)
                  || (&& |p.name| == 35 && HexDigits(p.name[..30]) && p.name[30..] == ".json" && p !in kept))
  {
    if |p.name| == 35 { assert p.name[..|p.name| - 5] == p.name[..30]; }
  }
}
