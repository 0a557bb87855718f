/** The text a workspace fingerprint hashes: `fingerprint_material` of lci-core/src/chunk.rs. */
module Fingerprints {
  import opened PercentText

  /** What the fingerprint and the scan cache know a source file by. */
  datatype Keyed = Keyed(path: string, contentHash: string, language: string, version: string)

  function Material(k: Keyed): string {
    k.path + "\0" + (k.contentHash + "\0" + (k.language + "\0" + (k.version + "\n")))
  }

  function MaterialOf(ks: seq<Keyed>): string {
    if ks == [] then "" else Material(ks[0]) + MaterialOf(ks[1..])
  }

  /** No field holds a NUL and no version a newline; a path may hold newlines. */
  predicate Delimited(k: Keyed) {
    '\0' !in k.path && '\0' !in k.contentHash && '\0' !in k.language && '\0' !in k.version && '\n' !in k.version
  }

  lemma SameHead(a: string, sep: string, rest: string, a': string, rest': string)
    requires |sep| == 1 && sep[0] !in a && sep[0] !in a' && a + sep + rest == a' + sep + rest'
    ensures a == a' && rest == rest'
  {
    SplitOnceAt(a, sep, rest);
    SplitOnceAt(a', sep, rest');
  }

  lemma MaterialThen(k: Keyed, tail: string)
    ensures Material(k) + tail
         == k.path + "\0" + (k.contentHash + "\0" + (k.language + "\0" + (k.version + "\n" + tail)))
  {
  }

  lemma MaterialHeadInjective(x: Keyed, s: string, y: Keyed, t: string)
    requires Delimited(x) && Delimited(y) && Material(x) + s == Material(y) + t
    ensures x == y && s == t
  {
    MaterialThen(x, s);
    MaterialThen(y, t);
    var x3, y3 := x.version + "\n" + s, y.version + "\n" + t;
    var x2, y2 := x.language + "\0" + x3, y.language + "\0" + y3;
    SameHead(x.path, "\0", x.contentHash + "\0" + x2, y.path, y.contentHash + "\0" + y2);
    SameHead(x.contentHash, "\0", x2, y.contentHash, y2);
    SameHead(x.language, "\0", x3, y.language, y3);
    SameHead(x.version, "\n", s, y.version, t);
  }

  /** Two file lists with the same material are the same list. */
  lemma {:induction false} MaterialInjective(xs: seq<Keyed>, ys: seq<Keyed>)
    requires (forall k <- xs :: Delimited(k)) && (forall k <- ys :: Delimited(k))
    requires MaterialOf(xs) == MaterialOf(ys)
    ensures xs == ys
    decreases |xs|
  {
    if xs != [] && ys != [] {
      MaterialHeadInjective(xs[0], MaterialOf(xs[1..]), ys[0], MaterialOf(ys[1..]));
      MaterialInjective(xs[1..], ys[1..]);
      assert xs == [xs[0]] + xs[1..] && ys == [ys[0]] + ys[1..];
    }
  }
}
