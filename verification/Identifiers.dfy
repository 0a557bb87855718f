/** Splitting identifiers into words: `split_identifier` of lci-core/src/lexical.rs. */
module Identifiers {
  datatype Classes = Classes(alnum: char -> bool, upper: char -> bool, lower: char -> bool)

  predicate Digit(c: char) {
    '0' <= c <= '9'
  }

  /** A word boundary between `previous` and `s[i]`. */
  predicate Boundary(u: Classes, previous: char, s: string, i: nat)
    requires i < |s|
  {
    || (u.lower(previous) && u.upper(s[i]))
    || (u.upper(previous) && u.upper(s[i]) && i + 1 < |s| && u.lower(s[i + 1]))
    || Digit(previous) != Digit(s[i])
  }

  method SplitIdentifier(u: Classes, s: string) returns (parts: seq<string>)
    ensures parts == Words(u, s, 0)
  {
    parts := [];
    var current := "";
    for i := 0 to |s|
      invariant |current| <= i && current == s[i - |current|..i]
      invariant current != "" ==> u.alnum(s[i - 1])
      invariant Words(u, s, 0) == parts + Continued(u, s, i - |current|, i)
    {
      var c := s[i];
      if !u.alnum(c) {
        if current != "" { parts := parts + [current]; }
        current := "";
      } else {
        if current != "" && Boundary(u, current[|current| - 1], s, i) {
          parts := parts + [current];
          current := "";
        }
        current := current + [c];
      }
    }
    if current != "" { parts := parts + [current]; }
  }

  // ---------------------------------------------------------------- words by position

  /** A word starts at `i`: looking only at the characters around it. */
  predicate StartsWord(u: Classes, s: string, i: nat)
    requires i < |s|
  {
    u.alnum(s[i]) && (i == 0 || !u.alnum(s[i - 1]) || Boundary(u, s[i - 1], s, i))
  }

  /** The first position from `i` on that does not carry on the word before it. */
  function WordEnd(u: Classes, s: string, i: nat): (end: nat)
    requires 0 < i <= |s|
    ensures i <= end <= |s|
    ensures forall j :: i <= j < end ==> u.alnum(s[j]) && !StartsWord(u, s, j)
    ensures end < |s| ==> !u.alnum(s[end]) || StartsWord(u, s, end)
    decreases |s| - i
  {
    if i < |s| && u.alnum(s[i]) && !StartsWord(u, s, i) then WordEnd(u, s, i + 1) else i
  }

  /** The words of `s` from `i` on, `i` not inside one. */
  function Words(u: Classes, s: string, i: nat): seq<string>
    requires i <= |s|
    decreases |s| - i
  {
    if i == |s| then []
    else if u.alnum(s[i]) then [s[i..WordEnd(u, s, i + 1)]] + Words(u, s, WordEnd(u, s, i + 1))
    else Words(u, s, i + 1)
  }

  /** The words of `s` from `i` on, when `s[start..i]` is the word being read. */
  function Continued(u: Classes, s: string, start: nat, i: nat): seq<string>
    requires start <= i <= |s|
  {
    if start == i then Words(u, s, i) else [s[start..WordEnd(u, s, i)]] + Words(u, s, WordEnd(u, s, i))
  }

  function Joined(parts: seq<string>): string {
    if parts == [] then "" else parts[0] + Joined(parts[1..])
  }

  function Alphanumerics(u: Classes, s: string): string {
    if s == "" then "" else (if u.alnum(s[0]) then [s[0]] else "") + Alphanumerics(u, s[1..])
  }

  lemma {:induction false} AllKept(u: Classes, s: string, n: nat)
    requires n <= |s| && forall j :: 0 <= j < n ==> u.alnum(s[j])
    ensures Alphanumerics(u, s) == s[..n] + Alphanumerics(u, s[n..])
    decreases n
  {
    if n > 0 {
      AllKept(u, s[1..], n - 1);
      assert s[1..][n - 1..] == s[n..];
      assert s[..n] == [s[0]] + s[1..][..n - 1];
    }
  }

  /** The words hold every letter and digit of the identifier, in order, and nothing else. */
  lemma {:induction false} WordsKeepText(u: Classes, s: string, i: nat)
    requires i <= |s|
    ensures Joined(Words(u, s, i)) == Alphanumerics(u, s[i..])
    ensures forall w <- Words(u, s, i) :: w != "" && forall c <- w :: u.alnum(c)
    decreases |s| - i
  {
    if i < |s| && u.alnum(s[i]) {
      var end := WordEnd(u, s, i + 1);
      WordsKeepText(u, s, end);
      AllKept(u, s[i..], end - i);
      assert s[i..][end - i..] == s[end..] && s[i..][..end - i] == s[i..end];
    } else if i < |s| {
      WordsKeepText(u, s, i + 1);
      assert s[i..][1..] == s[i + 1..];
    }
  }

  /** One word for each position from `i` on where a word starts, found by looking at every position. */
  function WordsByPosition(u: Classes, s: string, i: nat): seq<string>
    requires i <= |s|
    decreases |s| - i
  {
    if i == |s| then []
    else (if StartsWord(u, s, i) then [s[i..WordEnd(u, s, i + 1)]] else []) + WordsByPosition(u, s, i + 1)
  }

  lemma {:induction false} NoStartsWithin(u: Classes, s: string, i: nat, end: nat)
    requires i <= end <= |s| && forall j :: i <= j < end ==> !StartsWord(u, s, j)
    ensures WordsByPosition(u, s, i) == WordsByPosition(u, s, end)
    decreases end - i
  {
    if i < end { NoStartsWithin(u, s, i + 1, end); }
  }

  /** The words are cut exactly where a boundary is. */
  lemma {:induction false} WordsStartAtBoundaries(u: Classes, s: string, i: nat)
    requires i <= |s| && (i < |s| ==> !u.alnum(s[i]) || StartsWord(u, s, i))
    ensures Words(u, s, i) == WordsByPosition(u, s, i)
    decreases |s| - i
  {
    if i < |s| && u.alnum(s[i]) {
      var end := WordEnd(u, s, i + 1);
      NoStartsWithin(u, s, i + 1, end);
      WordsStartAtBoundaries(u, s, end);
    } else if i < |s| {
      assert i + 1 < |s| && u.alnum(s[i + 1]) ==> StartsWord(u, s, i + 1);
      WordsStartAtBoundaries(u, s, i + 1);
    }
  }
}
