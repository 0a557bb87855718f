/** Where identifiers are split, family by family: parseConfig, HTTPServer, sha256, snake_case. */
module IdentifierWords {
  import opened Identifiers

  /** No letter is both cases, no digit is a letter with a case, and all of them are alphanumeric. */
  ghost predicate Consistent(u: Classes) {
    && (forall c :: u.upper(c) || u.lower(c) || '0' <= c <= '9' ==> u.alnum(c))
    && (forall c :: !(u.upper(c) && u.lower(c)))
    && (forall c :: '0' <= c <= '9' ==> !u.upper(c) && !u.lower(c))
  }

  predicate Lowers(u: Classes, s: string) {
    forall i :: 0 <= i < |s| ==> u.lower(s[i])
  }

  predicate Uppers(u: Classes, s: string) {
    forall i :: 0 <= i < |s| ==> u.upper(s[i])
  }

  predicate Digits(s: string) {
    forall i :: 0 <= i < |s| ==> '0' <= s[i] <= '9'
  }

  /** An upper-case letter and then lower-case ones. */
  predicate Capitalised(u: Classes, s: string) {
    |s| >= 2 && u.upper(s[0]) && Lowers(u, s[1..])
  }

  predicate OneWord(u: Classes, s: string) {
    s != "" && (Lowers(u, s) || Uppers(u, s) || Digits(s) || Capitalised(u, s))
  }

  /** A word of one family has no boundary inside. */
  lemma NoneInside(u: Classes, s: string, i: nat)
    requires Consistent(u) && OneWord(u, s) && 0 < i < |s|
    ensures u.alnum(s[i]) && u.alnum(s[i - 1]) && !Boundary(u, s[i - 1], s, i)
  {
    if Capitalised(u, s) { assert s[i] == s[1..][i - 1]; }
    if Capitalised(u, s) && i > 1 { assert s[i - 1] == s[1..][i - 2]; }
    if Capitalised(u, s) && i + 1 < |s| { assert s[i + 1] == s[1..][i]; }
  }

  /** `t` follows `s`, and the text turns from one word to the next where they meet. */
  predicate Turns(u: Classes, s: string, t: string) {
    && OneWord(u, s) && OneWord(u, t)
    && (|| ((Lowers(u, s) || Capitalised(u, s)) && u.upper(t[0]))
        || (Uppers(u, s) && Capitalised(u, t))
        || Digits(s) != Digits(t))
  }

  lemma BoundaryWhereTheyMeet(u: Classes, s: string, t: string)
    requires Consistent(u) && Turns(u, s, t)
    ensures var all := s + t; u.alnum(all[|s|]) && StartsWord(u, all, |s|)
  {
    var all := s + t;
    assert all[|s|] == t[0] && all[|s| - 1] == s[|s| - 1];
    if Capitalised(u, s) { assert s[|s| - 1] == s[1..][|s| - 2]; }
    if Capitalised(u, t) { assert all[|s| + 1] == t[1..][0]; }
  }

  /** The word at the front reaches to where the next begins. */
  lemma {:induction false} WordReaches(u: Classes, s: string, i: nat, end: nat)
    requires 0 < i <= end <= |s|
    requires forall j :: i <= j < end ==> u.alnum(s[j]) && !StartsWord(u, s, j)
    requires end < |s| ==> !u.alnum(s[end]) || StartsWord(u, s, end)
    ensures WordEnd(u, s, i) == end
    decreases end - i
  {
    if i < end { WordReaches(u, s, i + 1, end); }
  }

  lemma InsideFirst(u: Classes, s: string, t: string, i: nat)
    requires Consistent(u) && OneWord(u, s) && 0 < i < |s| && !(i == |s| - 1 && Uppers(u, s) && t != "" && u.lower(t[0]))
    ensures u.alnum((s + t)[i]) && !StartsWord(u, s + t, i)
  {
    NoneInside(u, s, i);
  }

  /** A text of one family is one word. */
  lemma OneWordStays(u: Classes, s: string)
    requires Consistent(u) && OneWord(u, s)
    ensures Words(u, s, 0) == [s]
  {
    forall i | 1 <= i < |s|
      ensures u.alnum(s[i]) && !StartsWord(u, s, i)
    {
      NoneInside(u, s, i);
    }
    if |s| > 1 { NoneInside(u, s, 1); }
    WordReaches(u, s, 1, |s|);
    assert s[0..|s|] == s;
  }

  lemma InsideSecond(u: Classes, s: string, t: string, i: nat)
    requires Consistent(u) && OneWord(u, t) && 0 < i < |t|
    ensures u.alnum((s + t)[|s| + i]) && !StartsWord(u, s + t, |s| + i)
  {
    NoneInside(u, t, i);
    assert (s + t)[|s| + i - 1] == t[i - 1];
    if i + 1 < |t| { assert (s + t)[|s| + i + 1] == t[i + 1]; }
  }

  /** A capital after lower case, a capitalised word after capitals, and digits beside letters begin a word. */
  lemma TurnsSplit(u: Classes, s: string, t: string)
    requires Consistent(u) && Turns(u, s, t)
    ensures Words(u, s + t, 0) == [s, t]
  {
    var all := s + t;
    BoundaryWhereTheyMeet(u, s, t);
    forall i | 1 <= i < |s|
      ensures u.alnum(all[i]) && !StartsWord(u, all, i)
    {
      InsideFirst(u, s, t, i);
    }
    WordReaches(u, all, 1, |s|);
    forall i | |s| + 1 <= i < |all|
      ensures u.alnum(all[i]) && !StartsWord(u, all, i)
    {
      InsideSecond(u, s, t, i - |s|);
    }
    WordReaches(u, all, |s| + 1, |all|);
    if |s| > 1 { NoneInside(u, s, 1); }
    assert u.alnum(all[0]) && all[0..|s|] == s && all[|s|..|all|] == t && Words(u, all, |all|) == [];
    assert Words(u, all, |s|) == [t];
  }

  /** A character that is no letter or digit separates words and is in none. */
  lemma SeparatorsSplit(u: Classes, s: string, separator: char, t: string)
    requires Consistent(u) && OneWord(u, s) && OneWord(u, t) && !u.alnum(separator)
    ensures Words(u, s + [separator] + t, 0) == [s, t]
  {
    var all := s + [separator] + t;
    forall i | 1 <= i < |s|
      ensures u.alnum(all[i]) && !StartsWord(u, all, i)
    {
      NoneInside(u, s, i);
    }
    WordReaches(u, all, 1, |s|);
    forall i | |s| + 2 <= i < |all|
      ensures u.alnum(all[i]) && !StartsWord(u, all, i)
    {
      NoneInside(u, t, i - |s| - 1);
    }
    WordReaches(u, all, |s| + 2, |all|);
    if |s| > 1 { NoneInside(u, s, 1); }
    if |t| > 1 { NoneInside(u, t, 1); }
    assert u.alnum(all[0]) && all[0..|s|] == s && all[|s|] == separator && all[|s| + 1] == t[0];
    assert u.alnum(t[0]) && all[|s| + 1..|all|] == t && Words(u, all, |all|) == [];
    assert Words(u, all, |s| + 1) == [t] && Words(u, all, |s|) == [t];
  }
}
