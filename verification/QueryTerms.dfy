/** The terms a query is searched by: `query_terms` of lci-core/src/lexical.rs. */
module QueryTerms {
  import opened Identifiers
  import opened IndexSets
  import opened Masks
  import TermMatching

  const MIN_TERM_CHARS: nat := 3

  /** The character classes, lower-casing of a whole text and the stop words. */
  datatype Language = Language(classes: Classes, lowered: string -> string, stop: string -> bool)

  /** Lower-casing leaves no upper-case ASCII letter. */
  ghost predicate LowersAscii(l: Language) {
    forall s: string, i: nat :: i < |l.lowered(s)| ==> !TermMatching.AsciiUpper(l.lowered(s)[i])
  }

  predicate TokenChar(l: Language, c: char) {
    l.classes.alnum(c) || c == '_' || c == '#'
  }

  function WithoutHashes(s: string): string {
    if s != "" && s[0] == '#' then WithoutHashes(s[1..])
    else if s != "" && s[|s| - 1] == '#' then WithoutHashes(s[..|s| - 1])
    else s
  }

  /** The query split at characters no token holds, `token` being read. */
  function RawTokens(l: Language, query: string, token: string): seq<string>
    decreases |query|
  {
    if query == "" then [WithoutHashes(token)]
    else if TokenChar(l, query[0]) then RawTokens(l, query[1..], token + [query[0]])
    else [WithoutHashes(token)] + RawTokens(l, query[1..], "")
  }

  predicate Numeric(part: string) {
    forall i :: 0 <= i < |part| ==> Digit(part[i])
  }

  function LoweredParts(l: Language, parts: seq<string>): seq<string> {
    if parts == [] then []
    else (if Numeric(parts[0]) then [] else [l.lowered(parts[0])]) + LoweredParts(l, parts[1..])
  }

  /** What a token may contribute: itself, then its words. */
  function Offered(l: Language, raw: string): seq<string> {
    [l.lowered(raw)] + LoweredParts(l, Words(l.classes, raw, 0))
  }

  function AllOffered(l: Language, raws: seq<string>): seq<string> {
    if raws == [] then [] else Offered(l, raws[0]) + AllOffered(l, raws[1..])
  }

  predicate Usable(l: Language, term: string) {
    |term| >= MIN_TERM_CHARS && !l.stop(term)
  }

  function Added(l: Language, found: seq<string>, term: string): seq<string> {
    if Usable(l, term) && term !in found then found + [term] else found
  }

  /** `found`, then the usable terms offered, each where it first is. */
  function FirstSeen(l: Language, found: seq<string>, offered: seq<string>): seq<string>
    decreases |offered|
  {
    if offered == [] then found else FirstSeen(l, Added(l, found, offered[0]), offered[1..])
  }

  function Found(l: Language, query: string): seq<string> {
    FirstSeen(l, [], AllOffered(l, RawTokens(l, query, "")))
  }

  // ---------------------------------------------------------------- the longest

  predicate Longer(found: seq<string>, i: nat, j: nat)
    requires i < |found| && j < |found|
  {
    |found[i]| > |found[j]| || (|found[i]| == |found[j]| && i < j)
  }

  /** The indices of the longest terms, the earlier first among equals. */
  ghost predicate Longest(found: seq<string>, kept: set<nat>) {
    && kept <= Below(|found|)
    && |kept| == (if |found| > MAX_QUERY_TERMS then MAX_QUERY_TERMS else |found|)
    && forall i <- kept, j <- Below(|found|) - kept :: Longer(found, i, j)
  }

  function Picked(found: seq<string>, kept: set<nat>, i: nat): seq<string>
    requires i <= |found|
  {
    if i == 0 then []
    else Picked(found, kept, i - 1) + if i - 1 in kept then [found[i - 1]] else []
  }

  /** The terms of a query. */
  ghost predicate TermsOf(l: Language, query: string, terms: seq<string>) {
    var found := Found(l, query);
    exists kept :: Longest(found, kept) && terms == Picked(found, kept, |found|)
  }

  // ---------------------------------------------------------------- the procedure

  ghost predicate ByLength(found: seq<string>, order: seq<nat>) {
    && (forall i :: 0 <= i < |order| ==> order[i] < |found|)
    && (forall i, j :: 0 <= i < j < |order| ==> Longer(found, order[i], order[j]))
  }

  method InsertByLength(found: seq<string>, order: seq<nat>, x: nat) returns (r: seq<nat>)
    requires x == |order| < |found| && ByLength(found, order) && forall y: nat :: y in order <==> y < x
    ensures |r| == x + 1 && ByLength(found, r) && forall y: nat :: y in r <==> y < x + 1
  {
    var k := |order|;
    while k > 0 && |found[x]| > |found[order[k - 1]]|
      invariant 0 <= k <= |order|
      invariant forall i :: k <= i < |order| ==> Longer(found, x, order[i])
    {
      k := k - 1;
    }
    if k > 0 { assert order[k - 1] in order; }
    r := order[..k] + [x] + order[k..];
    InsertedByLength(found, order, x, k);
  }

  lemma InsertedByLength(found: seq<string>, order: seq<nat>, x: nat, k: nat)
    requires x < |found| && k <= |order| && ByLength(found, order)
    requires k > 0 ==> Longer(found, order[k - 1], x)
    requires forall i :: k <= i < |order| ==> Longer(found, x, order[i])
    ensures var r := order[..k] + [x] + order[k..];
            ByLength(found, r) && forall y: nat :: y in r <==> y in order || y == x
  {
    forall i | 0 <= i < k
      ensures Longer(found, order[i], x)
    {
      if i < k - 1 { assert Longer(found, order[i], order[k - 1]); }
    }
  }

  method KeepLongest(found: seq<string>) returns (terms: seq<string>)
    ensures exists kept :: Longest(found, kept) && terms == Picked(found, kept, |found|)
  {
    if |found| <= MAX_QUERY_TERMS {
      AllPicked(found, |found|);
      assert Longest(found, Below(|found|));
      return found;
    }
    var order: seq<nat> := [];
    for x := 0 to |found|
      invariant |order| == x && ByLength(found, order) && forall y: nat :: y in order <==> y < x
    {
      order := InsertByLength(found, order, x);
    }
    ghost var sorted := order;
    order := order[..MAX_QUERY_TERMS];
    var kept := Elements(order);
    TopIsLongest(found, sorted);
    terms := [];
    for i := 0 to |found|
      invariant terms == Picked(found, kept, i)
    {
      if i in kept { terms := terms + [found[i]]; }
    }
  }

  lemma TopIsLongest(found: seq<string>, order: seq<nat>)
    requires |found| > MAX_QUERY_TERMS && |order| == |found| && ByLength(found, order)
    requires forall y: nat :: y in order <==> y < |found|
    ensures Longest(found, Elements(order[..MAX_QUERY_TERMS]))
  {
    var top := order[..MAX_QUERY_TERMS];
    forall i, j | 0 <= i < j < |top|
      ensures top[i] != top[j]
    {
      assert Longer(found, order[i], order[j]);
    }
    ElementCount(top);
    assert forall q :: 0 <= q < |top| ==> order[q] == top[q];
    forall i <- top, j <- Below(|found|) - Elements(top)
      ensures Longer(found, i, j)
    {
      var p :| 0 <= p < |top| && top[p] == i;
      assert j in order;
      var q :| 0 <= q < |order| && order[q] == j;
    }
  }

  lemma {:induction false} AllPicked(found: seq<string>, n: nat)
    requires n <= |found|
    ensures Picked(found, Below(|found|), n) == found[..n]
  {
    if n > 0 { AllPicked(found, n - 1); }
  }

  method QueryTermsOf(l: Language, query: string) returns (terms: seq<string>)
    ensures TermsOf(l, query, terms)
  {
    var seen: set<string> := {};
    var found: seq<string> := [];
    var raws := RawTokens(l, query, "");
    for i := 0 to |raws|
      invariant FirstSeen(l, found, AllOffered(l, raws[i..])) == Found(l, query)
      invariant seen == set t <- found
    {
      var offered := OfferedBy(l, raws[i]);
      assert raws[i..][1..] == raws[i + 1..];
      SeenInTwoParts(l, found, offered, AllOffered(l, raws[i + 1..]));
      found, seen := AddTerms(l, found, seen, offered);
    }
    terms := KeepLongest(found);
  }

  method AddTerms(l: Language, already: seq<string>, known: set<string>, offered: seq<string>)
    returns (found: seq<string>, seen: set<string>)
    requires known == set t <- already
    ensures found == FirstSeen(l, already, offered) && seen == set t <- found
  {
    found, seen := already, known;
    for j := 0 to |offered|
      invariant FirstSeen(l, found, offered[j..]) == FirstSeen(l, already, offered)
      invariant seen == set t <- found
    {
      var term := offered[j];
      assert offered[j..][0] == term && offered[j..][1..] == offered[j + 1..];
      if Usable(l, term) && term !in seen {
        seen := seen + {term};
        found := found + [term];
      }
    }
  }

  lemma {:induction false} SeenInTwoParts(l: Language, found: seq<string>, a: seq<string>, b: seq<string>)
    ensures FirstSeen(l, found, a + b) == FirstSeen(l, FirstSeen(l, found, a), b)
    decreases |a|
  {
    if a == [] {
      assert a + b == b;
    } else {
      assert (a + b)[1..] == a[1..] + b;
      SeenInTwoParts(l, Added(l, found, a[0]), a[1..], b);
    }
  }

  method OfferedBy(l: Language, raw: string) returns (offered: seq<string>)
    ensures offered == Offered(l, raw)
  {
    var parts := SplitIdentifier(l.classes, raw);
    offered := [l.lowered(raw)];
    for i := 0 to |parts|
      invariant offered + LoweredParts(l, parts[i..]) == Offered(l, raw)
    {
      assert parts[i..][1..] == parts[i + 1..];
      if !Numeric(parts[i]) { offered := offered + [l.lowered(parts[i])]; }
    }
  }

  // ---------------------------------------------------------------- what the terms are

  predicate Distinct(s: seq<string>) {
    forall i, j :: 0 <= i < j < |s| ==> s[i] != s[j]
  }

  lemma {:induction false} FirstSeenIsTheUsableSet(l: Language, found: seq<string>, offered: seq<string>)
    requires Distinct(found)
    ensures Distinct(FirstSeen(l, found, offered))
    ensures forall t :: t in FirstSeen(l, found, offered) <==> t in found || (t in offered && Usable(l, t))
    decreases |offered|
  {
    if offered != [] { FirstSeenIsTheUsableSet(l, Added(l, found, offered[0]), offered[1..]); }
  }

  lemma {:induction false} OfferedAreLowered(l: Language, parts: seq<string>)
    requires LowersAscii(l)
    ensures forall t <- LoweredParts(l, parts) :: TermMatching.Lowercase(t)
  {
    if parts != [] { OfferedAreLowered(l, parts[1..]); }
  }

  lemma {:induction false} AllOfferedAreLowered(l: Language, raws: seq<string>)
    requires LowersAscii(l)
    ensures forall t <- AllOffered(l, raws) :: TermMatching.Lowercase(t)
  {
    if raws != [] {
      OfferedAreLowered(l, Words(l.classes, raws[0], 0));
      AllOfferedAreLowered(l, raws[1..]);
    }
  }

  lemma {:induction false} PickedMembers(found: seq<string>, kept: set<nat>, n: nat)
    requires n <= |found|
    ensures forall t :: t in Picked(found, kept, n) <==> exists i: nat :: i < n && i in kept && found[i] == t
  {
    if n > 0 { PickedMembers(found, kept, n - 1); }
  }

  lemma DistinctWithOneMore(s: seq<string>, t: string)
    requires Distinct(s) && t !in s
    ensures Distinct(s + [t])
  {
  }

  lemma {:induction false} PickedDistinct(found: seq<string>, kept: set<nat>, n: nat)
    requires n <= |found| && Distinct(found)
    ensures Distinct(Picked(found, kept, n))
  {
    if n > 0 {
      PickedDistinct(found, kept, n - 1);
      PickedMembers(found, kept, n - 1);
      assert forall i: nat :: i < n - 1 ==> found[i] != found[n - 1];
      DistinctWithOneMore(Picked(found, kept, n - 1), found[n - 1]);
    }
  }

  function KeptBelow(kept: set<nat>, n: nat): nat {
    |kept * Below(n)|
  }

  lemma NoneBelow(kept: set<nat>)
    ensures KeptBelow(kept, 0) == 0
  {
    assert kept * Below(0) == {};
  }

  lemma OneMoreKept(kept: set<nat>, n: nat)
    ensures KeptBelow(kept, n + 1) == KeptBelow(kept, n) + if n in kept then 1 else 0
  {
    CountWithOne(kept, Below(n), n);
    assert Below(n + 1) == Below(n) + {n};
  }

  lemma {:induction false} PickedCount(found: seq<string>, kept: set<nat>, n: nat)
    requires n <= |found|
    ensures |Picked(found, kept, n)| == KeptBelow(kept, n)
    decreases n
  {
    if n == 0 {
      NoneBelow(kept);
    } else {
      PickedCount(found, kept, n - 1);
      OneMoreKept(kept, n - 1);
    }
  }

  lemma LongestAreListed(l: Language, query: string, terms: seq<string>)
    requires LowersAscii(l) && TermsOf(l, query, terms)
    ensures Distinct(terms) && |terms| <= MAX_QUERY_TERMS
    ensures forall t <- terms :: Usable(l, t) && TermMatching.Lowercase(t)
    ensures forall t <- terms :: t in AllOffered(l, RawTokens(l, query, ""))
    ensures forall t <- AllOffered(l, RawTokens(l, query, "")) :: Usable(l, t) && t !in terms ==>
              |terms| == MAX_QUERY_TERMS && forall k <- terms :: |k| >= |t|
  {
    var offered := AllOffered(l, RawTokens(l, query, ""));
    var found := Found(l, query);
    var kept :| Longest(found, kept) && terms == Picked(found, kept, |found|);
    FirstSeenIsTheUsableSet(l, [], offered);
    AllOfferedAreLowered(l, RawTokens(l, query, ""));
    PickedMembers(found, kept, |found|);
    PickedDistinct(found, kept, |found|);
    PickedCount(found, kept, |found|);
    assert kept * Below(|found|) == kept;
    forall t <- offered | Usable(l, t) && t !in terms
      ensures |terms| == MAX_QUERY_TERMS && forall k <- terms :: |k| >= |t|
    {
      assert t in found;
      var j :| 0 <= j < |found| && found[j] == t;
      assert j in Below(|found|) - kept;
      assert kept < Below(|found|);
      SmallerSet(kept, Below(|found|));
      forall k <- terms
        ensures |k| >= |t|
      {
        var i: nat :| i < |found| && i in kept && found[i] == k;
        assert Longer(found, i, j);
      }
    }
  }

  /** Every term is usable, in lower case, offered by the query and listed once, and there are at most
      24: all usable ones, unless there are more; then none left out is longer than one that is in. */
  lemma TermsAreTheLongestUsable(l: Language, query: string, terms: seq<string>)
    requires LowersAscii(l) && TermsOf(l, query, terms)
    ensures Distinct(terms) && |terms| <= 24
    ensures forall t <- terms :: |t| >= 3 && !l.stop(t) && TermMatching.Lowercase(t)
    ensures forall t <- terms :: t in AllOffered(l, RawTokens(l, query, ""))
    ensures forall t <- AllOffered(l, RawTokens(l, query, "")) :: |t| >= 3 && !l.stop(t) && t !in terms ==>
              |terms| == 24 && forall k <- terms :: |k| >= |t|
  {
    LongestAreListed(l, query, terms);
  }

  lemma {:induction false} SeenOnlyGrows(l: Language, found: seq<string>, offered: seq<string>)
    ensures found <= FirstSeen(l, found, offered)
    decreases |offered|
  {
    if offered != [] { SeenOnlyGrows(l, Added(l, found, offered[0]), offered[1..]); }
  }

  /** Where `t` is first offered. */
  function FirstAt(offered: seq<string>, t: string): (k: nat)
    requires t in offered
    ensures k < |offered| && offered[k] == t && forall j :: 0 <= j < k ==> offered[j] != t
  {
    if offered[0] == t then 0 else FirstAt(offered[1..], t) + 1
  }

  /** The terms found among the first offers come first, and are among those offers. */
  lemma FoundSoFar(l: Language, offered: seq<string>, n: nat)
    requires n <= |offered|
    ensures FirstSeen(l, [], offered[..n]) <= FirstSeen(l, [], offered)
    ensures forall t :: t in FirstSeen(l, [], offered[..n]) <==> t in offered[..n] && Usable(l, t)
  {
    assert offered == offered[..n] + offered[n..];
    FirstSeenIsTheUsableSet(l, [], offered[..n]);
    SeenInTwoParts(l, [], offered[..n], offered[n..]);
    SeenOnlyGrows(l, FirstSeen(l, [], offered[..n]), offered[n..]);
  }

  /** By the time the later of two found terms is offered, so is the earlier. */
  lemma EarlierOffered(l: Language, offered: seq<string>, found: seq<string>, i: nat, j: nat, k: nat)
    requires found == FirstSeen(l, [], offered) && i < j < |found| && k < |offered| && offered[k] == found[j]
    requires Distinct(found) && Usable(l, found[j])
    ensures found[i] in offered[..k + 1]
  {
    assert offered[..k + 1][k] == found[j];
    FoundSoFar(l, offered, k + 1);
  }

  lemma FoundInOrder(l: Language, offered: seq<string>, found: seq<string>, i: nat, j: nat)
    requires found == FirstSeen(l, [], offered) && i < j < |found|
    ensures found[i] in offered && found[j] in offered && FirstAt(offered, found[i]) < FirstAt(offered, found[j])
  {
    FirstSeenIsTheUsableSet(l, [], offered);
    assert found[i] in found && found[j] in found && found[i] != found[j];
    var k := FirstAt(offered, found[j]);
    EarlierOffered(l, offered, found, i, j, k);
  }

  lemma {:induction false} PickedInOrder(found: seq<string>, kept: set<nat>, n: nat, p: nat, q: nat)
    returns (i: nat, j: nat)
    requires n <= |found| && p < q < |Picked(found, kept, n)|
    ensures i < j < n && found[i] == Picked(found, kept, n)[p] && found[j] == Picked(found, kept, n)[q]
    decreases n
  {
    var before := Picked(found, kept, n - 1);
    if q == |before| {
      PickedMembers(found, kept, n - 1);
      assert before[p] in before;
      i :| i < n - 1 && i in kept && found[i] == before[p];
      j := n - 1;
    } else {
      i, j := PickedInOrder(found, kept, n - 1, p, q);
    }
  }

  /** The terms keep the order in which the query first offers them. */
  lemma TermsKeepFirstSeenOrder(l: Language, query: string, terms: seq<string>, p: nat, q: nat)
    requires TermsOf(l, query, terms) && p < q < |terms|
    ensures var offered := AllOffered(l, RawTokens(l, query, ""));
      terms[p] in offered && terms[q] in offered && FirstAt(offered, terms[p]) < FirstAt(offered, terms[q])
  {
    var found := Found(l, query);
    var kept :| Longest(found, kept) && terms == Picked(found, kept, |found|);
    var i, j := PickedInOrder(found, kept, |found|, p, q);
    FoundInOrder(l, AllOffered(l, RawTokens(l, query, "")), found, i, j);
  }

  /** Of equally long terms the query's earlier are kept. */
  lemma EquallyLongKeepTheEarlier(l: Language, query: string, terms: seq<string>, t: string, k: string)
    requires TermsOf(l, query, terms) && k in terms && t !in terms && |t| == |k|
    requires t in AllOffered(l, RawTokens(l, query, "")) && |t| >= 3 && !l.stop(t)
    ensures k in AllOffered(l, RawTokens(l, query, ""))
    ensures FirstAt(AllOffered(l, RawTokens(l, query, "")), k) < FirstAt(AllOffered(l, RawTokens(l, query, "")), t)
  {
    var offered, found := AllOffered(l, RawTokens(l, query, "")), Found(l, query);
    var kept :| Longest(found, kept) && terms == Picked(found, kept, |found|);
    FirstSeenIsTheUsableSet(l, [], offered);
    PickedMembers(found, kept, |found|);
    var i: nat :| i < |found| && i in kept && found[i] == k;
    assert Usable(l, t) && t in found;
    var j :| 0 <= j < |found| && found[j] == t;
    assert j in Below(|found|) - kept && Longer(found, i, j);
    FoundInOrder(l, offered, found, i, j);
  }

  /** The terms depend on the query alone: the longest are one set. */
  lemma TermsAreDetermined(l: Language, query: string, terms: seq<string>, terms': seq<string>)
    requires TermsOf(l, query, terms) && TermsOf(l, query, terms')
    ensures terms == terms'
  {
    var found := Found(l, query);
    var kept :| Longest(found, kept) && terms == Picked(found, kept, |found|);
    var kept' :| Longest(found, kept') && terms' == Picked(found, kept', |found|);
    if kept != kept' {
      SubsetOrNot(kept, kept');
      SubsetOrNot(kept', kept);
      var i :| i in kept && i !in kept';
      var j :| j in kept' && j !in kept;
      BothLonger(found, kept, kept', i, j);
    }
  }

  lemma BothLonger(found: seq<string>, kept: set<nat>, kept': set<nat>, i: nat, j: nat)
    requires Longest(found, kept) && Longest(found, kept')
    requires i in kept && i !in kept' && j in kept'
    ensures j in kept
  {
    assert Longer(found, i, j) ==> !Longer(found, j, i);
  }

  lemma SubsetOrNot(s: set<nat>, t: set<nat>)
    requires |s| == |t| && s != t
    ensures exists i :: i in s && i !in t
  {
    if s <= t { SmallerSet(s, t); }
  }

  /** So every list of terms meets what crediting lines asks of it. */
  lemma TermsCanBeCredited(l: Language, query: string, terms: seq<string>)
    requires LowersAscii(l) && TermsOf(l, query, terms)
    ensures |terms| <= WIDTH && forall t <- terms :: t != "" && TermMatching.Lowercase(t)
  {
    TermsAreTheLongestUsable(l, query, terms);
  }
}
