/** What a query offers as terms: its tokens, and the words they are made of. */
module QueryOffers {
  import opened Identifiers
  import opened QueryTerms

  predicate Plain(l: Language, s: string) {
    forall i :: 0 <= i < |s| ==> l.classes.alnum(s[i]) || s[i] == '_' || s[i] == '#'
  }

  lemma {:induction false} TokenRead(l: Language, token: string, s: string, rest: string)
    requires Plain(l, s)
    ensures RawTokens(l, s + rest, token) == RawTokens(l, rest, token + s)
    decreases |s|
  {
    if s == "" {
      assert s + rest == rest && token + s == token;
    } else {
      assert (s + rest)[0] == s[0] && (s + rest)[1..] == s[1..] + rest;
      assert TokenChar(l, s[0]);
      assert token + [s[0]] + s[1..] == token + s;
      TokenRead(l, token + [s[0]], s[1..], rest);
    }
  }

  /** Tokens are runs of letters, digits, underscores and hashes; any other character ends one. */
  lemma TokensSplit(l: Language, s: string, separator: char, rest: string)
    requires Plain(l, s) && !Plain(l, [separator])
    ensures RawTokens(l, s, "") == [WithoutHashes(s)]
    ensures RawTokens(l, s + ([separator] + rest), "") == [WithoutHashes(s)] + RawTokens(l, rest, "")
  {
    assert "" + s == s && s + "" == s;
    TokenRead(l, "", s, "");
    TokenRead(l, "", s, [separator] + rest);
    assert [separator][0] == separator && !TokenChar(l, separator);
    assert ([separator] + rest)[1..] == rest;
  }

  predicate Hashes(s: string) {
    forall i :: 0 <= i < |s| ==> s[i] == '#'
  }

  /** Hashes go from both ends of a token and from nowhere else. */
  lemma {:induction false} HashesGo(front: string, s: string, back: string)
    requires Hashes(front) && Hashes(back) && (s == "" || (s[0] != '#' && s[|s| - 1] != '#'))
    ensures WithoutHashes(front + s + back) == s
    decreases |front| + |back|
  {
    var all := front + s + back;
    if front != "" {
      assert all[0] == '#' && all[1..] == front[1..] + s + back;
      HashesGo(front[1..], s, back);
    } else if back != "" && s != "" {
      assert all[0] == s[0] && all[|all| - 1] == '#' && all[..|all| - 1] == front + s + back[..|back| - 1];
      HashesGo(front, s, back[..|back| - 1]);
    } else if back != "" {
      assert all == back && all[1..] == back[1..] && front + s + back[1..] == back[1..];
      HashesGo(front, s, back[1..]);
    } else {
      assert all == s;
    }
  }

  predicate AllDigits(s: string) {
    forall i :: 0 <= i < |s| ==> '0' <= s[i] <= '9'
  }

  lemma {:induction false} LoweredPartsAre(l: Language, parts: seq<string>, t: string)
    ensures t in LoweredParts(l, parts) <==> exists w <- parts :: !AllDigits(w) && t == l.lowered(w)
  {
    if parts != [] {
      LoweredPartsAre(l, parts[1..], t);
      assert forall w :: w in parts <==> w == parts[0] || w in parts[1..];
      assert AllDigits(parts[0]) <==> Numeric(parts[0]);
    }
  }

  /** A query offers each of its tokens, and each word of a token that is not a number, in lower case, and
      nothing else. */
  lemma {:induction false} OfferedExactly(l: Language, raws: seq<string>, t: string)
    ensures t in AllOffered(l, raws) <==>
              exists raw <- raws ::
                t == l.lowered(raw) || exists w <- Words(l.classes, raw, 0) :: !AllDigits(w) && t == l.lowered(w)
  {
    if raws != [] {
      OfferedExactly(l, raws[1..], t);
      LoweredPartsAre(l, Words(l.classes, raws[0], 0), t);
      assert forall raw :: raw in raws <==> raw == raws[0] || raw in raws[1..];
    }
  }
}
