/** The order of strings the sorts compare paths by. */
module TextOrder {
  /** Strings in code point order, as Rust orders them. */
  predicate TextLess(s: string, t: string) {
    if t == "" then false
    else if s == "" then true
    else s[0] < t[0] || (s[0] == t[0] && TextLess(s[1..], t[1..]))
  }

  lemma {:induction false} TextLessTotal(s: string, t: string)
    ensures s == t || TextLess(s, t) || TextLess(t, s)
    ensures !(TextLess(s, t) && TextLess(t, s)) && !TextLess(s, s)
    decreases |s|
  {
    if s != "" {
      TextLessTotal(s[1..], s[1..]);
      if t != "" {
        TextLessTotal(s[1..], t[1..]);
        if s[0] == t[0] && s[1..] == t[1..] { assert s == [s[0]] + s[1..] && t == [t[0]] + t[1..]; }
      }
    }
  }

  lemma {:induction false} TextLessTransitive(s: string, t: string, u: string)
    requires TextLess(s, t) && TextLess(t, u)
    ensures TextLess(s, u)
    decreases |s|
  {
    if s != "" && s[0] == t[0] == u[0] { TextLessTransitive(s[1..], t[1..], u[1..]); }
  }

  /** At the first place where they differ the smaller one ends or has the smaller code point. */
  ghost predicate SmallerAt(s: string, t: string, k: nat) {
    k <= |s| && k < |t| && s[..k] == t[..k] && (k == |s| || s[k] < t[k])
  }

  lemma {:induction false} TextLessExactly(s: string, t: string)
    ensures TextLess(s, t) <==> exists k: nat :: SmallerAt(s, t, k)
    decreases |s|
  {
    if s != "" && t != "" && s[0] == t[0] {
      TextLessExactly(s[1..], t[1..]);
      if k: nat :| SmallerAt(s[1..], t[1..], k) {
        assert s[..k + 1] == [s[0]] + s[1..][..k] && t[..k + 1] == [t[0]] + t[1..][..k];
        assert SmallerAt(s, t, k + 1);
      }
      if k: nat :| SmallerAt(s, t, k) {
        assert s[1..][..k - 1] == s[..k][1..] && t[1..][..k - 1] == t[..k][1..];
        assert SmallerAt(s[1..], t[1..], k - 1);
      }
    } else {
      assert TextLess(s, t) ==> SmallerAt(s, t, 0);
      if k: nat :| SmallerAt(s, t, k) {
        if k > 0 { assert s[..k][0] == t[..k][0]; }
      }
    }
  }
}
