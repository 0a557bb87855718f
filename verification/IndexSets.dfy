/** Sizes of finite sets, for counting arguments over indices. */
module IndexSets {
  function Below(n: nat): (s: set<nat>)
    ensures |s| == n
    ensures forall j: nat :: j in s <==> j < n
  {
    if n == 0 then {} else Below(n - 1) + {n - 1}
  }

  lemma {:induction false} SmallerSet<T>(s: set<T>, t: set<T>)
    requires s < t
    ensures |s| < |t|
    decreases |s|
  {
    if s != {} {
      var x :| x in s;
      var y :| y in t && y !in s;
      assert y in t - {x} && y !in s - {x};
      SmallerSet(s - {x}, t - {x});
    }
  }

  lemma {:induction false} SubsetSize<T>(s: set<T>, t: set<T>)
    requires s <= t
    ensures |s| <= |t|
  {
    if s != t { SmallerSet(s, t); }
  }

  /** A one-to-one image has as many elements. */
  lemma {:induction false} ImageSize(s: set<nat>, f: map<nat, nat>, t: set<nat>)
    requires forall x <- s :: x in f && f[x] in t
    requires forall x <- s, y <- s :: f[x] == f[y] ==> x == y
    requires forall y <- t :: exists x <- s :: f[x] == y
    ensures |s| == |t|
    decreases |s|
  {
    if s == {} {
      if y :| y in t { assert false; }
    } else {
      var x :| x in s;
      forall y <- t - {f[x]}
        ensures exists z <- s - {x} :: f[z] == y
      {
        var z :| z in s && f[z] == y;
        assert z in s - {x};
      }
      ImageSize(s - {x}, f, t - {f[x]});
    }
  }

  function Elements(s: seq<nat>): set<nat> {
    set x <- s
  }

  lemma {:induction false} ElementCount(s: seq<nat>)
    requires forall i, j :: 0 <= i < j < |s| ==> s[i] != s[j]
    ensures |Elements(s)| == |s|
  {
    if s != [] {
      var last := s[|s| - 1];
      var front := s[..|s| - 1];
      ElementCount(front);
      assert last !in Elements(front);
      assert Elements(s) == Elements(front) + {last};
    }
  }

  lemma CountWithOne(s: set<nat>, t: set<nat>, x: nat)
    requires x !in t
    ensures |s * (t + {x})| == |s * t| + if x in s then 1 else 0
  {
    assert s * (t + {x}) == s * t + if x in s then {x} else {};
  }
}
