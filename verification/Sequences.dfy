/** Facts about sequences and their multisets, used by the others. */
module Sequences {
  lemma {:induction false} Associate<T>(a: seq<T>, b: seq<T>, c: seq<T>)
    ensures a + (b + c) == (a + b) + c
  {
  }

  lemma {:induction false} NothingIn<T>(t: seq<T>)
    requires multiset(t) == multiset([])
    ensures t == []
  {
    assert |multiset(t)| == |t|;
  }

  lemma {:induction false} Occurs<T>(s: seq<T>, t: seq<T>) returns (k: nat)
    requires s != [] && multiset(s) == multiset(t)
    ensures k < |t| && t[k] == s[0]
  {
    assert s[0] in multiset(s);
    assert s[0] in t;
    k :| k < |t| && t[k] == s[0];
  }

  lemma {:induction false} Removed<T>(s: seq<T>, k: nat)
    requires k < |s|
    ensures multiset(s[..k] + s[k + 1..]) == multiset(s) - multiset{s[k]}
    ensures |s[..k] + s[k + 1..]| < |s|
  {
    assert s == s[..k] + [s[k]] + s[k + 1..];
  }
}
