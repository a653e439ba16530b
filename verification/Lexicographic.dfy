/** Lexicographic order on sequences, and sorting by it. */
module Lexicographic {
  import opened Bits

  ghost predicate StrictTotal<T(!new)>(less: (T, T) -> bool) {
    && (forall a :: !less(a, a))
    && (forall a, b, c :: less(a, b) && less(b, c) ==> less(a, c))
    && (forall a, b :: a == b || less(a, b) || less(b, a))
  }

  predicate LexLess<T(==)>(less: (T, T) -> bool, s: seq<T>, t: seq<T>) {
    if t == [] then false
    else if s == [] then true
    else less(s[0], t[0]) || (s[0] == t[0] && LexLess(less, s[1..], t[1..]))
  }

  lemma {:induction false} LexIrreflexive<T(!new)>(less: (T, T) -> bool, s: seq<T>)
    requires StrictTotal(less)
    ensures !LexLess(less, s, s)
  {
    if s != [] {
      LexIrreflexive(less, s[1..]);
    }
  }

  lemma {:induction false} LexTransitive<T(!new)>(less: (T, T) -> bool, s: seq<T>, t: seq<T>, u: seq<T>)
    requires StrictTotal(less)
    requires LexLess(less, s, t) && LexLess(less, t, u)
    ensures LexLess(less, s, u)
  {
    if s != [] && s[0] == t[0] == u[0] {
      LexTransitive(less, s[1..], t[1..], u[1..]);
    }
  }

  lemma {:induction false} LexConnected<T(!new)>(less: (T, T) -> bool, s: seq<T>, t: seq<T>)
    requires StrictTotal(less)
    ensures s == t || LexLess(less, s, t) || LexLess(less, t, s)
  {
    if s != [] && t != [] && s[0] == t[0] {
      LexConnected(less, s[1..], t[1..]);
      assert s == [s[0]] + s[1..] && t == [t[0]] + t[1..];
    }
  }

  lemma {:induction false} LexAsymmetric<T(!new)>(less: (T, T) -> bool, s: seq<T>, t: seq<T>)
    requires StrictTotal(less) && LexLess(less, s, t)
    ensures !LexLess(less, t, s)
  {
    if LexLess(less, t, s) {
      LexTransitive(less, s, t, s);
      LexIrreflexive(less, s);
    }
  }

  /** The order is decided at the first difference. */
  lemma {:induction false} LexAtDifference<T(!new)>(less: (T, T) -> bool, s: seq<T>, t: seq<T>, k: nat)
    requires k < |s| && k < |t|
    requires forall i :: 0 <= i < k ==> s[i] == t[i]
    requires less(s[k], t[k])
    ensures LexLess(less, s, t)
  {
    if k > 0 {
      LexAtDifference(less, s[1..], t[1..], k - 1);
    }
  }

  /** The order on bytes, by which byte strings are compared. */
  predicate ByteLess(a: byte, b: byte) {
    a < b
  }

  lemma {:induction false} ByteOrder()
    ensures StrictTotal(ByteLess)
  {
  }

  // ----- Sorting -----

  ghost predicate Ordered<T(!new)>(less: (T, T) -> bool, ss: seq<seq<T>>) {
    forall i, j :: 0 <= i < j < |ss| ==> !LexLess(less, ss[j], ss[i])
  }

  function Insert<T(==)>(less: (T, T) -> bool, s: seq<T>, ss: seq<seq<T>>): (r: seq<seq<T>>)
    ensures multiset(r) == multiset(ss) + multiset{s}
    ensures |r| == |ss| + 1
  {
    if ss == [] then [s]
    else if LexLess(less, ss[0], s) then
      assert ss == [ss[0]] + ss[1..];
      [ss[0]] + Insert(less, s, ss[1..])
    else [s] + ss
  }

  /** The sequences of ss in lexicographic order. */
  function Sort<T(==)>(less: (T, T) -> bool, ss: seq<seq<T>>): (r: seq<seq<T>>)
    ensures multiset(r) == multiset(ss)
    ensures |r| == |ss|
  {
    if ss == [] then []
    else
      assert ss == [ss[0]] + ss[1..];
      Insert(less, ss[0], Sort(less, ss[1..]))
  }

  lemma {:induction false} SortMember<T>(less: (T, T) -> bool, ss: seq<seq<T>>, s: seq<T>)
    ensures s in Sort(less, ss) <==> s in ss
  {
    assert s in multiset(Sort(less, ss)) <==> s in multiset(ss);
  }

  lemma {:induction false} InsertOrdered<T(!new)>(less: (T, T) -> bool, s: seq<T>, ss: seq<seq<T>>)
    requires StrictTotal(less) && Ordered(less, ss)
    ensures Ordered(less, Insert(less, s, ss))
  {
    var r := Insert(less, s, ss);
    if ss != [] {
      if LexLess(less, ss[0], s) {
        InsertOrdered(less, s, ss[1..]);
        forall j | 1 <= j < |r| ensures !LexLess(less, r[j], ss[0]) {
          assert r[j] in multiset(r[1..]);
          if r[j] == s {
            LexAsymmetric(less, ss[0], s);
          } else {
            assert r[j] in ss[1..];
          }
        }
      } else {
        forall j | 0 <= j < |ss| ensures !LexLess(less, ss[j], s) {
          if LexLess(less, ss[j], s) {
            LexConnected(less, ss[0], ss[j]);
            if LexLess(less, ss[0], ss[j]) {
              LexTransitive(less, ss[0], ss[j], s);
            }
          }
        }
      }
    }
  }

  lemma {:induction false} SortOrdered<T(!new)>(less: (T, T) -> bool, ss: seq<seq<T>>)
    requires StrictTotal(less)
    ensures Ordered(less, Sort(less, ss))
  {
    if ss != [] {
      SortOrdered(less, ss[1..]);
      InsertOrdered(less, ss[0], Sort(less, ss[1..]));
    }
  }

  lemma {:induction false} MultisetTail<T>(s: seq<T>)
    requires s != []
    ensures multiset(s[1..]) == multiset(s) - multiset{s[0]}
  {
    assert s == [s[0]] + s[1..];
  }

  /** The first of an ordered sequence is the least of its elements. */
  lemma {:induction false} FirstIsLeast<T(!new)>(less: (T, T) -> bool, ss: seq<seq<T>>, s: seq<T>)
    requires StrictTotal(less) && Ordered(less, ss) && s in ss
    ensures !LexLess(less, s, ss[0])
  {
    LexIrreflexive(less, s);
  }

  /** An ordered sequence is determined by its elements. */
  lemma {:induction false} OrderedUnique<T(!new)>(less: (T, T) -> bool, ss: seq<seq<T>>, tt: seq<seq<T>>)
    requires StrictTotal(less)
    requires Ordered(less, ss) && Ordered(less, tt) && multiset(ss) == multiset(tt)
    ensures ss == tt
  {
    hide StrictTotal, Ordered, LexLess;
    assert |ss| == |multiset(ss)| == |multiset(tt)| == |tt|;
    if ss != [] {
      SameFirst(less, ss, tt);
      MultisetTail(ss);
      MultisetTail(tt);
      OrderedTail(less, ss);
      OrderedTail(less, tt);
      OrderedUnique(less, ss[1..], tt[1..]);
      assert ss == [ss[0]] + ss[1..] && tt == [tt[0]] + tt[1..];
    }
  }

  lemma {:induction false} OrderedTail<T(!new)>(less: (T, T) -> bool, ss: seq<seq<T>>)
    requires ss != [] && Ordered(less, ss)
    ensures Ordered(less, ss[1..])
  {
    hide LexLess;
  }

  lemma {:induction false} SameFirst<T(!new)>(less: (T, T) -> bool, ss: seq<seq<T>>, tt: seq<seq<T>>)
    requires StrictTotal(less) && ss != [] && tt != []
    requires Ordered(less, ss) && Ordered(less, tt) && multiset(ss) == multiset(tt)
    ensures ss[0] == tt[0]
  {
    hide StrictTotal, Ordered, LexLess;
    assert ss[0] in multiset(tt) && tt[0] in multiset(ss);
    FirstIsLeast(less, ss, tt[0]);
    FirstIsLeast(less, tt, ss[0]);
    LexConnected(less, ss[0], tt[0]);
  }

  /** Sorting identifies exactly the rearrangements. */
  lemma {:induction false} SortIdentifiesMultisets<T(!new)>(less: (T, T) -> bool, ss: seq<seq<T>>, tt: seq<seq<T>>)
    requires StrictTotal(less)
    ensures Sort(less, ss) == Sort(less, tt) <==> multiset(ss) == multiset(tt)
  {
    SortOrdered(less, ss);
    SortOrdered(less, tt);
    if multiset(ss) == multiset(tt) {
      OrderedUnique(less, Sort(less, ss), Sort(less, tt));
    }
  }
}
