/** Ring assembly of multipolygon relations (internal/minigen/multipolygon.go): way chains joined end to
    end, either way round, into closed rings. */
module Multipolygon {
  import opened Bits

  type Id = int

  type Chain = c: seq<Id> | |c| >= 2 witness [0, 0]

  /** Two consecutive IDs of a chain, in either direction. */
  datatype Link = Link(low: Id, high: Id)

  function LinkOf(a: Id, b: Id): Link {
    if a <= b then Link(a, b) else Link(b, a)
  }

  function Links(c: seq<Id>): multiset<Link> {
    if |c| < 2 then multiset{} else multiset{LinkOf(c[0], c[1])} + Links(c[1..])
  }

  function AllLinks(cs: seq<Chain>): multiset<Link> {
    if cs == [] then multiset{} else Links(cs[0]) + AllLinks(cs[1..])
  }

  function Reversed(c: seq<Id>): (r: seq<Id>)
    ensures |r| == |c|
  {
    seq(|c|, i requires 0 <= i < |c| => c[|c| - 1 - i])
  }

  function Last(c: seq<Id>): Id
    requires c != []
  {
    c[|c| - 1]
  }

  predicate Closed(c: Chain) {
    c[0] == Last(c)
  }

  // ----- Joining two chains -----

  predicate Touches(c: Chain, v: Id) {
    c[0] == v || Last(c) == v
  }

  /** What follows v when c is walked from its end at v. */
  function Continuation(c: Chain, v: Id): seq<Id> {
    if c[0] == v then c[1..] else Reversed(c[..|c| - 1])
  }

  lemma {:induction false} LinksCons(c: seq<Id>)
    requires |c| >= 2
    ensures Links(c) == multiset{LinkOf(c[0], c[1])} + Links(c[1..])
  {
  }

  lemma {:induction false} LinksShort(c: seq<Id>)
    requires |c| < 2
    ensures Links(c) == multiset{}
  {
  }

  lemma {:induction false} SumsAssociate(a: multiset<Link>, b: multiset<Link>, c: multiset<Link>)
    ensures (a + b) + c == a + (b + c)
  {
  }

  lemma {:induction false} SumsCommute(a: multiset<Link>, b: multiset<Link>)
    ensures a + b == b + a && multiset{} + a == a && a + multiset{} == a
  {
  }

  lemma {:induction false} LinksJoin(a: seq<Id>, b: seq<Id>)
    requires a != []
    ensures Links(a + b) == Links(a) + Links([Last(a)] + b)
  {
    hide Links, LinkOf;
    if |a| == 1 {
      assert a + b == [Last(a)] + b;
      LinksShort(a);
      SumsCommute(Links(a + b), multiset{});
    } else {
      assert (a + b)[1..] == a[1..] + b;
      LinksCons(a);
      LinksCons(a + b);
      LinksJoin(a[1..], b);
      SumsAssociate(multiset{LinkOf(a[0], a[1])}, Links(a[1..]), Links([Last(a)] + b));
    }
  }

  lemma {:induction false} LinkOfPair(x: Id, y: Id)
    ensures Links([x] + [y]) == multiset{LinkOf(y, x)}
  {
    assert ([x] + [y])[1..] == [y];
  }

  lemma {:induction false} ReversedCons(c: seq<Id>)
    requires |c| >= 2
    ensures Reversed(c) == Reversed(c[1..]) + [c[0]] && Last(Reversed(c[1..])) == c[1]
  {
  }

  /** Walking a chain backwards crosses the same links. */
  lemma {:induction false} LinksReversed(c: seq<Id>)
    ensures Links(Reversed(c)) == Links(c)
  {
    hide Links, LinkOf, Reversed;
    if |c| < 2 {
      LinksShort(c);
      LinksShort(Reversed(c));
    } else {
      LinksReversed(c[1..]);
      ReversedCons(c);
      LinksJoin(Reversed(c[1..]), [c[0]]);
      LinkOfPair(c[1], c[0]);
      LinksCons(c);
      SumsCommute(Links(c[1..]), multiset{LinkOf(c[0], c[1])});
    }
  }

  /** Joined at an end, the chains' links add up and the far end becomes the new end. */
  lemma {:induction false} JoinLinks(a: Chain, c: Chain)
    requires Touches(c, Last(a))
    ensures var j := a + Continuation(c, Last(a));
            && Links(j) == Links(a) + Links(c) && j[0] == a[0]
            && Last(j) == (if c[0] == Last(a) then Last(c) else c[0])
  {
    var v := Last(a);
    LinksJoin(a, Continuation(c, v));
    if c[0] == v {
      assert [v] + c[1..] == c;
    } else {
      assert [v] + Reversed(c[..|c| - 1]) == Reversed(c);
      LinksReversed(c);
    }
  }

  // ----- One attempt -----

  /** The first chain that touches v, or the number of chains. */
  function Find(cs: seq<Chain>, v: Id): (i: nat)
    ensures i <= |cs|
    ensures i < |cs| ==> Touches(cs[i], v)
    ensures forall j :: 0 <= j < i ==> !Touches(cs[j], v)
  {
    if cs == [] || Touches(cs[0], v) then 0 else 1 + Find(cs[1..], v)
  }

  function Removed(cs: seq<Chain>, i: nat): (r: seq<Chain>)
    requires i < |cs|
    ensures |r| == |cs| - 1
  {
    cs[..i] + cs[i + 1..]
  }

  /** A path begun with one chain: where it ends, the chains it took and the chains left. */
  datatype Attempt = Attempt(path: Chain, members: seq<Chain>, rest: seq<Chain>)

  /** Extend the path while it is open and some chain touches its end. */
  function Extend(current: Chain, remaining: seq<Chain>): (r: Attempt)
    ensures |r.rest| <= |remaining|
    ensures Closed(r.path) || forall i :: 0 <= i < |r.rest| ==> !Touches(r.rest[i], Last(r.path))
    decreases |remaining|
  {
    var i := Find(remaining, Last(current));
    if Closed(current) || i == |remaining| then Attempt(current, [], remaining)
    else
      var r := Extend(current + Continuation(remaining[i], Last(current)), Removed(remaining, i));
      r.(members := [remaining[i]] + r.members)
  }

  /** All the attempts: each begins with the first chain that is left. */
  function Attempts(remaining: seq<Chain>): seq<Attempt>
    decreases |remaining|
  {
    if remaining == [] then []
    else
      var r := Extend(remaining[0], remaining[1..]);
      [r.(members := [remaining[0]] + r.members)] + Attempts(r.rest)
  }

  /** A ring is a path that closes with four IDs or more; the others are dropped. */
  predicate IsRing(c: Chain) {
    |c| >= 4 && Closed(c)
  }

  function Rings(attempts: seq<Attempt>): seq<seq<Id>> {
    if attempts == [] then []
    else (if IsRing(attempts[0].path) then [attempts[0].path] else []) + Rings(attempts[1..])
  }

  /** Chains of a single ID, or none, are ignored. */
  function Usable(chains: seq<seq<Id>>): seq<Chain> {
    if chains == [] then []
    else
      var n := |chains| - 1;
      Usable(chains[..n]) + if |chains[n]| >= 2 then [chains[n]] else []
  }

  // ----- Nothing is lost and nothing is used twice -----

  lemma {:induction false} RemovedLeaves(cs: seq<Chain>, i: nat)
    requires i < |cs|
    ensures multiset(cs) == multiset{cs[i]} + multiset(Removed(cs, i))
  {
    assert cs == cs[..i] + [cs[i]] + cs[i + 1..];
  }

  /** One join. */
  lemma {:induction false} ExtendStep(current: Chain, remaining: seq<Chain>)
    ensures var i := Find(remaining, Last(current));
            var r := Extend(current, remaining);
            if Closed(current) || i == |remaining| then r == Attempt(current, [], remaining)
            else
              var c := remaining[i];
              var next := Extend(current + Continuation(c, Last(current)), Removed(remaining, i));
              && r == next.(members := [c] + next.members)
              && multiset(r.members) == multiset{c} + multiset(next.members)
              && AllLinks(r.members) == Links(c) + AllLinks(next.members)
  {
    var i := Find(remaining, Last(current));
    if !Closed(current) && i < |remaining| {
      var c := remaining[i];
      var next := Extend(current + Continuation(c, Last(current)), Removed(remaining, i));
      assert ([c] + next.members)[1..] == next.members;
    }
  }

  lemma {:induction false} ExtendTakes(current: Chain, remaining: seq<Chain>)
    ensures var r := Extend(current, remaining);
            multiset(r.members) + multiset(r.rest) == multiset(remaining)
    decreases |remaining|
  {
    hide Links, AllLinks, Extend, Find, Continuation, Touches, Removed;
    ExtendStep(current, remaining);
    var i := Find(remaining, Last(current));
    if !Closed(current) && i < |remaining| {
      RemovedLeaves(remaining, i);
      ExtendTakes(current + Continuation(remaining[i], Last(current)), Removed(remaining, i));
    }
  }

  lemma {:induction false} NoLinks()
    ensures AllLinks([]) == multiset{}
  {
  }

  lemma {:induction false} ExtendCrosses(current: Chain, remaining: seq<Chain>)
    ensures var r := Extend(current, remaining);
            Links(r.path) == Links(current) + AllLinks(r.members) && r.path[0] == current[0]
    decreases |remaining|
  {
    hide Links, AllLinks, Extend, Find, Continuation, Touches, Removed;
    ExtendStep(current, remaining);
    var i := Find(remaining, Last(current));
    if Closed(current) || i == |remaining| {
      NoLinks();
      SumsCommute(Links(current), multiset{});
    } else {
      JoinLinks(current, remaining[i]);
      var joined := current + Continuation(remaining[i], Last(current));
      var next := Extend(joined, Removed(remaining, i));
      ExtendCrosses(joined, Removed(remaining, i));
      SumsAssociate(Links(current), Links(remaining[i]), AllLinks(next.members));
    }
  }

  /** The chains taken by the attempts together. */
  function Taken(attempts: seq<Attempt>): multiset<Chain> {
    if attempts == [] then multiset{} else multiset(attempts[0].members) + Taken(attempts[1..])
  }

  /** Every chain is taken by exactly one attempt, and each path crosses exactly the links of the chains
      it took. */
  lemma {:induction false} EachChainOnce(remaining: seq<Chain>)
    ensures Taken(Attempts(remaining)) == multiset(remaining)
    ensures forall i :: 0 <= i < |Attempts(remaining)| ==>
              Links(Attempts(remaining)[i].path) == AllLinks(Attempts(remaining)[i].members)
    decreases |remaining|
  {
    hide Extend, Links, AllLinks, Taken;
    if remaining == [] {
      NothingTaken();
    } else {
      var r := Extend(remaining[0], remaining[1..]);
      FirstAttempt(remaining);
      EachChainOnce(r.rest);
      var all, later := Attempts(remaining), Attempts(r.rest);
      assert all == [all[0]] + later;
      TakenCons(all[0], later);
      TakesAll(remaining, all[0].members, r.rest);
    }
  }

  lemma {:induction false} NothingTaken()
    ensures Taken([]) == multiset{}
  {
  }

  lemma {:induction false} TakenCons(first: Attempt, rest: seq<Attempt>)
    ensures Taken([first] + rest) == multiset(first.members) + Taken(rest)
  {
  }

  lemma {:induction false} TakesAll(remaining: seq<Chain>, members: seq<Chain>, rest: seq<Chain>)
    requires multiset(members) + multiset(rest) == multiset(remaining)
    ensures forall taken: multiset<Chain> :: taken == multiset(rest) ==>
              multiset(members) + taken == multiset(remaining)
  {
  }

  /** The first attempt takes its chains from those there are, and crosses their links. */
  lemma {:induction false} FirstAttempt(remaining: seq<Chain>)
    requires remaining != []
    ensures var r, first := Extend(remaining[0], remaining[1..]), Attempts(remaining)[0];
            && multiset(first.members) + multiset(r.rest) == multiset(remaining)
            && Links(first.path) == AllLinks(first.members)
  {
    hide Extend, Links;
    var r := Extend(remaining[0], remaining[1..]);
    ExtendTakes(remaining[0], remaining[1..]);
    ExtendCrosses(remaining[0], remaining[1..]);
    var members := [remaining[0]] + r.members;
    assert remaining == [remaining[0]] + remaining[1..];
    assert members[1..] == r.members;
  }

  /** Every ring is closed, has four IDs or more, and crosses exactly the links of some one attempt's
      chains; and every attempt that ends so is a ring. */
  lemma {:induction false} RingsAreAttempts(attempts: seq<Attempt>)
    ensures forall r :: r in Rings(attempts) <==>
              exists i :: 0 <= i < |attempts| && attempts[i].path == r && IsRing(attempts[i].path)
  {
    hide IsRing;
    if attempts != [] {
      var rest := attempts[1..];
      RingsAreAttempts(rest);
      assert forall i :: 0 <= i < |rest| ==> rest[i] == attempts[i + 1];
      forall r | exists i :: 0 <= i < |attempts| && attempts[i].path == r && IsRing(attempts[i].path)
        ensures r in Rings(attempts)
      {
        var i :| 0 <= i < |attempts| && attempts[i].path == r && IsRing(attempts[i].path);
        if i > 0 {
          assert rest[i - 1].path == r;
        }
      }
    }
  }

  // ----- When everything closes -----

  function EndsOf(c: Chain, v: Id): nat {
    (if c[0] == v then 1 else 0) + (if Last(c) == v then 1 else 0)
  }

  /** How many chain ends are at v. */
  function Ends(cs: seq<Chain>, v: Id): nat {
    if cs == [] then 0 else EndsOf(cs[0], v) + Ends(cs[1..], v)
  }

  ghost predicate EvenEnds(cs: seq<Chain>) {
    forall v :: Even(Ends(cs, v))
  }

  ghost predicate AllClose(attempts: seq<Attempt>) {
    forall i :: 0 <= i < |attempts| ==> Closed(attempts[i].path)
  }

  lemma {:induction false} EndsRemoved(cs: seq<Chain>, i: nat, v: Id)
    requires i < |cs|
    ensures Ends(cs, v) == EndsOf(cs[i], v) + Ends(Removed(cs, i), v)
  {
    hide EndsOf;
    if i == 0 {
      assert Removed(cs, 0) == cs[1..];
    } else {
      EndsRemoved(cs[1..], i - 1, v);
      assert Removed(cs, i) == [cs[0]] + Removed(cs[1..], i - 1);
    }
  }

  lemma {:induction false} UntouchedNoEnds(cs: seq<Chain>, v: Id)
    requires forall i :: 0 <= i < |cs| ==> !Touches(cs[i], v)
    ensures Ends(cs, v) == 0
  {
    if cs != [] {
      UntouchedNoEnds(cs[1..], v);
    }
  }

  /** Joins use up chain ends two at a time. */
  lemma {:induction false} ExtendParity(current: Chain, remaining: seq<Chain>, v: Id)
    ensures var r := Extend(current, remaining);
            Even(EndsOf(current, v) + Ends(remaining, v) - EndsOf(r.path, v) - Ends(r.rest, v))
    decreases |remaining|
  {
    hide Links, AllLinks, Extend, Find, Continuation, Ends;
    ExtendStep(current, remaining);
    var i := Find(remaining, Last(current));
    if !Closed(current) && i < |remaining| {
      var c := remaining[i];
      JoinLinks(current, c);
      hide Touches;
      ExtendParity(current + Continuation(c, Last(current)), Removed(remaining, i), v);
      EndsRemoved(remaining, i, v);
    }
  }

  /** Every path closes exactly when every ID is the end of an even number of chains: only then, the
      order of the chains not mattering, is no chain dropped for being open. */
  lemma {:induction false} AllCloseIffEvenEnds(remaining: seq<Chain>)
    ensures AllClose(Attempts(remaining)) <==> EvenEnds(remaining)
    decreases |remaining|
  {
    hide Extend, Ends, EndsOf, Touches;
    if remaining == [] {
      forall v ensures Even(Ends(remaining, v)) {
        UntouchedNoEnds(remaining, v);
      }
    } else {
      var first, rest := remaining[0], remaining[1..];
      var r := Extend(first, rest);
      AllCloseIffEvenEnds(r.rest);
      AttemptsCons(remaining);
      forall v ensures Closed(r.path) ==> (Even(Ends(remaining, v)) <==> Even(Ends(r.rest, v))) {
        FirstParity(remaining, v);
      }
      if !Closed(r.path) {
        OpenIsOdd(remaining);
      }
    }
  }

  lemma {:induction false} AttemptsCons(remaining: seq<Chain>)
    requires remaining != []
    ensures var r := Extend(remaining[0], remaining[1..]);
            AllClose(Attempts(remaining)) <==> Closed(r.path) && AllClose(Attempts(r.rest))
  {
    hide Extend;
    var r := Extend(remaining[0], remaining[1..]);
    var all, later := Attempts(remaining), Attempts(r.rest);
    assert all[0].path == r.path && forall i :: 0 <= i < |later| ==> all[i + 1] == later[i];
    if AllClose(all) {
      forall i | 0 <= i < |later| ensures Closed(later[i].path) {
        assert all[i + 1] == later[i];
      }
    }
  }

  lemma {:induction false} FirstParity(remaining: seq<Chain>, v: Id)
    requires remaining != []
    ensures var r := Extend(remaining[0], remaining[1..]);
            Even(Ends(remaining, v) - EndsOf(r.path, v) - Ends(r.rest, v))
            && (Closed(r.path) ==> (Even(Ends(remaining, v)) <==> Even(Ends(r.rest, v))))
  {
    hide Extend;
    ExtendParity(remaining[0], remaining[1..], v);
  }

  /** Where a path stays open an odd number of chains end. */
  lemma {:induction false} OpenIsOdd(remaining: seq<Chain>)
    requires remaining != [] && !Closed(Extend(remaining[0], remaining[1..]).path)
    ensures !EvenEnds(remaining)
  {
    hide Extend;
    var r := Extend(remaining[0], remaining[1..]);
    var v := Last(r.path);
    UntouchedNoEnds(r.rest, v);
    FirstParity(remaining, v);
    assert !Even(Ends(remaining, v));
  }

  // ----- The program -----

  method ReverseNodeIds(ids: seq<Id>) returns (out: seq<Id>)
    ensures out == Reversed(ids)
  {
    var a := new Id[|ids|];
    for i := 0 to |ids|
      invariant forall j :: 0 <= j < i ==> a[|ids| - 1 - j] == ids[j]
    {
      a[|ids| - 1 - i] := ids[i];
    }
    out := a[..];
    forall j | 0 <= j < |ids| ensures out[j] == Reversed(ids)[j] {
      assert a[|ids| - 1 - (|ids| - 1 - j)] == ids[|ids| - 1 - j];
    }
  }

  method FindChainFrom(remaining: seq<Chain>, tail: Id) returns (idx: int, next: seq<Id>)
    ensures var i := Find(remaining, tail);
            if i < |remaining| then idx == i && next == Continuation(remaining[i], tail) else idx == -1 && next == []
  {
    for i := 0 to |remaining|
      invariant forall j :: 0 <= j < i ==> !Touches(remaining[j], tail)
    {
      var c := remaining[i];
      if c[0] == tail {
        return i, c[1..];
      }
      if c[|c| - 1] == tail {
        next := ReverseNodeIds(c[..|c| - 1]);
        return i, next;
      }
    }
    return -1, [];
  }

  /** The rings emitted so far and those still to come are all the rings. */
  ghost predicate SoFar(rings: seq<seq<Id>>, remaining: seq<Chain>, all: seq<seq<Id>>) {
    rings + Rings(Attempts(remaining)) == all
  }

  method AssembleRings(chains: seq<seq<Id>>) returns (rings: seq<seq<Id>>)
    ensures rings == Rings(Attempts(Usable(chains)))
  {
    hide *;
    var remaining := UsableChains(chains);
    ghost var all := Rings(Attempts(Usable(chains)));
    rings := [];
    NoneSoFar(remaining);
    while |remaining| > 0
      invariant SoFar(rings, remaining, all)
      decreases |remaining|
    {
      ghost var before, emitted := remaining, rings;
      var current: seq<Id>;
      current, remaining := JoinFrom(remaining[0], remaining[1..]);
      OneMoreAttempt(emitted, before, current, remaining, all);
      if |current| >= 4 && current[0] == current[|current| - 1] {
        rings := rings + [current];
      }
    }
    AllSoFar(rings, remaining, all);
  }

  lemma {:induction false} NoneSoFar(remaining: seq<Chain>)
    ensures SoFar([], remaining, Rings(Attempts(remaining)))
  {
    hide Rings, Attempts;
    var all := Rings(Attempts(remaining));
    assert [] + all == all;
  }

  lemma {:induction false} AllSoFar(rings: seq<seq<Id>>, remaining: seq<Chain>, all: seq<seq<Id>>)
    requires SoFar(rings, remaining, all) && |remaining| == 0
    ensures rings == all
  {
    assert Rings(Attempts(remaining)) == [];
  }

  lemma {:induction false} OneMoreAttempt(rings: seq<seq<Id>>, remaining: seq<Chain>, current: seq<Id>,
                                          rest: seq<Chain>, all: seq<seq<Id>>)
    requires remaining != [] && SoFar(rings, remaining, all)
    requires current == Extend(remaining[0], remaining[1..]).path && rest == Extend(remaining[0], remaining[1..]).rest
    ensures |current| >= 2
    ensures var ring := |current| >= 4 && current[0] == current[|current| - 1];
            SoFar(if ring then rings + [current] else rings, rest, all)
  {
    hide Extend, Attempts, Rings;
    RingsCons(remaining);
    var later := Rings(Attempts(rest));
    assert rings + ([current] + later) == (rings + [current]) + later && [] + later == later;
  }

  method UsableChains(chains: seq<seq<Id>>) returns (remaining: seq<Chain>)
    ensures remaining == Usable(chains)
  {
    remaining := [];
    for i := 0 to |chains|
      invariant remaining == Usable(chains[..i])
    {
      assert chains[..i + 1][..i] == chains[..i];
      if |chains[i]| >= 2 {
        remaining := remaining + [chains[i]];
      }
    }
    assert chains[..|chains|] == chains;
  }

  /** The inner loop. A path that nothing continues is left open, and so dropped. */
  method JoinFrom(first: Chain, others: seq<Chain>) returns (current: seq<Id>, remaining: seq<Chain>)
    ensures current == Extend(first, others).path && remaining == Extend(first, others).rest
  {
    hide Continuation, Find, Links, AllLinks, Extend;
    current, remaining := first, others;
    while current[0] != current[|current| - 1]
      invariant |current| >= 2
      invariant Extend(current, remaining).path == Extend(first, others).path
      invariant Extend(current, remaining).rest == Extend(first, others).rest
      decreases |remaining|
    {
      ExtendStep(current, remaining);
      var idx, next := FindChainFrom(remaining, current[|current| - 1]);
      if idx < 0 {
        return;
      }
      current := current + next;
      remaining := remaining[..idx] + remaining[idx + 1..];
    }
    ExtendStep(current, remaining);
  }

  lemma {:induction false} RingsCons(remaining: seq<Chain>)
    requires remaining != []
    ensures var r := Extend(remaining[0], remaining[1..]);
            Rings(Attempts(remaining)) == (if IsRing(r.path) then [r.path] else []) + Rings(Attempts(r.rest))
  {
    hide Extend;
    var r := Extend(remaining[0], remaining[1..]);
    assert Attempts(remaining)[1..] == Attempts(r.rest);
  }

  // ----- Which chains take part -----

  /** Every chain of two IDs or more, as often as it is given, and no other. */
  lemma {:induction false} UsableExact(chains: seq<seq<Id>>, c: Chain)
    ensures multiset(Usable(chains))[c] == multiset(chains)[c]
  {
    if chains != [] {
      var n := |chains| - 1;
      UsableExact(chains[..n], c);
      assert chains == chains[..n] + [chains[n]];
    }
  }
}
