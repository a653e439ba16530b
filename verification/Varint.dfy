/** Base-128 variable-length integers: appendVarint and readVarint of internal/minigen, and the
    standard library's PutUvarint and ReadUvarint that internal/pmtiles uses. */
module Varint {
  import opened Bits
  import opened Options

  // ----- Writing -----

  /** Seven bits a byte, lowest first; the top bit says that more follow. */
  function Encoded(v: nat): (bs: Bytes)
    ensures |bs| > 0
  {
    if v < 128 then [v] else [v % 128 + 128] + Encoded(v / 128)
  }

  method AppendVarint(dst: Bytes, v0: nat) returns (out: Bytes)
    ensures out == dst + Encoded(v0)
  {
    var v := v0;
    out := dst;
    while v >= 128
      invariant out + Encoded(v) == dst + Encoded(v0)
    {
      OrTopBit(v);
      assert out + ([v % 128 + 128] + Encoded(v / 128)) == (out + [v % 128 + 128]) + Encoded(v / 128);
      out := out + [Or(v % 256, 128)];
      v := v / 128;
    }
    out := out + [v];
  }

  lemma {:induction false} OrTopBit(v: nat)
    ensures Or(v % 256, 128) == v % 128 + 128
  {
    hide Or;
    var w := v % 128;
    assert v % 256 == w || v % 256 == w + 128;
    OrBelow(w, 7);
    assert Pow2(7) == 128;
  }

  /** Setting a bit above a number adds it; setting it again changes nothing. */
  lemma {:induction false} OrBelow(a: nat, n: nat)
    requires a < Pow2(n)
    ensures Or(a, Pow2(n)) == a + Pow2(n)
    ensures Or(a + Pow2(n), Pow2(n)) == a + Pow2(n)
  {
    hide Or;
    if n == 0 {
      OrSmall();
    } else {
      var p := Pow2(n - 1);
      OrBelow(a / 2, n - 1);
      OrStep(a, 2 * p);
      OrStep(a + 2 * p, 2 * p);
      EvenAdded(a, p);
      EvenAdded(0, p);
    }
  }

  lemma {:induction false} OrStep(a: nat, b: nat)
    ensures Or(a, b) == (if a % 2 + b % 2 > 0 then 1 else 0) + 2 * Or(a / 2, b / 2)
  {
    if a == 0 {
      assert Or(0, b / 2) == b / 2;
    }
  }

  lemma {:induction false} OrSmall()
    ensures Or(0, 1) == 1 && Or(1, 1) == 1
  {
    assert Or(0, 0) == 0;
  }

  lemma {:induction false} EvenAdded(a: nat, p: nat)
    ensures (a + 2 * p) / 2 == a / 2 + p && (a + 2 * p) % 2 == a % 2
    ensures a == 2 * (a / 2) + a % 2
  {
  }

  lemma {:induction false} OrDisjoint(a: nat, b: nat, n: nat)
    requires a < Pow2(n)
    ensures Or(a, b * Pow2(n)) == a + b * Pow2(n)
  {
    hide Or;
    if n == 0 || a == 0 {
      OrNothing(b * Pow2(n));
    } else {
      var p := Pow2(n - 1);
      TwiceProduct(p, b);
      OrDisjoint(a / 2, b, n - 1);
      OrStep(a, 2 * (p * b));
      EvenAdded(a, 0);
      EvenAdded(0, p * b);
    }
  }

  lemma {:induction false} OrNothing(b: nat)
    ensures Or(0, b) == b
  {
  }

  function EncodedAll(vs: seq<nat>): Bytes {
    if vs == [] then [] else Encoded(vs[0]) + EncodedAll(vs[1..])
  }

  lemma {:induction false} NothingEncoded()
    ensures EncodedAll([]) == []
  {
  }

  lemma {:induction false} EncodedEmpty(vs: seq<nat>)
    ensures EncodedAll(vs) == [] <==> vs == []
  {
    hide Encoded;
  }

  lemma {:induction false} EncodedAllConcat(vs: seq<nat>, ws: seq<nat>)
    ensures EncodedAll(vs + ws) == EncodedAll(vs) + EncodedAll(ws)
  {
    if vs == [] {
      assert vs + ws == ws;
    } else {
      assert (vs + ws)[1..] == vs[1..] + ws;
      EncodedAllConcat(vs[1..], ws);
    }
  }

  lemma {:induction false} EncodedAllAppend(vs: seq<nat>, v: nat)
    ensures EncodedAll(vs + [v]) == EncodedAll(vs) + Encoded(v)
  {
    EncodedAllConcat(vs, [v]);
    assert EncodedAll([v]) == Encoded(v) + EncodedAll([]);
  }

  // ----- Reading, as in pbf.go -----

  /** The number that the bytes spell, seven bits each. */
  function Value(bs: Bytes): nat {
    if bs == [] then 0 else bs[0] % 128 + 128 * Value(bs[1..])
  }

  /** The first n bytes make up one varint: all but the last are marked as continued. */
  ghost predicate Terminated(b: Bytes, n: nat) {
    0 < n <= |b| && b[n - 1] < 128 && forall k :: 0 <= k < n - 1 ==> b[k] >= 128
  }

  lemma {:induction false} ValueAppend(bs: Bytes, b: byte)
    ensures Value(bs + [b]) == Value(bs) + (b % 128) * Pow2(7 * |bs|)
    ensures Value(bs) < Pow2(7 * |bs|)
  {
    hide Pow2;
    if bs == [] {
      assert Value([b]) == b % 128 + 128 * Value([]);
      PowZero();
    } else {
      ValueAppend(bs[1..], b);
      assert (bs + [b])[1..] == bs[1..] + [b];
      var n := 7 * |bs[1..]|;
      Pow2Seven(n);
      assert 7 * |bs| == n + 7;
      ScaledBy128(b % 128, Pow2(n));
    }
  }

  lemma {:induction false} PowZero()
    ensures Pow2(0) == 1
  {
  }

  lemma {:induction false} ScaledBy128(d: nat, p: nat)
    ensures 128 * (d * p) == d * (128 * p)
  {
  }

  lemma {:induction false} Pow2Seven(n: nat)
    ensures Pow2(n + 7) == 128 * Pow2(n)
  {
    assert Pow2(n + 7) == 2 * Pow2(n + 6) == 4 * Pow2(n + 5) == 8 * Pow2(n + 4) == 16 * Pow2(n + 3);
    assert Pow2(n + 3) == 2 * Pow2(n + 2) == 4 * Pow2(n + 1) == 8 * Pow2(n);
  }

  /** A varint at the front of b: its value modulo 2^64 and its length, or 0 when b ends first, or -1
      when it runs past ten bytes. */
  method ReadVarint(b: Bytes) returns (v: nat, n: int)
    ensures n > 0 ==> n <= |b| && n <= 10 && Terminated(b, n) && v == U64(Value(b[..n]))
    ensures n <= 0 ==> v == 0 && forall k :: 0 <= k < |b| && k < 10 ==> b[k] >= 128
    ensures n < 0 <==> |b| > 10 && forall k :: 0 <= k < 10 ==> b[k] >= 128
  {
    v := 0;
    for i := 0 to |b|
      invariant i <= 10 && v == U64(Value(b[..i]))
      invariant forall k :: 0 <= k < i ==> b[k] >= 128
    {
      if i == 10 {
        return 0, -1;
      }
      var c := b[i];
      ShiftIn(v, b[..i], c);
      assert b[..i + 1] == b[..i] + [c];
      v := Or(v, U64(Shl(c % 128, 7 * i)));
      if c < 128 {
        return v, i + 1;
      }
    }
    return 0, 0;
  }

  /** Or-ing in the next seven bits adds them, up to the wrap at 64 bits. */
  lemma {:induction false} ShiftIn(v: nat, bs: Bytes, c: byte)
    requires |bs| < 10 && v == U64(Value(bs))
    ensures Or(v, U64(Shl(c % 128, 7 * |bs|))) == U64(Value(bs + [c]))
  {
    hide Or, Value, Pow2, U64, Shl;
    var n, d := 7 * |bs|, c % 128;
    ValueAppend(bs, c);
    ValueAppend(bs + [c], 0);
    assert 7 * |bs + [c]| == n + 7;
    ShiftedIs(d, n);
    if n < 63 {
      ShiftBelow(v, Value(bs), d, n);
    } else {
      assert n == 63;
      ShiftTop(v, Value(bs), d);
    }
  }

  lemma {:induction false} ShiftedIs(d: nat, n: nat)
    ensures Shl(d, n) == d * Pow2(n)
  {
  }

  lemma {:induction false} ShiftBelow(v: nat, w: nat, d: nat, n: nat)
    requires n + 7 <= 63 && v == U64(w) && w < Pow2(n) && w + d * Pow2(n) < Pow2(n + 7)
    ensures Or(v, U64(d * Pow2(n))) == U64(w + d * Pow2(n))
  {
    hide Or, Pow2, U64;
    Pow2Monotone(n, 63);
    Pow2Monotone(n + 7, 63);
    Pow2Values();
    var t := d * Pow2(n);
    U64Id(w);
    U64Id(t);
    U64Id(w + t);
    OrDisjoint(v, d, n);
  }

  lemma {:induction false} ShiftTop(v: nat, w: nat, d: nat)
    requires v == U64(w) && w < Pow2(63)
    ensures Or(v, U64(d * Pow2(63))) == U64(w + d * Pow2(63))
  {
    hide Or, Pow2, U64;
    Pow2Values();
    U64Id(w);
    WrapTop(0, d);
    WrapTop(w, d);
    OrDisjoint(w, d % 2, 63);
  }

  /** Only the lowest of seven bits stays below 64 when shifted by 63. */
  lemma {:induction false} WrapTop(v: nat, d: nat)
    requires v < Pow2(63)
    ensures U64(v + d * Pow2(63)) == v + (d % 2) * Pow2(63)
  {
    hide Pow2;
    Pow2Values();
    QuotientUnique(v + d * Pow2(63), TWO_64, d / 2, v + (d % 2) * Pow2(63));
  }

  lemma {:induction false} EncodedTerminated(v: nat)
    ensures Terminated(Encoded(v), |Encoded(v)|) && Value(Encoded(v)) == v
  {
    if v >= 128 {
      EncodedTerminated(v / 128);
      var bs := Encoded(v);
      assert bs[1..] == Encoded(v / 128);
      assert bs[0] % 128 == v % 128;
      forall k | 0 <= k < |bs| - 1 ensures bs[k] >= 128 {
        if k > 0 {
          assert bs[k] == bs[1..][k - 1];
        }
      }
    } else {
      assert Value([v]) == v % 128 + 128 * Value([]);
    }
  }

  lemma {:induction false} EncodedLength(v: nat, i: nat)
    requires i <= 9 && v < Pow2(64 - 7 * i)
    ensures |Encoded(v)| <= 10 - i
    decreases v
  {
    assert Pow2(1) == 2;
    if v >= 128 && i < 9 {
      Pow2Seven(64 - 7 * (i + 1));
      EncodedLength(v / 128, i + 1);
    }
  }

  lemma {:induction false} TerminatedOnce(b: Bytes, m: nat, n: nat)
    requires Terminated(b, m) && Terminated(b, n)
    ensures m == n
  {
  }

  /** Reading what was appended gives every 64-bit value back, and consumes exactly its bytes. */
  method ReadAppended(dst: Bytes, v: nat, tail: Bytes) returns (w: nat, n: int)
    requires v < TWO_64
    ensures w == v && n == |Encoded(v)|
  {
    Pow2Values();
    var out := AppendVarint(dst, v);
    var b := out[|dst|..] + tail;
    w, n := ReadVarint(b);
    assert b[..|Encoded(v)|] == Encoded(v);
    EncodedTerminated(v);
    EncodedLength(v, 0);
    assert forall k :: 0 <= k < |Encoded(v)| ==> b[k] == Encoded(v)[k];
    assert Terminated(b, |Encoded(v)|);
    TerminatedOnce(b, n, |Encoded(v)|);
  }

  // ----- Reading, as in encoding/binary -----

  /** The i-th byte of a varint on: its value and what is left of the input. More than ten bytes, or
      a tenth byte above one, would overflow 64 bits and is refused. */
  function UvarintFrom(b: Bytes, i: nat): Option<(nat, Bytes)> {
    if b == [] || i >= 10 then None
    else if b[0] < 128 then
      if i == 9 && b[0] > 1 then None else Some((b[0], b[1..]))
    else
      match UvarintFrom(b[1..], i + 1)
      case None => None
      case Some((v, rest)) => Some((b[0] % 128 + 128 * v, rest))
  }

  function Uvarint(b: Bytes): Option<(nat, Bytes)> {
    UvarintFrom(b, 0)
  }

  lemma {:induction false} UvarintFits(b: Bytes, i: nat)
    requires i <= 9
    ensures UvarintFrom(b, i).Some? ==>
              var (v, rest) := UvarintFrom(b, i).value; v < Pow2(64 - 7 * i) && |rest| < |b|
  {
    if b != [] {
      if b[0] < 128 {
        assert Pow2(1) == 2;
        if i < 9 {
          Pow2Monotone(7, 64 - 7 * i);
          assert Pow2(7) == 128;
        }
      } else if i < 9 {
        UvarintFits(b[1..], i + 1);
        Pow2Seven(64 - 7 * (i + 1));
      }
    }
  }

  lemma {:induction false} UvarintOfEncoded(v: nat, i: nat, tail: Bytes)
    requires i <= 9 && v < Pow2(64 - 7 * i)
    ensures UvarintFrom(Encoded(v) + tail, i) == Some((v, tail))
    decreases v
  {
    hide Pow2;
    var b := Encoded(v) + tail;
    PowOne();
    if v < 128 {
      assert b[1..] == tail;
    } else if i < 9 {
      Pow2Seven(64 - 7 * (i + 1));
      UvarintOfEncoded(v / 128, i + 1, tail);
      assert b[1..] == Encoded(v / 128) + tail;
    }
  }

  lemma {:induction false} PowOne()
    ensures Pow2(1) == 2
  {
  }

  /** Small numbers are one byte; 300 is the example of the Protocol Buffers encoding guide. */
  lemma {:induction false} EncodedExamples(v: nat)
    ensures v < 128 ==> Encoded(v) == [v]
    ensures Encoded(128) == [128, 1] && Encoded(300) == [172, 2]
  {
    assert Encoded(1) == [1] && Encoded(2) == [2];
  }

  // ----- What ReadUvarint accepts -----

  lemma {:induction false} TerminatedFirst(b: Bytes, n: nat)
    requires b != []
    ensures b[0] < 128 ==> (Terminated(b, n) <==> n == 1)
    ensures b[0] >= 128 ==> (Terminated(b, n) <==> n > 1 && Terminated(b[1..], n - 1))
  {
    if b[0] >= 128 && n > 1 && Terminated(b[1..], n - 1) {
      assert forall k :: 0 < k < n - 1 ==> b[k] == b[1..][k - 1];
    }
    if b[0] >= 128 && Terminated(b, n) {
      assert forall k :: 0 <= k < n - 2 ==> b[1..][k] == b[k + 1];
    }
  }

  lemma {:induction false} ValueFirst(b: Bytes, n: nat)
    requires 0 < n <= |b|
    ensures Value(b[..n]) == b[0] % 128 + 128 * Value(b[1..][..n - 1])
    ensures n == 1 ==> Value(b[..n]) == b[0] % 128
  {
    assert b[..n][1..] == b[1..][..n - 1];
  }

  /** The first n bytes spell v, with room for what is left of 64 bits after i bytes. */
  ghost predicate Spells(b: Bytes, i: nat, v: nat, rest: Bytes, n: nat)
    requires i <= 9
  {
    n <= 10 - i && Terminated(b, n) && rest == b[n..] && v == Value(b[..n]) < Pow2(64 - 7 * i)
  }

  lemma {:induction false} RoomShrinks(i: nat, d: nat, v: nat)
    requires i < 9 && d < 128
    ensures d + 128 * v < Pow2(64 - 7 * i) <==> v < Pow2(64 - 7 * (i + 1))
  {
    hide Pow2;
    Pow2Seven(64 - 7 * (i + 1));
  }

  lemma {:induction false} UvarintSpells(b: Bytes, i: nat) returns (n: nat)
    requires i <= 9 && UvarintFrom(b, i).Some?
    ensures Spells(b, i, UvarintFrom(b, i).value.0, UvarintFrom(b, i).value.1, n)
  {
    hide Pow2, Terminated, Value;
    UvarintFits(b, i);
    TerminatedFirst(b, 1);
    if b[0] < 128 {
      n := 1;
      ValueFirst(b, 1);
    } else {
      n := UvarintSpells(b[1..], i + 1);
      n := n + 1;
      TerminatedFirst(b, n);
      TerminatedInside(b[1..], n - 1);
      ValueFirst(b, n);
      assert b[1..][n - 1..] == b[n..];
    }
  }

  lemma {:induction false} TerminatedInside(b: Bytes, n: nat)
    requires Terminated(b, n)
    ensures 0 < n <= |b|
  {
  }

  lemma {:induction false} SpelledUvarint(b: Bytes, i: nat, v: nat, rest: Bytes, n: nat)
    requires i <= 9 && Spells(b, i, v, rest, n)
    ensures UvarintFrom(b, i) == Some((v, rest))
    decreases n
  {
    hide Pow2, Terminated, Value;
    TerminatedInside(b, n);
    TerminatedFirst(b, n);
    ValueFirst(b, n);
    if b[0] < 128 {
      PowOne();
    } else {
      assert i < 9;
      RoomShrinks(i, b[0] % 128, Value(b[1..][..n - 1]));
      assert b[1..][n - 1..] == b[n..];
      SpelledUvarint(b[1..], i + 1, Value(b[1..][..n - 1]), rest, n - 1);
    }
  }

  /** ReadUvarint accepts exactly the varints of ten bytes or less whose value is a 64-bit word. */
  lemma {:induction false} UvarintExact(b: Bytes, v: nat, rest: Bytes)
    ensures Uvarint(b) == Some((v, rest)) <==>
              exists n: nat :: n <= 10 && Terminated(b, n) && rest == b[n..] && v == Value(b[..n]) < TWO_64
  {
    Pow2Values();
    hide Pow2, Value, UvarintFrom;
    if Uvarint(b) == Some((v, rest)) {
      var n := UvarintSpells(b, 0);
    }
    if n: nat :| n <= 10 && Terminated(b, n) && rest == b[n..] && v == Value(b[..n]) < TWO_64 {
      SpelledUvarint(b, 0, v, rest, n);
    }
  }
}
