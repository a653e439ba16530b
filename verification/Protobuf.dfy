/** Protocol buffer fields as internal/minigen writes and reads them (mvt.go, pbf.go): zigzag integers,
    packed varints, appended fields and the walk over them. */
module Protobuf {
  import opened Bits
  import opened Options
  import opened Varint
  import opened Visitors

  // ----- Zigzag -----

  /** The signed reading of the low 64 bits. */
  function S64(v: int): (r: int)
    ensures IsInt64(r)
  {
    if v % TWO_64 < TWO_63 then v % TWO_64 else v % TWO_64 - TWO_64
  }

  /** An arithmetic shift by 63 leaves only the sign. */
  function SignWord(v: int): nat {
    U64(if v < 0 then -1 else 0)
  }

  function ZigzagEncode(v: int): nat
    requires IsInt64(v)
  {
    Xor(U64(2 * v), SignWord(v))
  }

  function Zigzag(u: nat): int {
    S64(Xor(u / 2, U64(-(u % 2 as int))))
  }

  /** Small numbers of either sign become small codes. */
  lemma {:induction false} ZigzagCode(v: int)
    requires IsInt64(v)
    ensures ZigzagEncode(v) == (if v >= 0 then 2 * v else -2 * v - 1) < TWO_64
  {
    hide Xor, Pow2;
    Pow2Values();
    if v >= 0 {
      XorZero(2 * v);
    } else {
      XorOnes(2 * v + TWO_64, 64);
    }
  }

  lemma {:induction false} ZigzagValue(u: nat)
    requires u < TWO_64
    ensures Zigzag(u) == if u % 2 == 0 then u / 2 else -(u / 2) - 1
  {
    hide Xor, Pow2;
    Pow2Values();
    if u % 2 == 0 {
      XorZero(u / 2);
    } else {
      XorOnes(u / 2, 64);
    }
  }

  /** The two are inverse on all 64-bit values. */
  lemma {:induction false} ZigzagInverse(v: int, u: nat)
    requires IsInt64(v) && u < TWO_64
    ensures Zigzag(ZigzagEncode(v)) == v
    ensures IsInt64(Zigzag(u)) && ZigzagEncode(Zigzag(u)) == u
  {
    hide ZigzagEncode, Zigzag;
    ZigzagCode(v);
    ZigzagValue(ZigzagEncode(v));
    ZigzagValue(u);
    ZigzagCode(Zigzag(u));
  }

  // ----- Varints at the front of a buffer -----

  /** The length of the varint that begins b, or 0 when b ends first. */
  function VarintLength(b: Bytes): (n: nat)
    ensures n <= |b|
    ensures n > 0 ==> Terminated(b, n)
    ensures n == 0 ==> forall k :: 0 <= k < |b| ==> b[k] >= 128
  {
    if b == [] then 0
    else if b[0] < 128 then 1
    else
      var n := VarintLength(b[1..]);
      if n == 0 then 0 else n + 1
  }

  /** Its value and length; more than ten bytes are refused. */
  function VarintAt(b: Bytes): (r: Option<(nat, nat)>)
    ensures r.Some? ==> 0 < r.value.1 <= |b|
  {
    var n := VarintLength(b);
    if 0 < n <= 10 then Some((U64(Value(b[..n])), n)) else None
  }

  /** What readVarint answers, in these terms. */
  lemma {:induction false} ReadIsVarintAt(b: Bytes, v: nat, n: int)
    requires n > 0 ==> n <= |b| && n <= 10 && Terminated(b, n) && v == U64(Value(b[..n]))
    requires n <= 0 ==> forall k :: 0 <= k < |b| && k < 10 ==> b[k] >= 128
    ensures VarintAt(b) == if n > 0 then Some((v, n)) else None
  {
    hide Value, U64;
    var m := VarintLength(b);
    assert n > 0 ==> b[n - 1] < 128;
    assert m > 0 ==> b[m - 1] < 128;
    if n > 0 && m > 0 {
      TerminatedOnce(b, m, n);
    }
  }

  lemma {:induction false} VarintAtEncoded(v: nat, tail: Bytes)
    requires v < TWO_64
    ensures VarintAt(Encoded(v) + tail) == Some((v, |Encoded(v)|))
  {
    hide Value, Pow2, Encoded;
    var e, b := Encoded(v), Encoded(v) + tail;
    Pow2Values();
    EncodedTerminated(v);
    EncodedLength(v, 0);
    assert forall k :: 0 <= k < |e| ==> b[k] == e[k];
    assert Terminated(b, |e|);
    if VarintLength(b) > 0 {
      TerminatedOnce(b, VarintLength(b), |e|);
    }
    assert b[..|e|] == e;
  }

  // ----- Packed varints -----

  lemma {:induction false} EncodedOne(v: nat)
    ensures EncodedAll([v]) == Encoded(v)
  {
    hide Encoded;
    assert EncodedAll([v][1..]) == [];
  }

  function Unpacked(b: Bytes): Option<seq<nat>> {
    if b == [] then Some([])
    else
      match VarintAt(b)
      case None => None
      case Some((v, n)) =>
        match Unpacked(b[n..])
        case None => None
        case Some(vs) => Some([v] + vs)
  }

  lemma {:induction false} UnpackedPacked(vs: seq<nat>)
    requires Words(vs)
    ensures Unpacked(EncodedAll(vs)) == Some(vs)
  {
    hide Encoded, VarintAt, Unpacked;
    if vs == [] {
      NothingUnpacked();
    } else {
      var rest := vs[1..];
      assert vs[0] in vs;
      UnpackedPacked(rest);
      VarintAtEncoded(vs[0], EncodedAll(rest));
      UnpackedCons(Encoded(vs[0]), vs[0], EncodedAll(rest));
      assert vs == [vs[0]] + rest;
    }
  }

  lemma {:induction false} NothingUnpacked()
    ensures Unpacked([]) == Some([])
  {
  }

  lemma {:induction false} UnpackedCons(e: Bytes, v: nat, rest: Bytes)
    requires e != [] && VarintAt(e + rest) == Some((v, |e|)) && Unpacked(rest).Some?
    ensures Unpacked(e + rest) == Some([v] + Unpacked(rest).value)
  {
    hide VarintAt;
    assert (e + rest)[|e|..] == rest;
  }

  /** A malformed buffer gives nothing at all. */
  method PackedVarints(b0: Bytes) returns (out: seq<nat>)
    ensures out == if Unpacked(b0).Some? then Unpacked(b0).value else []
  {
    hide VarintAt, Value, Terminated, U64;
    var b := b0;
    out := [];
    assert Unpacked(b0).Some? ==> out + Unpacked(b0).value == Unpacked(b0).value;
    while |b| > 0
      invariant Unpacked(b0) == if Unpacked(b).Some? then Some(out + Unpacked(b).value) else None
    {
      var v, n := ReadVarint(b);
      ReadIsVarintAt(b, v, n);
      if n <= 0 {
        return [];
      }
      assert Unpacked(b[n..]).Some? ==> out + ([v] + Unpacked(b[n..]).value) == out + [v] + Unpacked(b[n..]).value;
      out := out + [v];
      b := b[n..];
    }
  }

  // ----- Fields -----

  datatype Field =
    | Number(num: nat, v: nat)
    | Message(num: nat, value: Bytes)
    | Fixed64(num: nat, value: Bytes)
    | Fixed32(num: nat, value: Bytes)

  /** A field on the wire: a key that names its number and its type, and its value; only a message needs its
      length. Numbers and messages are what is written here, the other two may be met. */
  function EncodedField(f: Field): Bytes
    requires Written(f)
  {
    match f
    case Number(num, v) => Encoded(8 * num) + Encoded(v)
    case Fixed64(num, value) => Encoded(8 * num + 1) + value
    case Message(num, value) => Encoded(8 * num + 2) + (Encoded(|value|) + value)
    case Fixed32(num, value) => Encoded(8 * num + 5) + value
  }

  predicate Written(f: Field) {
    match f
    case Number(num, v) => 8 * num < TWO_64 && v < TWO_64
    case Fixed64(num, value) => 8 * num + 1 < TWO_64 && |value| == 8
    case Message(num, _) => 8 * num + 2 < TWO_64
    case Fixed32(num, value) => 8 * num + 5 < TWO_64 && |value| == 4
  }

  ghost predicate AllWritten(fs: seq<Field>) {
    forall i :: 0 <= i < |fs| ==> Written(fs[i])
  }

  function EncodedFields(fs: seq<Field>): Bytes
    requires AllWritten(fs)
  {
    if fs == [] then [] else EncodedField(fs[0]) + EncodedFields(fs[1..])
  }

  lemma {:induction false} EncodedFieldsAppend(a: seq<Field>, b: seq<Field>)
    requires AllWritten(a) && AllWritten(b)
    ensures AllWritten(a + b) && EncodedFields(a + b) == EncodedFields(a) + EncodedFields(b)
  {
    hide EncodedField, Written;
    if a == [] {
      assert a + b == b;
    } else {
      assert (a + b)[1..] == a[1..] + b;
      EncodedFieldsAppend(a[1..], b);
    }
  }

  lemma {:induction false} EncodedFieldsOne(f: Field)
    requires Written(f)
    ensures EncodedFields([f]) == EncodedField(f)
  {
    hide EncodedField;
    assert EncodedFields([f][1..]) == [];
  }

  lemma {:induction false} KeyWordIs(num: nat, wire: nat)
    requires wire < 8
    ensures Or(Shl(num, 3), wire) == 8 * num + wire
  {
    hide Or;
    assert Pow2(3) == 8;
    OrCommutes(Shl(num, 3), wire);
    OrDisjoint(wire, num, 3);
  }

  method AppendMessage(dst: Bytes, field: nat, value: Bytes) returns (out: Bytes)
    requires Written(Message(field, value))
    ensures out == dst + EncodedField(Message(field, value))
  {
    hide Encoded, Or;
    KeyWordIs(field, 2);
    out := AppendVarint(dst, Or(Shl(field, 3), 2));
    out := AppendVarint(out, |value|);
    out := out + value;
  }

  method AppendVarintField(dst: Bytes, field: nat, value: nat) returns (out: Bytes)
    requires Written(Number(field, value))
    ensures out == dst + EncodedField(Number(field, value))
  {
    hide Encoded;
    assert Pow2(3) == 8;
    out := AppendVarint(dst, Shl(field, 3));
    out := AppendVarint(out, value);
  }

  /** The field at the front of b and its length. */
  function FieldAt(b: Bytes): (r: Option<(Field, nat)>)
    ensures r.Some? ==> 0 < r.value.1 <= |b|
  {
    match VarintAt(b)
    case None => None
    case Some((key, n)) =>
      var num, rest := key / 8, b[n..];
      match key % 8
      case 0 =>
        (match VarintAt(rest)
         case None => None
         case Some((v, m)) => Some((Number(num, v), n + m)))
      case 1 => if |rest| < 8 then None else Some((Fixed64(num, rest[..8]), n + 8))
      case 2 =>
        (match VarintAt(rest)
         case None => None
         case Some((size, m)) =>
           if size > |rest| - m then None else Some((Message(num, rest[m..][..size]), n + m + size)))
      case 5 => if |rest| < 4 then None else Some((Fixed32(num, rest[..4]), n + 4))
      case _ => None
  }

  /** The fields up to the end, or up to the first that is malformed. */
  function Walk(b: Bytes): (seq<Field>, bool) {
    if b == [] then ([], true)
    else
      match FieldAt(b)
      case None => ([], false)
      case Some((f, n)) =>
        var (fs, ok) := Walk(b[n..]);
        ([f] + fs, ok)
  }

  lemma {:induction false} KeyRead(num: nat, wire: nat, rest: Bytes)
    requires wire < 8 && 8 * num + wire < TWO_64
    ensures var key, b := 8 * num + wire, Encoded(8 * num + wire) + rest;
            && VarintAt(b) == Some((key, |Encoded(key)|)) && b[|Encoded(key)|..] == rest
            && key / 8 == num && key % 8 == wire
  {
    hide Encoded, VarintAt;
    VarintAtEncoded(8 * num + wire, rest);
  }

  lemma {:induction false} NumberAt(num: nat, v: nat, tail: Bytes)
    requires Written(Number(num, v))
    ensures FieldAt(Encoded(8 * num) + (Encoded(v) + tail))
            == Some((Number(num, v), |Encoded(8 * num)| + |Encoded(v)|))
  {
    hide Encoded, VarintAt;
    KeyRead(num, 0, Encoded(v) + tail);
    VarintAtEncoded(v, tail);
  }

  lemma {:induction false} MessageAt(num: nat, value: Bytes, tail: Bytes)
    requires Written(Message(num, value)) && |value| < TWO_64
    ensures FieldAt(Encoded(8 * num + 2) + (Encoded(|value|) + (value + tail)))
            == Some((Message(num, value), |Encoded(8 * num + 2)| + |Encoded(|value|)| + |value|))
  {
    hide Encoded, VarintAt;
    var rest := Encoded(|value|) + (value + tail);
    KeyRead(num, 2, rest);
    VarintAtEncoded(|value|, value + tail);
    assert rest[|Encoded(|value|)|..] == value + tail;
    assert (value + tail)[..|value|] == value;
  }

  lemma {:induction false} FixedAt(num: nat, value: Bytes, tail: Bytes)
    ensures Written(Fixed64(num, value)) ==>
              FieldAt(Encoded(8 * num + 1) + (value + tail))
              == Some((Fixed64(num, value), |Encoded(8 * num + 1)| + 8))
    ensures Written(Fixed32(num, value)) ==>
              FieldAt(Encoded(8 * num + 5) + (value + tail))
              == Some((Fixed32(num, value), |Encoded(8 * num + 5)| + 4))
  {
    hide Encoded, VarintAt;
    assert (value + tail)[..|value|] == value;
    if Written(Fixed64(num, value)) {
      KeyRead(num, 1, value + tail);
    }
    if Written(Fixed32(num, value)) {
      KeyRead(num, 5, value + tail);
    }
  }

  lemma {:induction false} FieldAtEncoded(f: Field, tail: Bytes)
    requires Written(f) && (f.Message? ==> |f.value| < TWO_64)
    ensures FieldAt(EncodedField(f) + tail) == Some((f, |EncodedField(f)|))
  {
    hide Encoded, VarintAt, FieldAt;
    var b := EncodedField(f) + tail;
    match f {
      case Number(num, v) =>
        NumberAt(num, v, tail);
        assert b == Encoded(8 * num) + (Encoded(v) + tail);
      case Message(num, value) =>
        MessageAt(num, value, tail);
        assert b == Encoded(8 * num + 2) + (Encoded(|value|) + (value + tail));
      case Fixed64(num, value) =>
        FixedAt(num, value, tail);
        assert b == Encoded(8 * num + 1) + (value + tail);
      case Fixed32(num, value) =>
        FixedAt(num, value, tail);
        assert b == Encoded(8 * num + 5) + (value + tail);
    }
  }

  /** The walk gives every sequence of fields on the wire back, from any buffer a 64-bit length can
      measure. */
  lemma {:induction false} WalkRecovers(fs: seq<Field>)
    requires AllWritten(fs) && |EncodedFields(fs)| < TWO_64
    ensures Walk(EncodedFields(fs)) == (fs, true)
  {
    if fs != [] {
      var f, rest := fs[0], fs[1..];
      assert f.Message? ==> |f.value| < TWO_64;
      hide EncodedField, FieldAt, Written;
      WalkRecovers(rest);
      FieldAtEncoded(f, EncodedFields(rest));
      assert EncodedFields(fs)[|EncodedField(f)|..] == EncodedFields(rest);
      assert fs == [f] + rest;
    }
  }

  /** No field is shorter than its value, or empty. */
  lemma {:induction false} PartsFit(fs: seq<Field>)
    requires AllWritten(fs)
    ensures |fs| <= |EncodedFields(fs)|
    ensures forall i :: 0 <= i < |fs| && fs[i].Message? ==> |fs[i].value| < |EncodedFields(fs)|
  {
    hide Encoded;
    if fs != [] {
      PartsFit(fs[1..]);
      assert forall i :: 0 < i < |fs| ==> fs[i] == fs[1..][i - 1];
    }
  }

  lemma {:induction false} WalkStep(seen: seq<Field>, b: Bytes)
    requires b != []
    ensures match FieldAt(b)
            case None => Walk(b) == ([], false) && seen + [] == seen
            case Some((f, n)) =>
              && Walk(b).1 == Walk(b[n..]).1
              && seen + Walk(b).0 == (seen + [f]) + Walk(b[n..]).0
              && seen + [f] <= seen + Walk(b).0
  {
    hide FieldAt;
    match FieldAt(b) {
      case None =>
      case Some((f, n)) =>
        assert seen + ([f] + Walk(b[n..]).0) == (seen + [f]) + Walk(b[n..]).0;
    }
  }

  /** walkProto: every field in turn, until one is malformed or the visitor fails on one. */
  method WalkProto(b0: Bytes, fails: seq<Field> -> bool) returns (seen: seq<Field>, ok: bool)
    ensures Visits(Walk(b0).0, seen, fails)
    ensures ok <==> Walk(b0).1 && Passed(seen, fails)
  {
    hide FieldAt, Passed, Stopped, Walk;
    var b := b0;
    seen := [];
    NothingSeen(fails);
    WalkNothing();
    assert [] + Walk(b0).0 == Walk(b0).0;
    while |b| > 0
      invariant seen + Walk(b).0 == Walk(b0).0 && Walk(b).1 == Walk(b0).1 && Passed(seen, fails)
    {
      WalkStep(seen, b);
      var f, n := NextField(b);
      if n == 0 {
        return seen, false;
      }
      PassedNext(seen, f, fails);
      PassedNotStopped(seen + [f], fails);
      seen := seen + [f];
      if fails(seen) {
        return seen, false;
      }
      b := b[n..];
    }
    assert seen + [] == seen;
    ok := true;
  }

  lemma {:induction false} WalkNothing()
    ensures Walk([]) == ([], true)
  {
  }

  /** One turn of the loop: the field and its length, or length 0. */
  method NextField(b0: Bytes) returns (f: Field, length: nat)
    ensures FieldAt(b0) == if length > 0 then Some((f, length)) else None
    ensures length <= |b0|
  {
    hide VarintAt, Value, Terminated, U64;
    f, length := Number(0, 0), 0;
    var b := b0;
    var key, n := ReadVarint(b);
    ReadIsVarintAt(b, key, n);
    if n <= 0 {
      return;
    }
    b := b[n..];
    var num, wire := key / 8, key % 8;
    if wire == 0 {
      var v, m := ReadVarint(b);
      ReadIsVarintAt(b, v, m);
      if m <= 0 {
        return;
      }
      f, length := Number(num, v), n + m;
    } else if wire == 1 {
      if |b| < 8 {
        return;
      }
      f, length := Fixed64(num, b[..8]), n + 8;
    } else if wire == 2 {
      var size, m := ReadVarint(b);
      ReadIsVarintAt(b, size, m);
      if m <= 0 || size > |b| - m {
        return;
      }
      f, length := Message(num, b[m..][..size]), n + m + size;
    } else if wire == 5 {
      if |b| < 4 {
        return;
      }
      f, length := Fixed32(num, b[..4]), n + 4;
    }
  }
}
