/** The names of datasets (validateIdentifier of offline/types.go): text, judged without the white space
    around it. */
module Identifier {
  /** The white space of Unicode, which strings.TrimSpace takes off. */
  predicate IsSpace(c: char) {
    var u := c as int;
    || 0x09 <= u <= 0x0d || u == 0x20 || u == 0x85 || u == 0xa0 || u == 0x1680 || 0x2000 <= u <= 0x200a
    || u == 0x2028 || u == 0x2029 || u == 0x202f || u == 0x205f || u == 0x3000
  }

  predicate IsControl(c: char) {
    c as int < 0x20 || c as int == 0x7f
  }

  /** The bytes of a character in UTF-8. */
  function Width(c: char): nat {
    var u := c as int;
    if u < 0x80 then 1 else if u < 0x800 then 2 else if u < 0x1_0000 then 3 else 4
  }

  function ByteLength(s: string): nat {
    if s == [] then 0 else Width(s[0]) + ByteLength(s[1..])
  }

  function TrimLeft(s: string): string {
    if s != [] && IsSpace(s[0]) then TrimLeft(s[1..]) else s
  }

  function TrimRight(s: string): string {
    if s != [] && IsSpace(s[|s| - 1]) then TrimRight(s[..|s| - 1]) else s
  }

  function TrimSpace(s: string): string {
    TrimRight(TrimLeft(s))
  }

  /** From i to j is all of s but the white space around it. */
  ghost predicate Core(s: string, i: int, j: int) {
    && 0 <= i <= j <= |s|
    && (forall k :: 0 <= k < i || j <= k < |s| ==> IsSpace(s[k]))
    && (i < j ==> !IsSpace(s[i]) && !IsSpace(s[j - 1]))
  }

  /** A name: not only white space, not too long without the white space around it, and no control
      character inside. */
  ghost predicate Names(s: string, maxBytes: nat) {
    exists i, j :: Core(s, i, j) && Proper(s[i..j], maxBytes)
  }

  ghost predicate Proper(s: string, maxBytes: nat) {
    s != [] && ByteLength(s) <= maxBytes && forall k :: 0 <= k < |s| ==> !IsControl(s[k])
  }

  lemma {:induction false} LeftCore(s: string) returns (i: nat)
    ensures i <= |s| && TrimLeft(s) == s[i..]
    ensures (forall k :: 0 <= k < i ==> IsSpace(s[k])) && (i < |s| ==> !IsSpace(s[i]))
  {
    i := 0;
    if s != [] && IsSpace(s[0]) {
      i := LeftCore(s[1..]);
      i := i + 1;
    }
  }

  lemma {:induction false} RightCore(s: string) returns (j: nat)
    ensures j <= |s| && TrimRight(s) == s[..j]
    ensures (forall k :: j <= k < |s| ==> IsSpace(s[k])) && (j > 0 ==> !IsSpace(s[j - 1]))
  {
    j := |s|;
    if s != [] && IsSpace(s[|s| - 1]) {
      j := RightCore(s[..|s| - 1]);
      assert forall k :: j <= k < |s| - 1 ==> s[k] == s[..|s| - 1][k];
    }
  }

  /** Trimming finds the core ... */
  lemma {:induction false} TrimIsCore(s: string) returns (i: nat, j: nat)
    ensures Core(s, i, j) && TrimSpace(s) == s[i..j]
  {
    hide IsSpace, TrimLeft, TrimRight;
    i := LeftCore(s);
    var t := s[i..];
    var n := RightCore(t);
    j := i + n;
    assert t[..n] == s[i..j];
    forall k | j <= k < |s| ensures IsSpace(s[k]) {
      assert s[k] == t[k - i];
    }
    if n > 0 {
      assert t[0] == s[i] && t[n - 1] == s[j - 1];
    }
  }

  /** ... and there is only one, unless it is empty. */
  lemma {:induction false} CoreUnique(s: string, i: int, j: int, k: int, l: int)
    requires Core(s, i, j) && Core(s, k, l)
    ensures s[i..j] == s[k..l]
  {
    if i < j {
      assert k <= i && j <= l;
    }
    if k < l {
      assert i <= k && l <= j;
    }
  }

  lemma {:induction false} NamesIffTrimmed(s: string, maxBytes: nat)
    ensures Names(s, maxBytes) <==> Proper(TrimSpace(s), maxBytes)
  {
    hide Proper, TrimSpace, IsSpace;
    var i, j := TrimIsCore(s);
    if Names(s, maxBytes) {
      var k, l :| Core(s, k, l) && Proper(s[k..l], maxBytes);
      CoreUnique(s, i, j, k, l);
    }
  }

  /** Accepts exactly the names. */
  method Validate(value: string, maxBytes: nat) returns (ok: bool)
    ensures ok <==> Names(value, maxBytes)
  {
    hide Names, TrimSpace, ByteLength, IsControl;
    NamesIffTrimmed(value, maxBytes);
    var trimmed := TrimSpace(value);
    if |trimmed| == 0 || ByteLength(trimmed) > maxBytes {
      return false;
    }
    for i := 0 to |trimmed|
      invariant forall k :: 0 <= k < i ==> !IsControl(trimmed[k])
    {
      if IsControl(trimmed[i]) {
        return false;
      }
    }
    ok := true;
  }

  // ----- UTF-8 -----

  /** How many code points n bytes have room for: seven bits in one byte, and five more bits for each byte
      from eleven in two. */
  function Room(n: nat): nat {
    if n == 0 then 0 else if n == 1 then 128 else if n == 2 then 2048 else 32 * Room(n - 1)
  }

  /** A character takes the least number of bytes that have room for it (RFC 3629). */
  lemma {:induction false} WidthIsLeast(c: char)
    ensures 1 <= Width(c) <= 4 && Room(Width(c) - 1) <= c as int < Room(Width(c))
  {
    assert Room(3) == 0x1_0000 && Room(4) == 0x20_0000;
  }

  lemma {:induction false} ByteLengthConcat(s: string, t: string)
    ensures ByteLength(s + t) == ByteLength(s) + ByteLength(t)
    ensures forall c :: ByteLength([c]) == Width(c)
  {
    hide Width;
    if s == [] {
      assert s + t == t;
    } else {
      assert (s + t)[1..] == s[1..] + t;
      ByteLengthConcat(s[1..], t);
    }
  }

  /** The 25 characters with the property White_Space in the Unicode Character Database. */
  const WHITE_SPACE: string :=
    "\U{9}\U{A}\U{B}\U{C}\U{D}\U{20}\U{85}\U{A0}\U{1680}"
    + "\U{2000}\U{2001}\U{2002}\U{2003}\U{2004}\U{2005}\U{2006}\U{2007}\U{2008}\U{2009}\U{200A}"
    + "\U{2028}\U{2029}\U{202F}\U{205F}\U{3000}"

  lemma {:induction false} SpacesExact(c: char)
    ensures IsSpace(c) <==> c in WHITE_SPACE
  {
    if IsSpace(c) {
      var u := c as int;
      var i := if u <= 0x0d then u - 9 else if u == 0x20 then 5 else if u == 0x85 then 6 else if u == 0xa0 then 7
               else if u == 0x1680 then 8 else if u <= 0x200a then 9 + (u - 0x2000) else if u == 0x2028 then 20
               else if u == 0x2029 then 21 else if u == 0x202f then 22 else if u == 0x205f then 23 else 24;
      assert WHITE_SPACE[i] == c;
    }
  }
}
