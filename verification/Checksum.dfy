/** The check of a tile against its checksum (offline/sync.go): a digest compared with its hexadecimal
    text without writing the text out. */
module Checksum {
  import opened Bits

  const DIGEST_SIZE := 32

  type Digest = d: Bytes | |d| == DIGEST_SIZE witness seq(DIGEST_SIZE, _ => 0)

  function HexDigit(n: nat): char
    requires n < 16
  {
    if n < 10 then '0' + n as char else 'a' + (n - 10) as char
  }

  /** The lower-case text of a digest, two digits a byte. */
  function Hex(d: Bytes): string {
    if d == [] then "" else [HexDigit(d[0] / 16), HexDigit(d[0] % 16)] + Hex(d[1..])
  }

  function Lower(c: char): char {
    if 'A' <= c <= 'F' then c - 'A' + 'a' else c
  }

  function LowerAll(s: string): (r: string)
    ensures |r| == |s|
  {
    seq(|s|, i requires 0 <= i < |s| => Lower(s[i]))
  }

  function HexNibble(c: char): nat {
    if '0' <= c <= '9' then c as int - '0' as int
    else if 'a' <= c <= 'f' then c as int - 'a' as int + 10
    else if 'A' <= c <= 'F' then c as int - 'A' as int + 10
    else 0xff
  }

  lemma {:induction false} NibbleIsDigit(c: char, n: nat)
    requires n < 16
    ensures HexNibble(c) == n <==> Lower(c) == HexDigit(n)
  {
  }

  lemma {:induction false} HexAt(d: Bytes, i: nat)
    requires i < |d|
    ensures |Hex(d)| == 2 * |d|
    ensures Hex(d)[2 * i] == HexDigit(d[i] / 16) && Hex(d)[2 * i + 1] == HexDigit(d[i] % 16)
  {
    hide HexDigit;
    if i > 0 {
      HexAt(d[1..], i - 1);
    } else if |d| > 1 {
      HexAt(d[1..], 0);
    } else {
      assert Hex(d[1..]) == "";
    }
  }

  /** The comparison accepts exactly the hexadecimal text of the digest, in either case. */
  method EqualDigestHex(digest: Digest, encoded: string) returns (equal: bool)
    requires |encoded| == 2 * DIGEST_SIZE
    ensures equal <==> LowerAll(encoded) == Hex(digest)
  {
    hide Hex, HexDigit, HexNibble, Lower;
    HexAt(digest, 0);
    for index := 0 to DIGEST_SIZE
      invariant forall j :: 0 <= j < 2 * index ==> LowerAll(encoded)[j] == Hex(digest)[j]
    {
      var value := digest[index];
      HexAt(digest, index);
      NibbleIsDigit(encoded[index * 2], value / 16);
      NibbleIsDigit(encoded[index * 2 + 1], value % 16);
      if HexNibble(encoded[index * 2]) != value / 16 || HexNibble(encoded[index * 2 + 1]) != value % 16 {
        assert LowerAll(encoded)[2 * index] != Hex(digest)[2 * index]
               || LowerAll(encoded)[2 * index + 1] != Hex(digest)[2 * index + 1];
        return false;
      }
    }
    return true;
  }

  /** What a checksum must be to pass: absent, or the digest in hexadecimal. */
  predicate Passes(digest: Digest, checksum: string) {
    checksum == "" || LowerAll(checksum) == Hex(digest)
  }

  method VerifyTile(digest: Digest, checksum: string) returns (ok: bool)
    ensures ok <==> Passes(digest, checksum)
  {
    HexAt(digest, 0);
    if checksum == "" {
      return true;
    }
    if |checksum| != DIGEST_SIZE * 2 {
      return false;
    }
    ok := EqualDigestHex(digest, checksum);
  }

  /** A text names one digest: a present checksum that passes for two digests makes them equal; and the
      text that is written for a digest passes for it. */
  lemma {:induction false} ChecksumIdentifies(d: Digest, e: Digest, checksum: string)
    ensures Passes(d, Hex(d))
    ensures checksum != "" && Passes(d, checksum) && Passes(e, checksum) ==> d == e
  {
    hide Hex, HexDigit, Lower;
    var text := LowerAll(Hex(d));
    HexAt(d, 0);
    forall i | 0 <= i < |text| ensures text[i] == Hex(d)[i] {
      HexAt(d, i / 2);
      DigitsDiffer(d[i / 2] / 16, 0);
      DigitsDiffer(d[i / 2] % 16, 0);
    }
    assert text == Hex(d);
    if checksum != "" && Passes(d, checksum) && Passes(e, checksum) {
      forall i | 0 <= i < DIGEST_SIZE ensures d[i] == e[i] {
        HexAt(d, i);
        HexAt(e, i);
        DigitsDiffer(d[i] / 16, e[i] / 16);
        DigitsDiffer(d[i] % 16, e[i] % 16);
      }
    }
  }

  lemma {:induction false} DigitsDiffer(m: nat, n: nat)
    requires m < 16 && n < 16
    ensures HexDigit(m) == HexDigit(n) <==> m == n
    ensures Lower(HexDigit(m)) == HexDigit(m)
  {
  }

  const HEX_DIGITS := "0123456789abcdef"

  /** The text has two digits for each byte, the higher one first, and reading ignores their case. */
  lemma {:induction false} HexText(d: Bytes, i: nat, c: char)
    requires i < |d|
    ensures |Hex(d)| == 2 * |d|
    ensures Hex(d)[2 * i] == HEX_DIGITS[d[i] / 16] && Hex(d)[2 * i + 1] == HEX_DIGITS[d[i] % 16]
    ensures (exists k :: 0 <= k < 6 && c == "ABCDEF"[k] && Lower(c) == "abcdef"[k]) || (c !in "ABCDEF" && Lower(c) == c)
  {
    hide Hex, HexDigit;
    HexAt(d, i);
    DigitOf(d[i] / 16);
    DigitOf(d[i] % 16);
    if 'A' <= c <= 'F' {
      var k := c as int - 'A' as int;
      assert c == "ABCDEF"[k] && Lower(c) == "abcdef"[k];
    }
  }

  lemma {:induction false} DigitOf(n: nat)
    requires n < 16
    ensures HexDigit(n) == HEX_DIGITS[n]
  {
  }
}
