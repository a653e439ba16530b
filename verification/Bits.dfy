/** Bitwise arithmetic on machine words: a word of n bits is the low n bits of an integer in two's
    complement. */
module Bits {

  type byte = b: int | 0 <= b < 256

  type Bytes = seq<byte>

  function Pow2(n: nat): (p: nat)
    ensures p > 0
  {
    if n == 0 then 1 else 2 * Pow2(n - 1)
  }

  function Pow4(n: nat): (p: nat)
    ensures p > 0
  {
    if n == 0 then 1 else 4 * Pow4(n - 1)
  }

  /** The n low bits of v. */
  function Low(v: int, n: nat): (r: nat)
    decreases n
  {
    if n == 0 then 0 else v % 2 + 2 * Low(v / 2, n - 1)
  }

  /** v without its n low bits. */
  function Shr(v: int, n: nat): int
    decreases n
  {
    if n == 0 then v else Shr(v / 2, n - 1)
  }

  const TWO_32 := 0x1_0000_0000
  const TWO_63 := 0x8000_0000_0000_0000
  const TWO_64 := 0x1_0000_0000_0000_0000

  /** Arithmetic on 32-bit and 64-bit words wraps around. */
  function U32(v: int): nat {
    v % TWO_32
  }

  function U64(v: int): nat {
    v % TWO_64
  }

  predicate IsInt64(v: int) {
    -TWO_63 <= v < TWO_63
  }

  predicate IsWord(v: nat) {
    v < TWO_64
  }

  ghost predicate Words(vs: seq<nat>) {
    forall v :: v in vs ==> IsWord(v)
  }

  lemma {:induction false} U64Id(v: nat)
    requires v < TWO_64
    ensures U64(v) == v
  {
  }

  function And(a: nat, b: nat): nat {
    if a == 0 then 0 else (a % 2) * (b % 2) + 2 * And(a / 2, b / 2)
  }

  function Or(a: nat, b: nat): nat {
    if a == 0 then b else (if a % 2 + b % 2 > 0 then 1 else 0) + 2 * Or(a / 2, b / 2)
  }

  function Xor(a: nat, b: nat): nat {
    if a == 0 then b else (a % 2 + b % 2) % 2 + 2 * Xor(a / 2, b / 2)
  }

  function Shl(v: nat, n: nat): nat {
    v * Pow2(n)
  }

  /** The number of bits needed to write v. */
  function BitLen(v: nat): nat {
    if v == 0 then 0 else 1 + BitLen(v / 2)
  }

  lemma {:induction false} LowBound(v: int, n: nat)
    ensures Low(v, n) < Pow2(n)
    decreases n
  {
    if n > 0 {
      LowBound(v / 2, n - 1);
    }
  }

  lemma {:induction false} LowId(v: nat, n: nat)
    requires v < Pow2(n)
    ensures Low(v, n) == v
  {
    if n > 0 {
      LowId(v / 2, n - 1);
    }
  }

  lemma {:induction false} LowIsMod(v: int, n: nat)
    ensures Low(v, n) == v % Pow2(n)
    decreases n
  {
    if n > 0 {
      LowIsMod(v / 2, n - 1);
      LowBound(v / 2, n - 1);
      ModOfDoubled(v, Pow2(n - 1));
    }
  }

  lemma {:induction false} ModOfDoubled(v: int, p: nat)
    requires p > 0
    ensures v % (2 * p) == v % 2 + 2 * ((v / 2) % p)
  {
    var q, r := (v / 2) / p, (v / 2) % p;
    assert v / 2 == q * p + r;
    assert v == q * (2 * p) + (v % 2 + 2 * r);
    QuotientUnique(v, 2 * p, q, v % 2 + 2 * r);
  }

  lemma {:induction false} QuotientUnique(v: int, d: nat, q: int, r: nat)
    requires 0 <= r < d && v == q * d + r
    ensures v % d == r && v / d == q
  {
    var e := v / d - q;
    assert v == (v / d) * d + v % d;
    assert e * d == r - v % d by { Distribute(v / d, q, d); }
    if e != 0 {
      NonzeroMultiple(e, d);
    }
  }

  lemma {:induction false} NonzeroMultiple(e: int, d: nat)
    requires e != 0
    ensures e * d >= d || e * d + d <= 0
  {
    if e > 0 {
      AtLeastOnce(e, d);
    } else {
      AtLeastOnce(-e, d);
      assert (-e) * d == -(e * d);
    }
  }

  lemma {:induction false} Distribute(a: int, b: int, d: int)
    ensures (a - b) * d == a * d - b * d
  {
  }

  lemma {:induction false} AtLeastOnce(e: int, d: nat)
    requires e >= 1
    ensures e * d >= d
  {
    assert e * d == (e - 1) * d + d;
  }

  /** Wrapping keeps the low bits. */
  lemma {:induction false} U32Low(v: int, k: nat)
    requires k <= 32
    ensures Low(U32(v), k) == Low(v, k)
  {
    WrapLow(v, 32, k);
    Pow2Values();
  }

  lemma {:induction false} WrapLow(v: int, m: nat, k: nat)
    requires k <= m
    ensures Low(v % Pow2(m), k) == Low(v, k)
  {
    LowIsMod(v, m);
    LowOfLow(v, m, k);
  }

  lemma {:induction false} LowOfLow(v: int, m: nat, n: nat)
    requires n <= m
    ensures Low(Low(v, m), n) == Low(v, n)
    decreases n
  {
    if n > 0 {
      LowOfLow(v / 2, m - 1, n - 1);
      assert Low(v, m) % 2 == v % 2 && Low(v, m) / 2 == Low(v / 2, m - 1);
    }
  }

  /** The top bit of a word and the rest. */
  lemma {:induction false} LowTop(v: int, n: nat)
    ensures Low(v, n + 1) == (Shr(v, n) % 2) * Pow2(n) + Low(v, n)
    decreases n
  {
    if n > 0 {
      LowTop(v / 2, n - 1);
      var b := Shr(v, n) % 2;
      assert b == 0 || b == 1;
    }
  }

  /** Subtracting from all ones flips every bit, whatever lies above them. */
  lemma {:induction false} LowFlip(v: int, n: nat)
    ensures Low(Pow2(n) - 1 - v, n) == Pow2(n) - 1 - Low(v, n)
    decreases n
  {
    if n > 0 {
      LowFlip(v / 2, n - 1);
      var w := Pow2(n) - 1 - v;
      assert w == 2 * (Pow2(n - 1) - 1 - v / 2) + (1 - v % 2);
      assert w % 2 == 1 - v % 2 && w / 2 == Pow2(n - 1) - 1 - v / 2;
    }
  }

  lemma {:induction false} AndPow2(n: nat, v: nat)
    ensures And(Pow2(n), v) == (Shr(v, n) % 2) * Pow2(n)
  {
    if n == 0 {
      assert And(1, v) == v % 2 + 2 * And(0, v / 2);
    } else {
      AndPow2(n - 1, v / 2);
      var b := Shr(v, n) % 2;
      assert b == 0 || b == 1;
      assert Pow2(n) % 2 == 0 && Pow2(n) / 2 == Pow2(n - 1);
    }
  }

  lemma {:induction false} AndOne(v: nat)
    ensures And(1, v) == v % 2
  {
    assert And(1, v) == v % 2 + 2 * And(0, v / 2);
  }

  lemma {:induction false} XorStep(a: nat, b: nat)
    ensures Xor(a, b) == (a % 2 + b % 2) % 2 + 2 * Xor(a / 2, b / 2)
  {
    if a == 0 {
      assert Xor(0, b / 2) == b / 2;
    }
  }

  lemma {:induction false} LowDigit(c: nat, rest: nat)
    ensures (c % 2 + 2 * rest) % 2 == c % 2 && (c % 2 + 2 * rest) / 2 == rest
  {
  }

  lemma {:induction false} XorOdd(a: nat, b: nat)
    ensures Xor(a, b) % 2 == (a % 2 + b % 2) % 2
  {
    hide Xor;
    XorStep(a, b);
    LowDigit(a % 2 + b % 2, Xor(a / 2, b / 2));
  }

  lemma {:induction false} XorScaled(n: nat, a: nat, b: nat)
    ensures Xor(Pow2(n) * a, Pow2(n) * b) == Pow2(n) * Xor(a, b)
  {
    hide Xor;
    if n > 0 {
      var p := Pow2(n - 1);
      XorScaled(n - 1, a, b);
      TwiceProduct(p, a);
      TwiceProduct(p, b);
      XorDoubled(p * a, p * b);
      TwiceProduct(p, Xor(a, b));
    }
  }

  lemma {:induction false} TwiceProduct(p: nat, a: nat)
    ensures (2 * p) * a == 2 * (p * a)
  {
  }

  lemma {:induction false} XorDoubled(a: nat, b: nat)
    ensures Xor(2 * a, 2 * b) == 2 * Xor(a, b)
  {
    hide Xor;
    XorStep(2 * a, 2 * b);
  }

  lemma {:induction false} XorCommutes(a: nat, b: nat)
    ensures Xor(a, b) == Xor(b, a)
    decreases a + b
  {
    if a == 0 {
      XorZero(b);
    } else if b == 0 {
      XorZero(a);
    } else {
      XorCommutes(a / 2, b / 2);
    }
  }

  lemma {:induction false} XorZero(a: nat)
    ensures Xor(a, 0) == a
  {
    if a > 0 {
      XorZero(a / 2);
    }
  }

  lemma {:induction false} OrCommutes(a: nat, b: nat)
    ensures Or(a, b) == Or(b, a)
    decreases a + b
  {
    if a == 0 {
      OrZero(b);
    } else if b == 0 {
      OrZero(a);
    } else {
      OrCommutes(a / 2, b / 2);
    }
  }

  lemma {:induction false} OrZero(a: nat)
    ensures Or(a, 0) == a
  {
    if a > 0 {
      OrZero(a / 2);
    }
  }

  lemma {:induction false} XorNothing()
    ensures Xor(0, 0) == 0
  {
  }

  /** A word xor all ones is its complement. */
  lemma {:induction false} XorOnes(a: nat, n: nat)
    requires a < Pow2(n)
    ensures Xor(a, Pow2(n) - 1) == Pow2(n) - 1 - a
  {
    hide Xor;
    if n == 0 {
      assert Xor(0, 0) == 0 by { XorNothing(); }
    } else {
      var m := Pow2(n) - 1;
      XorOnes(a / 2, n - 1);
      LowDigit(1, Pow2(n - 1) - 1);
      XorStep(a, m);
    }
  }

  predicate Even(n: int) {
    n % 2 == 0
  }

  lemma {:induction false} EvenSum(a: int, b: int)
    requires Even(a)
    ensures Even(a + b) <==> Even(b)
  {
  }

  lemma {:induction false} EvenTwice(n: int)
    ensures Even(2 * n) && !Even(2 * n + 1)
  {
  }

  lemma {:induction false} Pow2Squared(n: nat)
    ensures Pow2(n) * Pow2(n) == Pow4(n)
  {
    if n > 0 {
      Pow2Squared(n - 1);
      SquareOfDoubled(Pow2(n - 1));
    }
  }

  lemma {:induction false} SquareOfDoubled(p: nat)
    ensures (2 * p) * (2 * p) == 4 * (p * p)
  {
  }

  lemma {:induction false} Pow2OfTwice(n: nat)
    ensures Pow2(2 * n) == Pow4(n)
  {
    if n > 0 {
      Pow2OfTwice(n - 1);
      assert Pow2(2 * n) == 2 * Pow2(2 * n - 1) == 4 * Pow2(2 * (n - 1));
    }
  }

  lemma {:induction false} Pow2Monotone(m: nat, n: nat)
    requires m <= n
    ensures Pow2(m) <= Pow2(n)
  {
    if m < n {
      Pow2Monotone(m, n - 1);
    }
  }

  lemma {:induction false} BitLenBounds(v: nat)
    requires v > 0
    ensures BitLen(v) > 0 && Pow2(BitLen(v) - 1) <= v < Pow2(BitLen(v))
  {
    if v > 1 {
      BitLenBounds(v / 2);
    }
  }

  lemma {:induction false} BitLenOf(v: nat, n: nat)
    requires Pow2(n) <= v < Pow2(n + 1)
    ensures BitLen(v) == n + 1
  {
    BitLenBounds(v);
    if BitLen(v) > n + 1 {
      Pow2Monotone(n + 1, BitLen(v) - 1);
    } else if BitLen(v) < n + 1 {
      Pow2Monotone(BitLen(v), n);
    }
  }

  lemma {:induction false} Pow2Values()
    ensures Pow2(32) == 0x1_0000_0000
    ensures Pow2(64) == 0x1_0000_0000_0000_0000
    ensures Pow2(63) == 0x8000_0000_0000_0000
    ensures Pow4(31) == 0x4000_0000_0000_0000
    ensures Pow4(32) == 0x1_0000_0000_0000_0000
  {
    assert Pow2(8) == 256;
    assert Pow2(16) == 65536;
    assert Pow2(24) == 0x100_0000;
    assert Pow2(32) == 0x1_0000_0000;
    assert Pow2(31) == 0x8000_0000;
    Pow2Squared(31);
    Pow2Squared(32);
    Pow2OfTwice(32);
    assert Pow2(64) == 2 * Pow2(63);
  }
}
