/**
 * Bitwise arithmetic on unbounded naturals.
 *
 * The flow table does its index arithmetic on 32- and 64-bit unsigned
 * integers with `&`, `^` and shifts.  Those values are used as array
 * indices, so they are modelled here as naturals with bitwise operations
 * defined digit by digit in base 2.
 */
module Bits {

  /** Fixed-width unsigned integers of C and Go, as ranges of naturals. */
  type byte = x: int | 0 <= x < 0x100
  type u16 = x: int | 0 <= x < 0x1_0000
  type u32 = x: int | 0 <= x < 0x1_0000_0000
  type u48 = x: int | 0 <= x < 0x1_0000_0000_0000
  type u64 = x: int | 0 <= x < 0x1_0000_0000_0000_0000

  /** `x + 1` and `x - 1` on a 64-bit unsigned counter: they wrap around. */
  function Inc64(x: u64): (r: u64)
    ensures x < 0xffff_ffff_ffff_ffff ==> r == x + 1
    ensures x == 0xffff_ffff_ffff_ffff ==> r == 0
  {
    (x + 1) % 0x1_0000_0000_0000_0000
  }

  function Dec64(x: u64): (r: u64)
    ensures x > 0 ==> r == x - 1
    ensures x == 0 ==> r == 0xffff_ffff_ffff_ffff
  {
    (x - 1) % 0x1_0000_0000_0000_0000
  }

  /** Undoing a decrement with an increment gives back the counter. */
  lemma IncDec(x: u64)
    ensures Inc64(Dec64(x)) == x && Dec64(Inc64(x)) == x
  {
  }

  /** 2^k */
  function Pow2(k: nat): (r: nat)
    ensures r >= 1
  {
    if k == 0 then 1 else 2 * Pow2(k - 1)
  }

  /** Bitwise and of two naturals (C's `&`). */
  function And(a: nat, b: nat): nat
    decreases a
  {
    if a == 0 || b == 0 then 0
    else 2 * And(a / 2, b / 2) + (if a % 2 == 1 && b % 2 == 1 then 1 else 0)
  }

  /** Bitwise exclusive or of two naturals (C's `^`). */
  function Xor(a: nat, b: nat): nat
    decreases a + b
  {
    if a == 0 then b
    else if b == 0 then a
    else 2 * Xor(a / 2, b / 2) + (if a % 2 != b % 2 then 1 else 0)
  }

  /** Masking with `b` never yields more than `b`. */
  lemma {:induction false} AndBound(a: nat, b: nat)
    ensures And(a, b) <= b
  {
    if a != 0 && b != 0 {
      AndBound(a / 2, b / 2);
    }
  }

  /** x & x == x */
  lemma {:induction false} AndSelf(a: nat)
    ensures And(a, a) == a
  {
    if a != 0 {
      AndSelf(a / 2);
    }
  }

  /** `n != 0 && (n & (n - 1)) == 0`, the usual power-of-two test. */
  predicate IsPowerOf2(n: nat)
  {
    n != 0 && And(n, n - 1) == 0
  }

  lemma {:induction false} PowerClearsLowMask(k: nat)
    ensures And(Pow2(k), Pow2(k) - 1) == 0
  {
    if k > 0 {
      PowerClearsLowMask(k - 1);
      var m := Pow2(k - 1);
      assert Pow2(k) == 2 * m;
      assert (2 * m - 1) / 2 == m - 1;
    }
  }

  /** The power-of-two test accepts exactly the powers of two: `Pow2(k)` is one ... */
  lemma PowerIsPowerOf2(k: nat)
    ensures IsPowerOf2(Pow2(k))
  {
    PowerClearsLowMask(k);
  }

  /** ... and everything it accepts is `Pow2(k)` for some `k`. */
  lemma {:induction false} PowerOf2Exponent(n: nat) returns (k: nat)
    requires IsPowerOf2(n)
    ensures Pow2(k) == n
    decreases n
  {
    if n == 1 {
      k := 0;
    } else if n % 2 == 0 {
      var m := n / 2;
      assert n == 2 * m && n - 1 == 2 * (m - 1) + 1;
      DigitSplit(1, m - 1, 2);
      assert And(n, n - 1) == 2 * And(m, m - 1);
      var k' := PowerOf2Exponent(m);
      k := k' + 1;
    } else {
      var m := n / 2;
      assert n == 2 * m + 1 && n - 1 == 2 * m;
      assert And(n, n - 1) == 2 * And(m, m);
      AndSelf(m);
      assert false;
    }
  }

  lemma {:induction false} Pow2Monotone(i: nat, j: nat)
    requires i <= j
    ensures Pow2(i) <= Pow2(j)
    decreases j
  {
    if i < j {
      Pow2Monotone(i, j - 1);
    }
  }

  lemma {:induction false} Pow2Add(a: nat, b: nat)
    ensures Pow2(a + b) == Pow2(a) * Pow2(b)
    decreases b
  {
    if b > 0 {
      Pow2Add(a, b - 1);
      assert Pow2(a + b) == 2 * Pow2(a + b - 1);
    }
  }

  /** Bytes read as a little-endian number. */
  function LittleEndian(bs: seq<byte>): nat
  {
    if bs == [] then 0 else bs[0] + 0x100 * LittleEndian(bs[1..])
  }

  /** A number written as a low digit below `base` and a high part: both can be
      recovered from it. */
  lemma DigitSplit(lo: nat, hi: nat, base: nat)
    requires lo < base
    ensures (lo + base * hi) % base == lo && (lo + base * hi) / base == hi
  {
    var x := lo + base * hi;
    var q, r := x / base, x % base;
    MulSign(base, q - hi);
    assert base * (q - hi) == lo - r;
  }

  /** `base * d` is at least `base` for positive `d` and at most `-base` for negative `d`. */
  lemma {:induction false} MulSign(base: nat, d: int)
    ensures d >= 1 ==> base * d >= base
    ensures d <= -1 ==> base * d + base <= 0
    decreases if d < 0 then -d else d
  {
    if d > 1 {
      MulSign(base, d - 1);
      assert base * d == base * (d - 1) + base;
    } else if d < -1 {
      MulSign(base, d + 1);
      assert base * d == base * (d + 1) - base;
    }
  }

  /** The `n` low bytes of `x`, least significant first. */
  function LeBytes(x: nat, n: nat): (r: seq<byte>)
    ensures |r| == n
  {
    if n == 0 then [] else [x % 0x100] + LeBytes(x / 0x100, n - 1)
  }

  /** One step of reading bytes `i..` little-endian. */
  lemma LittleEndianStep(bs: seq<byte>, i: nat)
    requires i < |bs|
    ensures LittleEndian(bs[i..]) == bs[i] as int + 0x100 * LittleEndian(bs[i + 1..])
  {
    assert bs[i..][1..] == bs[i + 1..];
  }

  /** Reading bytes and writing them back gives the same bytes. */
  lemma {:induction false} LeBytesOfLittleEndian(bs: seq<byte>)
    ensures LeBytes(LittleEndian(bs), |bs|) == bs
  {
    if bs != [] {
      LeBytesOfLittleEndian(bs[1..]);
      DigitSplit(bs[0], LittleEndian(bs[1..]), 0x100);
    }
  }

  /** 256 to the power `n`: one more than the largest number `n` bytes hold. */
  function Pow256(n: nat): (r: nat)
    ensures r > 0
  {
    if n == 0 then 1 else 0x100 * Pow256(n - 1)
  }

  /** `n` bytes hold a number below 256^n. */
  lemma {:induction false} LittleEndianBound(bs: seq<byte>)
    ensures LittleEndian(bs) < Pow256(|bs|)
  {
    if bs != [] {
      LittleEndianBound(bs[1..]);
    }
  }

  /** Writing the `n` low bytes of a number below 256^n and reading them back gives
      the number. */
  lemma {:induction false} LittleEndianOfLeBytes(x: nat, n: nat)
    requires x < Pow256(n)
    ensures LittleEndian(LeBytes(x, n)) == x
  {
    if n > 0 {
      var q := x / 0x100;
      assert q < Pow256(n - 1);
      LittleEndianOfLeBytes(q, n - 1);
      assert LeBytes(x, n)[1..] == LeBytes(q, n - 1);
    }
  }

  /** The elements of `s` in the opposite order. */
  function Reverse<T>(s: seq<T>): (r: seq<T>)
    ensures |r| == |s| && forall i :: 0 <= i < |s| ==> r[i] == s[|s| - 1 - i]
  {
    if s == [] then [] else [s[|s| - 1]] + Reverse(s[..|s| - 1])
  }

  lemma ReverseCons<T>(x: T, s: seq<T>)
    ensures Reverse([x] + s) == Reverse(s) + [x]
  {
  }

  lemma ReverseReverse<T>(s: seq<T>)
    ensures Reverse(Reverse(s)) == s
  {
  }

  /** Bytes read as a big-endian number, the most significant first
      (`binary.BigEndian.Uint32` and `Uint16` of Go). */
  function BigEndian(bs: seq<byte>): nat
  {
    if bs == [] then 0 else 0x100 * BigEndian(bs[..|bs| - 1]) + bs[|bs| - 1]
  }

  /** Big-endian is little-endian read backwards. */
  lemma {:induction false} BigEndianIsReversed(bs: seq<byte>)
    ensures BigEndian(bs) == LittleEndian(Reverse(bs))
  {
    if bs != [] {
      BigEndianIsReversed(bs[..|bs| - 1]);
      assert Reverse(bs)[1..] == Reverse(bs[..|bs| - 1]);
    }
  }

  lemma BigEndianBound(bs: seq<byte>)
    ensures BigEndian(bs) < Pow256(|bs|)
  {
    BigEndianIsReversed(bs);
    LittleEndianBound(Reverse(bs));
  }
}
