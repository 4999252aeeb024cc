/** The bit kernels of the machine on 64-bit words, against their bit-by-bit definitions. */
module Bits {

  // ---- leading zeros ----

  /** Zeros before the first one, counted one bit at a time over `n` bits. */
  function LeadingZeros(x: bv64, n: nat): nat
    decreases n
  {
    if n == 0 || x & 0x8000000000000000 != 0 then 0 else 1 + LeadingZeros(x << 1, n - 1)
  }

  lemma Leading1(x: bv64, n: nat)
    requires x <= 0x7FFFFFFFFFFFFFFF && n >= 1
    ensures LeadingZeros(x, n) == 1 + LeadingZeros(x << 1, n - 1)
  {
  }

  lemma Leading2(x: bv64, n: nat)
    requires x <= 0x3FFFFFFFFFFFFFFF && n >= 2
    ensures LeadingZeros(x, n) == 2 + LeadingZeros(x << 2, n - 2)
  {
    Leading1(x, n);
    Leading1(x << 1, n - 1);
    assert (x << 1) << 1 == x << 2;
  }

  lemma Leading4(x: bv64, n: nat)
    requires x <= 0x0FFFFFFFFFFFFFFF && n >= 4
    ensures LeadingZeros(x, n) == 4 + LeadingZeros(x << 4, n - 4)
  {
    Leading2(x, n);
    Leading2(x << 2, n - 2);
    assert (x << 2) << 2 == x << 4;
  }

  lemma Leading8(x: bv64, n: nat)
    requires x <= 0x00FFFFFFFFFFFFFF && n >= 8
    ensures LeadingZeros(x, n) == 8 + LeadingZeros(x << 8, n - 8)
  {
    Leading4(x, n);
    Leading4(x << 4, n - 4);
    assert (x << 4) << 4 == x << 8;
  }

  lemma Leading16(x: bv64, n: nat)
    requires x <= 0x0000FFFFFFFFFFFF && n >= 16
    ensures LeadingZeros(x, n) == 16 + LeadingZeros(x << 16, n - 16)
  {
    Leading8(x, n);
    Leading8(x << 8, n - 8);
    assert (x << 8) << 8 == x << 16;
  }

  lemma Leading32(x: bv64, n: nat)
    requires x <= 0x00000000FFFFFFFF && n >= 32
    ensures LeadingZeros(x, n) == 32 + LeadingZeros(x << 32, n - 32)
  {
    Leading16(x, n);
    Leading16(x << 16, n - 16);
    assert (x << 16) << 16 == x << 32;
  }

  /** A shift that fits moves the top half of the range up to the next threshold. */
  lemma Above32(x: bv64)
    requires 0x0000000000000000 < x <= 0x00000000FFFFFFFF
    ensures x << 32 > 0x00000000FFFFFFFF
  {
  }

  lemma Above16(x: bv64)
    requires 0x00000000FFFFFFFF < x <= 0x0000FFFFFFFFFFFF
    ensures x << 16 > 0x0000FFFFFFFFFFFF
  {
  }

  lemma Above8(x: bv64)
    requires 0x0000FFFFFFFFFFFF < x <= 0x00FFFFFFFFFFFFFF
    ensures x << 8 > 0x00FFFFFFFFFFFFFF
  {
  }

  lemma Above4(x: bv64)
    requires 0x00FFFFFFFFFFFFFF < x <= 0x0FFFFFFFFFFFFFFF
    ensures x << 4 > 0x0FFFFFFFFFFFFFFF
  {
  }

  lemma Above2(x: bv64)
    requires 0x0FFFFFFFFFFFFFFF < x <= 0x3FFFFFFFFFFFFFFF
    ensures x << 2 > 0x3FFFFFFFFFFFFFFF
  {
  }

  lemma Above1(x: bv64)
    requires 0x3FFFFFFFFFFFFFFF < x <= 0x7FFFFFFFFFFFFFFF
    ensures x << 1 > 0x7FFFFFFFFFFFFFFF
  {
  }

  lemma TopSet(x: bv64, n: nat)
    requires x > 0x7FFFFFFFFFFFFFFF
    ensures LeadingZeros(x, n) == 0
  {
  }

  lemma {:induction false} LeadingOfZero(n: nat)
    ensures LeadingZeros(0, n) == n
  {
    if n > 0 {
      LeadingOfZero(n - 1);
    }
  }

  /** The highest `k` bits are zero. */
  predicate TopClear(x: bv64, k: nat)
    requires k in {1, 2, 4, 8, 16, 32}
  {
    match k
    case 32 => x <= 0x00000000FFFFFFFF
    case 16 => x <= 0x0000FFFFFFFFFFFF
    case 8 => x <= 0x00FFFFFFFFFFFFFF
    case 4 => x <= 0x0FFFFFFFFFFFFFFF
    case 2 => x <= 0x3FFFFFFFFFFFFFFF
    case 1 => x <= 0x7FFFFFFFFFFFFFFF
  }

  function Up(x: bv64, k: nat): bv64
    requires k in {1, 2, 4, 8, 16, 32}
  {
    match k
    case 32 => x << 32
    case 16 => x << 16
    case 8 => x << 8
    case 4 => x << 4
    case 2 => x << 2
    case 1 => x << 1
  }

  /** If the next higher count did not apply, then after shifting neither does this one. */
  lemma Leading(x: bv64, k: nat, n: nat)
    requires k in {1, 2, 4, 8, 16, 32} && k <= n && TopClear(x, k)
    requires if k == 32 then x != 0 else !TopClear(x, 2 * k)
    ensures LeadingZeros(x, n) == k + LeadingZeros(Up(x, k), n - k)
    ensures !TopClear(Up(x, k), k)
  {
    if k == 32 {
      Leading32(x, n);
      Above32(x);
    } else if k == 16 {
      Leading16(x, n);
      Above16(x);
    } else if k == 8 {
      Leading8(x, n);
      Above8(x);
    } else if k == 4 {
      Leading4(x, n);
      Above4(x);
    } else if k == 2 {
      Leading2(x, n);
      Above2(x);
    } else {
      Leading1(x, n);
      Above1(x);
    }
  }

  lemma NoneLeading(x: bv64, n: nat)
    requires !TopClear(x, 1)
    ensures LeadingZeros(x, n) == 0
  {
    TopSet(x, n);
  }

  /** One halving step: if the highest `k` bits are zero, count them and shift them out. */
  method Narrow(x: bv64, k: nat, n: nat) returns (y: bv64, m: nat)
    requires k in {1, 2, 4, 8, 16, 32} && n + 2 * k <= 64
    requires if k == 32 then x != 0 else !TopClear(x, 2 * k)
    ensures m + k <= 64 && !TopClear(y, k)
    ensures m + LeadingZeros(y, 64 - m) == n + LeadingZeros(x, 64 - n)
  {
    hide LeadingZeros, TopClear, Up;
    if TopClear(x, k) {
      Leading(x, k, 64 - n);
      return Up(x, k), n + k;
    }
    return x, n;
  }

  /** Six comparisons and shifts count all leading zeros. */
  method Clz(x: bv64) returns (n: nat)
    ensures n == LeadingZeros(x, 64)
  {
    hide LeadingZeros, TopClear, Up;
    if x == 0 {
      LeadingOfZero(64);
      return 64;
    }
    var y;
    y, n := Narrow(x, 32, 0);
    y, n := Narrow(y, 16, n);
    y, n := Narrow(y, 8, n);
    y, n := Narrow(y, 4, n);
    y, n := Narrow(y, 2, n);
    y, n := Narrow(y, 1, n);
    NoneLeading(y, 64 - n);
  }

  // ---- trailing zeros ----

  function TrailingZeros(x: bv64, n: nat): nat
    decreases n
  {
    if n == 0 || x & 1 != 0 then 0 else 1 + TrailingZeros(x >> 1, n - 1)
  }

  lemma Trailing1(x: bv64, n: nat)
    requires x & 0x1 == 0 && n >= 1
    ensures TrailingZeros(x, n) == 1 + TrailingZeros(x >> 1, n - 1)
    ensures x & 0x3 != 0 ==> (x >> 1) & 0x1 != 0
  {
  }

  lemma LowSet(x: bv64, n: nat)
    requires x & 0x1 != 0
    ensures TrailingZeros(x, n) == 0
  {
  }

  lemma Trailing2(x: bv64, n: nat)
    requires x & 0x3 == 0 && n >= 2
    ensures TrailingZeros(x, n) == 2 + TrailingZeros(x >> 2, n - 2)
    ensures x & 0xF != 0 ==> (x >> 2) & 0x3 != 0
  {
    assert x & 1 == 0 && (x >> 1) & 1 == 0 && (x >> 1) >> 1 == x >> 2;
    assert TrailingZeros(x, n) == 1 + TrailingZeros(x >> 1, n - 1);
    assert TrailingZeros(x >> 1, n - 1) == 1 + TrailingZeros((x >> 1) >> 1, n - 2);
  }

  lemma Trailing4(x: bv64, n: nat)
    requires x & 0xF == 0 && n >= 4
    ensures TrailingZeros(x, n) == 4 + TrailingZeros(x >> 4, n - 4)
    ensures x & 0xFF != 0 ==> (x >> 4) & 0xF != 0
  {
    assert x & 0x3 == 0 && (x >> 2) & 0x3 == 0 && (x >> 2) >> 2 == x >> 4;
    Trailing2(x, n);
    Trailing2(x >> 2, n - 2);
  }

  lemma Trailing8(x: bv64, n: nat)
    requires x & 0xFF == 0 && n >= 8
    ensures TrailingZeros(x, n) == 8 + TrailingZeros(x >> 8, n - 8)
    ensures x & 0xFFFF != 0 ==> (x >> 8) & 0xFF != 0
  {
    assert x & 0xF == 0 && (x >> 4) & 0xF == 0 && (x >> 4) >> 4 == x >> 8;
    Trailing4(x, n);
    Trailing4(x >> 4, n - 4);
  }

  lemma Trailing16(x: bv64, n: nat)
    requires x & 0xFFFF == 0 && n >= 16
    ensures TrailingZeros(x, n) == 16 + TrailingZeros(x >> 16, n - 16)
    ensures x & 0xFFFFFFFF != 0 ==> (x >> 16) & 0xFFFF != 0
  {
    assert x & 0xFF == 0 && (x >> 8) & 0xFF == 0 && (x >> 8) >> 8 == x >> 16;
    Trailing8(x, n);
    Trailing8(x >> 8, n - 8);
  }

  lemma Trailing32(x: bv64, n: nat)
    requires x & 0xFFFFFFFF == 0 && n >= 32
    ensures TrailingZeros(x, n) == 32 + TrailingZeros(x >> 32, n - 32)
    ensures x & 0xFFFFFFFFFFFFFFFF != 0 ==> (x >> 32) & 0xFFFFFFFF != 0
  {
    assert x & 0xFFFF == 0 && (x >> 16) & 0xFFFF == 0 && (x >> 16) >> 16 == x >> 32;
    Trailing16(x, n);
    Trailing16(x >> 16, n - 16);
  }

  lemma {:induction false} TrailingOfZero(n: nat)
    ensures TrailingZeros(0, n) == n
  {
    if n > 0 {
      assert (0 as bv64) >> 1 == 0;
      TrailingOfZero(n - 1);
    }
  }

  method Ctz(x: bv64) returns (n: nat)
    ensures n == TrailingZeros(x, 64)
  {
    hide TrailingZeros;
    if x == 0 {
      TrailingOfZero(64);
      return 64;
    }
    AnyBit(x);
    var y := x;
    n := 0;
    if y & 0xFFFFFFFF == 0 {
      Trailing32(y, 64 - n);
      n, y := n + 32, y >> 32;
    }
    if y & 0xFFFF == 0 {
      Trailing16(y, 64 - n);
      n, y := n + 16, y >> 16;
    }
    if y & 0xFF == 0 {
      Trailing8(y, 64 - n);
      n, y := n + 8, y >> 8;
    }
    if y & 0xF == 0 {
      Trailing4(y, 64 - n);
      n, y := n + 4, y >> 4;
    }
    if y & 0x3 == 0 {
      Trailing2(y, 64 - n);
      n, y := n + 2, y >> 2;
    }
    if y & 0x1 == 0 {
      Trailing1(y, 64 - n);
      LowSet(y >> 1, 63 - n);
      n := n + 1;
    } else {
      LowSet(y, 64 - n);
    }
  }

  lemma AnyBit(x: bv64)
    requires x != 0
    ensures x & 0xFFFFFFFFFFFFFFFF != 0
  {
  }

  // ---- byte swap ----

  /** Byte `k` of a word, byte 0 the lowest. */
  function Byte(x: bv64, k: nat): bv64
    requires k < 8
  {
    match k
    case 0 => x & 0xFF
    case 1 => (x >> 8) & 0xFF
    case 2 => (x >> 16) & 0xFF
    case 3 => (x >> 24) & 0xFF
    case 4 => (x >> 32) & 0xFF
    case 5 => (x >> 40) & 0xFF
    case 6 => (x >> 48) & 0xFF
    case 7 => (x >> 56) & 0xFF
  }

  function Bswap(x: bv64): bv64 {
    var a := ((x & 0x00000000FFFFFFFF) << 32) | ((x & 0xFFFFFFFF00000000) >> 32);
    var b := ((a & 0x0000FFFF0000FFFF) << 16) | ((a & 0xFFFF0000FFFF0000) >> 16);
    ((b & 0x00FF00FF00FF00FF) << 8) | ((b & 0xFF00FF00FF00FF00) >> 8)
  }

  /** The bytes come out in reverse. */
  lemma BswapReverses(x: bv64, k: nat)
    requires k < 8
    ensures Byte(Bswap(x), k) == Byte(x, 7 - k)
  {
    if k < 4 {
      if k < 2 {
        if k == 0 {} else {}
      } else {
        if k == 2 {} else {}
      }
    } else {
      if k < 6 {
        if k == 4 {} else {}
      } else {
        if k == 6 {} else {}
      }
    }
  }

  lemma SameBytes(x: bv64, y: bv64)
    requires forall k :: 0 <= k < 8 ==> Byte(x, k) == Byte(y, k)
    ensures x == y
  {
    assert Byte(x, 0) == Byte(y, 0) && Byte(x, 1) == Byte(y, 1) && Byte(x, 2) == Byte(y, 2) && Byte(x, 3) == Byte(y, 3);
    assert Byte(x, 4) == Byte(y, 4) && Byte(x, 5) == Byte(y, 5) && Byte(x, 6) == Byte(y, 6) && Byte(x, 7) == Byte(y, 7);
  }

  /** Swapping twice restores the word. */
  lemma BswapInvolution(x: bv64)
    ensures Bswap(Bswap(x)) == x
  {
    forall k | 0 <= k < 8
      ensures Byte(Bswap(Bswap(x)), k) == Byte(x, k)
    {
      BswapReverses(Bswap(x), k);
      BswapReverses(x, 7 - k);
    }
    SameBytes(Bswap(Bswap(x)), x);
  }
}
