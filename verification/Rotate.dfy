/** Rotations of 64-bit words, against rotation by one place at a time. */
module Rotate {

  function RotL(x: bv64, n: bv64): bv64
    requires n < 64
  {
    Both(Left(x, n), Right(x, 64 - n))
  }

  function RotR(x: bv64, n: bv64): bv64
    requires n < 64
  {
    Both(Right(x, n), Left(x, 64 - n))
  }

  function Both(a: bv64, b: bv64): bv64 {
    a | b
  }

  function Left(x: bv64, n: bv64): bv64
    requires n <= 64
  {
    x << n
  }

  function Right(x: bv64, n: bv64): bv64
    requires n <= 64
  {
    x >> n
  }

  /** One place to the left: the top bit comes back at the bottom. */
  function Once(x: bv64): bv64 {
    (x << 1) | (x >> 63)
  }

  /** One place to the right: the bottom bit comes back at the top. */
  function Back(x: bv64): bv64 {
    (x >> 1) | (x << 63)
  }

  function OnceTimes(x: bv64, n: bv64): bv64
    decreases n
  {
    if n == 0 then x else Once(OnceTimes(x, n - 1))
  }

  function BackTimes(x: bv64, n: bv64): bv64
    decreases n
  {
    if n == 0 then x else Back(BackTimes(x, n - 1))
  }

  // ---- one place more, a range of distances at a time ----

  /** One place more: what the left part shifts out the right part shifts in. */
  predicate Carries(l: bv64, r: bv64, l': bv64, r': bv64) {
    l' == l << 1 && r' == (r << 1) | (l >> 63)
  }

  lemma LeftFrom0(x: bv64, n: bv64)
    requires n < 16
    ensures x << (n + 1) == (x << n) << 1
  {
  }

  lemma RightFrom0(x: bv64, n: bv64)
    requires n < 16
    ensures x >> (63 - n) == ((x >> (64 - n)) << 1) | ((x << n) >> 63)
  {
  }

  lemma LeftFrom16(x: bv64, n: bv64)
    requires 16 <= n < 32
    ensures x << (n + 1) == (x << n) << 1
  {
  }

  lemma RightFrom16(x: bv64, n: bv64)
    requires 16 <= n < 32
    ensures x >> (63 - n) == ((x >> (64 - n)) << 1) | ((x << n) >> 63)
  {
  }

  lemma LeftFrom32(x: bv64, n: bv64)
    requires 32 <= n < 48
    ensures x << (n + 1) == (x << n) << 1
  {
  }

  lemma RightFrom32(x: bv64, n: bv64)
    requires 32 <= n < 48
    ensures x >> (63 - n) == ((x >> (64 - n)) << 1) | ((x << n) >> 63)
  {
  }

  lemma LeftFrom48(x: bv64, n: bv64)
    requires 48 <= n < 63
    ensures x << (n + 1) == (x << n) << 1
  {
  }

  lemma RightFrom48(x: bv64, n: bv64)
    requires 48 <= n < 63
    ensures x >> (63 - n) == ((x >> (64 - n)) << 1) | ((x << n) >> 63)
  {
  }

  lemma CarriesFrom0(x: bv64, n: bv64)
    requires n < 16
    ensures Carries(x << n, x >> (64 - n), x << (n + 1), x >> (63 - n)) == true
  {
    LeftFrom0(x, n);
    RightFrom0(x, n);
  }

  lemma CarriesFrom16(x: bv64, n: bv64)
    requires 16 <= n < 32
    ensures Carries(x << n, x >> (64 - n), x << (n + 1), x >> (63 - n)) == true
  {
    LeftFrom16(x, n);
    RightFrom16(x, n);
  }

  lemma CarriesFrom32(x: bv64, n: bv64)
    requires 32 <= n < 48
    ensures Carries(x << n, x >> (64 - n), x << (n + 1), x >> (63 - n)) == true
  {
    LeftFrom32(x, n);
    RightFrom32(x, n);
  }

  lemma CarriesFrom48(x: bv64, n: bv64)
    requires 48 <= n < 63
    ensures Carries(x << n, x >> (64 - n), x << (n + 1), x >> (63 - n)) == true
  {
    LeftFrom48(x, n);
    RightFrom48(x, n);
  }

  lemma CarriesAlways(x: bv64, n: bv64)
    requires n < 63
    ensures Carries(Left(x, n), Right(x, 64 - n), Left(x, n + 1), Right(x, 63 - n)) == true
  {
    hide Carries;
    if n < 16 {
      CarriesFrom0(x, n);
    } else if n < 32 {
      CarriesFrom16(x, n);
    } else if n < 48 {
      CarriesFrom32(x, n);
    } else {
      CarriesFrom48(x, n);
    }
  }

  predicate NoTopBit(r: bv64) {
    r >> 63 == 0
  }

  lemma RightHasNoTopBit(x: bv64, n: bv64)
    requires n < 64
    ensures NoTopBit(x >> (64 - n))
  {
  }

  lemma RightNoTopBit(x: bv64, n: bv64)
    requires n < 64
    ensures NoTopBit(Right(x, 64 - n)) == true
  {
    hide NoTopBit;
    RightHasNoTopBit(x, n);
  }

  lemma OncePart(l: bv64, r: bv64, l': bv64, r': bv64)
    requires Carries(l, r, l', r') == true && NoTopBit(r) == true
    ensures Both(l', r') == Once(Both(l, r))
  {
  }

  lemma RotLNext(x: bv64, n: bv64)
    requires n < 63
    ensures RotL(x, n + 1) == Once(RotL(x, n))
  {
    hide Left, Right, Carries, NoTopBit, Once, Both;
    CarriesAlways(x, n);
    RightNoTopBit(x, n);
    OncePart(Left(x, n), Right(x, 64 - n), Left(x, n + 1), Right(x, 63 - n));
    NextParts(x, n);
  }

  lemma NextParts(x: bv64, n: bv64)
    requires n < 63
    ensures RotL(x, n + 1) == Both(Left(x, n + 1), Right(x, 63 - n))
  {
    hide Left, Right, Both;
    Distance(n);
  }

  lemma Distance(n: bv64)
    ensures 64 - (n + 1) == 63 - n && (n <= 64 ==> 64 - (64 - n) == n)
  {
  }

  lemma RotLNone(x: bv64)
    ensures RotL(x, 0) == x && RotR(x, 0) == x
  {
  }

  /** Rotating left by `n` is rotating left by one place `n` times. */
  lemma {:induction false} RotLIsSteps(x: bv64, n: bv64)
    requires n < 64
    ensures RotL(x, n) == OnceTimes(x, n)
    decreases n
  {
    hide RotL, Once;
    if n == 0 {
      RotLNone(x);
    } else {
      RotLIsSteps(x, n - 1);
      RotLNext(x, n - 1);
    }
  }

  lemma BackOnce(x: bv64)
    ensures Back(Once(x)) == x && Once(Back(x)) == x
  {
  }

  /** Rotating right by `n` is rotating left by the rest. */
  lemma RotRIsRotL(x: bv64, n: bv64)
    requires 0 < n < 64
    ensures RotR(x, n) == RotL(x, 64 - n)
  {
    hide Left, Right, Both;
    Distance(n);
    BothWays(Right(x, n), Left(x, 64 - n));
  }

  lemma BothWays(a: bv64, b: bv64)
    ensures Both(a, b) == Both(b, a)
  {
  }

  lemma RotROne(x: bv64)
    ensures RotR(x, 1) == Back(x)
  {
  }

  lemma RotRNext(x: bv64, n: bv64)
    requires n < 63
    ensures RotR(x, n + 1) == Back(RotR(x, n))
  {
    hide RotL, RotR, Once, Back;
    if n == 0 {
      RotLNone(x);
      RotROne(x);
    } else {
      RotRIsRotL(x, n);
      RotRIsRotL(x, n + 1);
      Distance(n);
      RotLNext(x, 63 - n);
      BackOnce(RotL(x, 63 - n));
    }
  }

  /** Rotating right by `n` is rotating right by one place `n` times. */
  lemma {:induction false} RotRIsSteps(x: bv64, n: bv64)
    requires n < 64
    ensures RotR(x, n) == BackTimes(x, n)
    decreases n
  {
    hide RotR, Back;
    if n == 0 {
      RotLNone(x);
    } else {
      RotRIsSteps(x, n - 1);
      RotRNext(x, n - 1);
    }
  }

  lemma {:induction false} BackPastOnce(x: bv64, n: bv64)
    ensures BackTimes(Once(x), n) == Once(BackTimes(x, n))
    decreases n
  {
    hide Once, Back;
    if n > 0 {
      BackPastOnce(x, n - 1);
      BackOnce(BackTimes(x, n - 1));
    }
  }

  lemma {:induction false} BackUndoesOnce(x: bv64, n: bv64)
    ensures BackTimes(OnceTimes(x, n), n) == x
    decreases n
  {
    hide Once, Back;
    if n > 0 {
      BackUndoesOnce(x, n - 1);
      BackPastOnce(OnceTimes(x, n - 1), n - 1);
      BackOnce(x);
    }
  }

  /** Rotating right undoes rotating left. */
  lemma RotRUndoesRotL(x: bv64, n: bv64)
    requires n < 64
    ensures RotR(RotL(x, n), n) == x
  {
    hide RotL, RotR;
    RotLIsSteps(x, n);
    RotRIsSteps(RotL(x, n), n);
    BackUndoesOnce(x, n);
  }
}
