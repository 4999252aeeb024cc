/** Counting the ones of a 64-bit word by adding up fields of two, four and eight bits. */
module PopCount {
  import opened Bits

  function Plus(a: bv64, b: bv64): bv64 {
    a + b
  }

  function Down(x: bv64, k: nat): bv64
    requires k in {1, 2, 4, 8, 16, 32}
  {
    match k
    case 1 => x >> 1
    case 2 => x >> 2
    case 4 => x >> 4
    case 8 => x >> 8
    case 16 => x >> 16
    case 32 => x >> 32
  }

  /** The ones among the lowest `w` bits: those of the lower half and those of the upper half. */
  function Ones(x: bv64, w: nat): bv64
    requires w in {1, 2, 4, 8, 16, 32, 64}
    decreases w
  {
    if w == 1 then x & 1 else Plus(Ones(x, w / 2), Ones(Down(x, w / 2), w / 2))
  }

  // ---- the stages of the count, as the source computes them ----

  function Pairs(x: bv64): bv64 {
    x - ((x >> 1) & 0x5555555555555555)
  }

  function PairSums(x: bv64): bv64 {
    (x & 0x5555555555555555) + ((x >> 1) & 0x5555555555555555)
  }

  function Nibbles(x: bv64): bv64 {
    (x & 0x3333333333333333) + ((x >> 2) & 0x3333333333333333)
  }

  function Bytes(x: bv64): bv64 {
    (x + (x >> 4)) & 0x0F0F0F0F0F0F0F0F
  }

  lemma PairSumsPlus(x: bv64)
    ensures x == PairSums(x) + ((x >> 1) & 0x5555555555555555)
  {
  }

  predicate Less(x: bv64, h: bv64, d: bv64) {
    x - h == d
  }

  lemma LessSum(h: bv64, d: bv64)
    ensures Less(d + h, h, d)
  {
  }

  lemma LessOf(x: bv64, h: bv64, d: bv64)
    requires x == d + h
    ensures Less(x, h, d)
  {
    hide Less;
    LessSum(h, d);
  }

  lemma PairsOf(x: bv64, h: bv64, d: bv64)
    requires h == (x >> 1) & 0x5555555555555555 && Less(x, h, d)
    ensures Pairs(x) == d
  {
  }

  /** Taking the upper bit of each pair away from it leaves the sum of its two bits. */
  lemma PairsAdd(x: bv64)
    ensures Pairs(x) == PairSums(x)
  {
    hide Less, Pairs, PairSums;
    var h := (x >> 1) & 0x5555555555555555;
    PairSumsPlus(x);
    LessOf(x, h, PairSums(x));
    PairsOf(x, h, PairSums(x));
  }

  function Low(x: bv64, w: nat): bv64
    requires w in {1, 2, 4, 8}
  {
    match w
    case 1 => x & 1
    case 2 => x & 3
    case 4 => x & 15
    case 8 => x & 255
  }

  lemma Split(x: bv64, w: nat)
    requires w in {2, 4, 8, 16, 32, 64}
    ensures Ones(x, w) == Plus(Ones(x, w / 2), Ones(Down(x, w / 2), w / 2))
  {
  }

  lemma PairField(x: bv64)
    ensures Low(PairSums(x), 2) == Plus(Low(x, 1), Low(Down(x, 1), 1))
  {
  }

  lemma PairDown(x: bv64)
    ensures Down(PairSums(x), 2) == PairSums(Down(x, 2))
  {
    PairShift(x);
    hide PairSums;
  }

  lemma PairShift(x: bv64)
    ensures PairSums(x) >> 2 == PairSums(x >> 2)
  {
  }

  lemma NibbleField(x: bv64)
    ensures Low(Nibbles(x), 4) == Plus(Low(x, 2), Low(Down(x, 2), 2))
  {
  }

  lemma NibbleDown(x: bv64)
    ensures Down(Nibbles(x), 4) == Nibbles(Down(x, 4))
  {
    NibbleShift(x);
    hide Nibbles;
  }

  lemma NibbleShift(x: bv64)
    ensures Nibbles(x) >> 4 == Nibbles(x >> 4)
  {
  }

  lemma NibbleSmall(x: bv64)
    ensures Nibbles(x) & 0x8888888888888888 == 0
  {
  }

  lemma ByteField(x: bv64)
    requires x & 0x8888888888888888 == 0
    ensures Low(Bytes(x), 8) == Plus(Low(x, 4), Low(Down(x, 4), 4))
  {
  }

  lemma ByteDown(x: bv64)
    requires x & 0x8888888888888888 == 0
    ensures Down(Bytes(x), 8) == Bytes(Down(x, 8))
  {
    ByteShift(x);
    hide Bytes;
  }

  lemma ByteShift(x: bv64)
    requires x & 0x8888888888888888 == 0
    ensures Bytes(x) >> 8 == Bytes(x >> 8)
  {
  }

  lemma ByteSmall(x: bv64)
    ensures Bytes(x) & 0xF0F0F0F0F0F0F0F0 == 0
  {
  }

  lemma DownTwice2(x: bv64)
    ensures Down(Down(x, 2), 2) == Down(x, 4)
  {
  }

  lemma DownTwice4(x: bv64)
    ensures Down(Down(x, 4), 4) == Down(x, 8)
  {
  }

  lemma DownTwice8(x: bv64)
    ensures Down(Down(x, 8), 8) == Down(x, 16)
  {
  }

  lemma DownTwice16(x: bv64)
    ensures Down(Down(x, 16), 16) == Down(x, 32)
  {
  }

  // ---- each stage adds neighbouring fields of the one before ----

  function Half(x: bv64): bv64 {
    Nibbles(PairSums(x))
  }

  function Counts(x: bv64): bv64 {
    Bytes(Half(x))
  }

  lemma Ones2(x: bv64)
    ensures Ones(x, 2) == Low(PairSums(x), 2)
  {
    PairField(x);
    hide Plus, Down, PairSums;
    assert Ones(x, 1) == Low(x, 1) && Ones(Down(x, 1), 1) == Low(Down(x, 1), 1);
  }

  lemma Ones4(x: bv64)
    ensures Ones(x, 4) == Low(Half(x), 4)
  {
    hide Ones, Plus, Low, Down, PairSums, Nibbles, Bytes, Byte;
    Split(x, 4);
    Ones2(x);
    Ones2(Down(x, 2));
    PairDown(x);
    NibbleField(PairSums(x));
  }

  lemma HalfDown(x: bv64)
    ensures Down(Half(x), 4) == Half(Down(x, 4))
  {
    hide Plus, Low, Down, PairSums, Nibbles, Bytes, Byte;
    PairDown(x);
    PairDown(Down(x, 2));
    NibbleDown(PairSums(x));
    DownTwice2(x);
    DownTwice2(PairSums(x));
  }

  lemma Ones8(x: bv64)
    ensures Ones(x, 8) == Low(Counts(x), 8)
  {
    hide Ones, Plus, Low, Down, PairSums, Nibbles, Bytes, Byte;
    hide Half;
    Split(x, 8);
    Ones4(x);
    Ones4(Down(x, 4));
    HalfDown(x);
    HalfSmall(x);
    ByteField(Half(x));
  }

  lemma HalfSmall(x: bv64)
    ensures Half(x) & 0x8888888888888888 == 0
  {
    NibbleSmall(PairSums(x));
  }

  lemma CountsDown(x: bv64)
    ensures Down(Counts(x), 8) == Counts(Down(x, 8))
  {
    hide Plus, Low, Down, PairSums, Nibbles, Bytes, Byte;
    hide Half;
    HalfSmall(x);
    HalfDown(x);
    HalfDown(Down(x, 4));
    DownTwice4(x);
    DownTwice4(Half(x));
    ByteDown(Half(x));
  }

  lemma LowByte(x: bv64)
    ensures Low(x, 8) == Byte(x, 0)
  {
  }

  lemma ByteMoved1(x: bv64)
    ensures Byte(Down(x, 8), 0) == Byte(x, 1)
  {
  }

  lemma ByteMoved2(x: bv64)
    ensures Byte(Down(x, 16), 0) == Byte(x, 2)
  {
  }

  lemma ByteMoved3(x: bv64)
    ensures Byte(Down(x, 16), 1) == Byte(x, 3)
  {
  }

  lemma ByteMoved4(x: bv64)
    ensures Byte(Down(x, 32), 0) == Byte(x, 4)
  {
  }

  lemma ByteMoved5(x: bv64)
    ensures Byte(Down(x, 32), 1) == Byte(x, 5)
  {
  }

  lemma ByteMoved6(x: bv64)
    ensures Byte(Down(x, 32), 2) == Byte(x, 6)
  {
  }

  lemma ByteMoved7(x: bv64)
    ensures Byte(Down(x, 32), 3) == Byte(x, 7)
  {
  }

  lemma Ones16(x: bv64)
    ensures Ones(x, 16) == Plus(Byte(Counts(x), 0), Byte(Counts(x), 1))
  {
    hide Ones, Plus, Low, Down, Counts, Byte;
    Split(x, 16);
    Ones8(x);
    Ones8(Down(x, 8));
    CountsDown(x);
    LowByte(Counts(x));
    LowByte(Counts(Down(x, 8)));
    ByteMoved1(Counts(x));
  }

  lemma Counts16(x: bv64)
    ensures Down(Counts(x), 16) == Counts(Down(x, 16))
  {
    hide Plus, Low, Down, Counts, Byte;
    CountsDown(x);
    CountsDown(Down(x, 8));
    DownTwice8(x);
    DownTwice8(Counts(x));
  }

  lemma Counts32(x: bv64)
    ensures Down(Counts(x), 32) == Counts(Down(x, 32))
  {
    hide Plus, Low, Down, Counts, Byte;
    Counts16(x);
    Counts16(Down(x, 16));
    DownTwice16(x);
    DownTwice16(Counts(x));
  }

  /** The sum of four bytes from the lowest on, and of all eight. */
  function FourBytes(z: bv64): bv64 {
    Plus(Plus(Byte(z, 0), Byte(z, 1)), Plus(Byte(z, 2), Byte(z, 3)))
  }

  function EightBytes(z: bv64): bv64 {
    Plus(FourBytes(z), Plus(Plus(Byte(z, 4), Byte(z, 5)), Plus(Byte(z, 6), Byte(z, 7))))
  }

  lemma Ones32(x: bv64)
    ensures Ones(x, 32) == FourBytes(Counts(x))
  {
    hide Ones, Plus, Low, Down, Counts, Byte;
    Split(x, 32);
    Ones16(x);
    Ones16(Down(x, 16));
    Counts16(x);
    ByteMoved2(Counts(x));
    ByteMoved3(Counts(x));
  }

  lemma Ones64(x: bv64)
    ensures Ones(x, 64) == EightBytes(Counts(x))
  {
    hide Ones, Plus, Low, Down, Counts, Byte;
    Split(x, 64);
    Ones32(x);
    Ones32(Down(x, 32));
    Counts32(x);
    ByteMoved4(Counts(x));
    ByteMoved5(Counts(x));
    ByteMoved6(Counts(x));
    ByteMoved7(Counts(x));
  }

  // ---- the product adds up the bytes ----

  function Twos(z: bv64): bv64 {
    z + (z << 8)
  }

  function Fours(z: bv64): bv64 {
    z + (z << 16)
  }

  function Eights(z: bv64): bv64 {
    z + (z << 32)
  }

  lemma Twos7(x: bv64)
    requires x & 0xF0F0F0F0F0F0F0F0 == 0
    ensures Byte(Twos(x), 7) == Plus(Byte(x, 6), Byte(x, 7))
  {
  }

  lemma Twos5(x: bv64)
    requires x & 0xF0F0F0F0F0F0F0F0 == 0
    ensures Byte(Twos(x), 5) == Plus(Byte(x, 4), Byte(x, 5))
  {
  }

  lemma Twos3(x: bv64)
    requires x & 0xF0F0F0F0F0F0F0F0 == 0
    ensures Byte(Twos(x), 3) == Plus(Byte(x, 2), Byte(x, 3))
  {
  }

  lemma Twos1(x: bv64)
    requires x & 0xF0F0F0F0F0F0F0F0 == 0
    ensures Byte(Twos(x), 1) == Plus(Byte(x, 0), Byte(x, 1))
  {
  }

  lemma TwosSmall(x: bv64)
    requires x & 0xF0F0F0F0F0F0F0F0 == 0
    ensures Twos(x) & 0xE0E0E0E0E0E0E0E0 == 0
  {
  }

  lemma Fours7(x: bv64)
    requires x & 0xE0E0E0E0E0E0E0E0 == 0
    ensures Byte(Fours(x), 7) == Plus(Byte(x, 5), Byte(x, 7))
  {
  }

  lemma Fours3(x: bv64)
    requires x & 0xE0E0E0E0E0E0E0E0 == 0
    ensures Byte(Fours(x), 3) == Plus(Byte(x, 1), Byte(x, 3))
  {
  }

  lemma FoursSmall(x: bv64)
    requires x & 0xE0E0E0E0E0E0E0E0 == 0
    ensures Fours(x) & 0xC0C0C0C0C0C0C0C0 == 0
  {
  }

  lemma EightsTop(x: bv64)
    requires x & 0xC0C0C0C0C0C0C0C0 == 0
    ensures Eights(x) >> 56 == Plus(Byte(x, 3), Byte(x, 7))
  {
  }

  lemma TopByte(x: bv64)
    requires x & 0xF0F0F0F0F0F0F0F0 == 0
    ensures Eights(Fours(Twos(x))) >> 56 == EightBytes(x)
  {
    hide Plus, Byte, Twos, Fours, Eights;
    TwosSmall(x);
    Twos1(x);
    Twos3(x);
    Twos5(x);
    Twos7(x);
    FoursSmall(Twos(x));
    Fours3(Twos(x));
    Fours7(Twos(x));
    EightsTop(Fours(Twos(x)));
  }

  lemma TwosTimes(z: bv64)
    ensures Twos(z) == z * 0x0101
  {
  }

  lemma FoursTimes(z: bv64)
    ensures Fours(z) == z * 0x10001
  {
  }

  lemma EightsTimes(z: bv64)
    ensures Eights(z) == z * 0x100000001
  {
  }

  predicate AfterTwos(p: bv64, a: bv64) {
    p == (a * 0x10001) * 0x100000001
  }

  predicate AfterFours(p: bv64, b: bv64) {
    p == b * 0x100000001
  }

  lemma FactorTwos(p: bv64, z: bv64)
    requires p == ((z * 0x0101) * 0x10001) * 0x100000001
    ensures AfterTwos(p, z * 0x0101)
  {
  }

  lemma ShiftTwos(p: bv64, z: bv64)
    requires AfterTwos(p, z * 0x0101)
    ensures AfterTwos(p, Twos(z))
  {
    hide AfterTwos, Twos;
    TwosTimes(z);
  }

  lemma FactorFours(p: bv64, a: bv64)
    requires AfterTwos(p, a)
    ensures AfterFours(p, a * 0x10001)
  {
  }

  lemma ShiftFours(p: bv64, a: bv64)
    requires AfterFours(p, a * 0x10001)
    ensures AfterFours(p, Fours(a))
  {
    hide AfterFours, Fours;
    FoursTimes(a);
  }

  lemma ShiftEights(p: bv64, b: bv64)
    requires AfterFours(p, b)
    ensures p == Eights(b)
  {
    hide Eights;
    EightsTimes(b);
  }

  lemma FoursLeft(p: bv64, a: bv64)
    requires AfterTwos(p, a)
    ensures AfterFours(p, Fours(a))
  {
    hide AfterFours, Fours;
    FactorFours(p, a);
    ShiftFours(p, a);
  }

  lemma TwosLeft(p: bv64, z: bv64)
    requires p == ((z * 0x0101) * 0x10001) * 0x100000001
    ensures AfterTwos(p, Twos(z))
  {
    hide AfterTwos, Twos;
    FactorTwos(p, z);
    ShiftTwos(p, z);
  }

  /** A product of the three factors is three shifted additions. */
  lemma ThreeAdditions(p: bv64, z: bv64)
    requires p == ((z * 0x0101) * 0x10001) * 0x100000001
    ensures p == Eights(Fours(Twos(z)))
  {
    hide AfterTwos, AfterFours, Twos, Fours, Eights;
    TwosLeft(p, z);
    FoursLeft(p, Twos(z));
    ShiftEights(p, Fours(Twos(z)));
  }

  function Spread(z: bv64): bv64 {
    z * 0x0101010101010101
  }

  lemma SpreadIs(z: bv64)
    ensures Spread(z) == Eights(Fours(Twos(z)))
  {
    hide Eights, Fours, Twos;
    ThreeAdditions(z * 0x0101010101010101, z);
  }

  /** Three masked additions and a multiplication count all ones. */
  method Popcount(x: bv64) returns (r: bv64)
    ensures r == Ones(x, 64)
  {
    hide Ones, EightBytes, Eights, Fours, Twos, Bytes, Nibbles, Pairs, PairSums, Spread;
    var y := Pairs(x);
    PairsAdd(x);
    Ones64(x);
    y := Nibbles(y);
    ByteSmall(y);
    y := Bytes(y);
    TopByte(y);
    SpreadIs(y);
    r := Spread(y) >> 56;
  }
}
