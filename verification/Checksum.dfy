/** The packet checksum (enet/packet.c) and the CRC-32 of RFC 1952, section 8, it has to be. */
module Checksum {
  const POLYNOMIAL: bv32 := 0x04C1_1DB7
  const REFLECTED: bv32 := 0xEDB8_8320
  const START: bv32 := 0xFFFF_FFFF
  const TOP: bv32 := 0x8000_0000

  function Xor(a: bv32, b: bv32): bv32 {
    a ^ b
  }

  function Doubled(v: bv32): bv32 {
    v << 1
  }

  function Half(v: bv32): bv32 {
    v >> 1
  }

  predicate Odd(v: bv32) {
    v & 1 == 1
  }

  /** No bit is set in both. */
  predicate Clear(a: bv32, b: bv32) {
    a & b == 0
  }

  /** A bit set in a value, or not. */
  function Put(bit: bool, m: bv32, x: bv32): bv32 {
    if bit then x | m else x
  }

  /** 1 << k */
  function One(k: nat): bv32 {
    if k == 0 then 1 else Doubled(One(k - 1))
  }

  /** The low bits of a value in the opposite order. */
  function Reflect(v: bv32, bits: nat): bv32
    decreases bits
  {
    if bits == 0 then 0 else Put(Odd(v), One(bits - 1), Reflect(Half(v), bits - 1))
  }

  /** One high-bit-first step, as the table is built. */
  function HighStep(c: bv32): bv32 {
    if Clear(c, TOP) then Doubled(c) else Xor(Doubled(c), POLYNOMIAL)
  }

  /** One low-bit-first step of the standard's definition. */
  function LowStep(c: bv32): bv32 {
    if Odd(c) then Xor(Half(c), REFLECTED) else Half(c)
  }

  function HighSteps(c: bv32, n: nat): bv32 {
    if n == 0 then c else HighStep(HighSteps(c, n - 1))
  }

  function LowSteps(c: bv32, n: nat): bv32 {
    if n == 0 then c else LowStep(LowSteps(c, n - 1))
  }

  /** The standard's update for one byte: eight steps, a bit each. */
  function Update(crc: bv32, byte: bv8): bv32 {
    LowSteps(Xor(crc, byte as bv32), 8)
  }

  function Updates(crc: bv32, bytes: seq<bv8>): bv32 {
    if bytes == [] then crc else Update(Updates(crc, bytes[..|bytes| - 1]), bytes[|bytes| - 1])
  }

  /** The CRC-32 of a byte sequence. */
  function Crc32(bytes: seq<bv8>): bv32 {
    !Updates(START, bytes)
  }

  // Facts about single words

  lemma DoubledClear(x: bv32, y: bv32)
    requires Clear(x, y)
    ensures Clear(Doubled(x), Doubled(y))
  {
  }

  lemma OneClear(y: bv32)
    ensures Clear(1, Doubled(y))
  {
  }

  lemma PutClear(bit: bool, m: bv32, x: bv32, k: bv32)
    requires Clear(m, k) && Clear(x, k)
    ensures Clear(Put(bit, m, x), k)
  {
  }

  lemma HalfXor(a: bv32, b: bv32)
    ensures Half(Xor(a, b)) == Xor(Half(a), Half(b))
    ensures Odd(Xor(a, b)) == (Odd(a) != Odd(b))
  {
  }

  lemma PutIsXor(bit: bool, m: bv32, x: bv32)
    requires Clear(x, m)
    ensures Put(bit, m, x) == if bit then Xor(x, m) else x
  {
    OrIsXor(x, m);
  }

  lemma OrIsXor(x: bv32, m: bv32)
    ensures x & m == 0 ==> x | m == x ^ m
  {
  }

  lemma XorClear(x: bv32, y: bv32, m: bv32)
    requires Clear(x, m) && Clear(y, m)
    ensures Clear(Xor(x, y), m)
  {
  }

  lemma XorMoves(m: bv32, x: bv32, y: bv32)
    ensures Xor(Xor(x, m), Xor(y, m)) == Xor(x, y)
  {
    assert (x ^ m) ^ (y ^ m) == x ^ y;
  }

  lemma XorAssociates(x: bv32, y: bv32, z: bv32)
    ensures Xor(Xor(x, y), z) == Xor(x, Xor(y, z))
  {
    assert (x ^ y) ^ z == x ^ (y ^ z);
  }

  lemma XorCommutes(x: bv32, y: bv32)
    ensures Xor(x, y) == Xor(y, x)
  {
    assert x ^ y == y ^ x;
  }

  lemma PutXor(p: bool, q: bool, m: bv32, x: bv32, y: bv32)
    requires Clear(x, m) && Clear(y, m)
    ensures Put(p != q, m, Xor(x, y)) == Xor(Put(p, m, x), Put(q, m, y))
  {
    hide Put, Xor, Clear;
    PutIsXor(p, m, x);
    PutIsXor(q, m, y);
    XorClear(x, y, m);
    PutIsXor(p != q, m, Xor(x, y));
    XorMoves(m, x, y);
    XorAssociates(x, y, m);
    XorAssociates(x, m, y);
    XorCommutes(m, y);
  }

  lemma XorZero(x: bv32)
    ensures Xor(x, 0) == x == Xor(0, x) && Xor(x, x) == 0
  {
  }

  lemma DoubledHalf(x: bv32)
    requires Clear(x, TOP)
    ensures Half(Doubled(x)) == x
  {
  }

  lemma PutDoubled(bit: bool, m: bv32, x: bv32)
    ensures Half(Put(bit, Doubled(m), x)) == Put(bit, Half(Doubled(m)), Half(x))
    ensures Odd(Put(bit, Doubled(m), x)) == Odd(x)
  {
  }

  lemma HalfClear(v: bv32, m: bv32)
    ensures Clear(Half(v), m) <==> Clear(v, Doubled(m))
  {
  }

  lemma LowBit(v: bv32)
    ensures Half(Put(Odd(v), 1, 0)) == 0
    ensures Odd(Put(Odd(v), 1, 0)) <==> !Clear(v, 1)
  {
  }

  // Single bits

  lemma {:induction false} OneDistinct(i: nat, j: nat)
    requires i < j < 32
    ensures Clear(One(i), One(j))
  {
    hide Doubled, Clear;
    if i == 0 {
      OneClear(One(j - 1));
    } else {
      OneDistinct(i - 1, j - 1);
      DoubledClear(One(i - 1), One(j - 1));
    }
  }

  function ShiftedBy8(x: bv32): bv32 {
    x << 8
  }

  lemma DoubledEight(x: bv32)
    ensures Doubled(Doubled(Doubled(Doubled(Doubled(Doubled(Doubled(Doubled(x)))))))) == ShiftedBy8(x)
  {
  }

  lemma OneUp(k: nat)
    ensures One(k + 8) == ShiftedBy8(One(k))
  {
    hide Doubled, ShiftedBy8;
    var x := One(k);
    DoubledEight(x);
    assert One(k + 2) == Doubled(Doubled(x));
    assert One(k + 4) == Doubled(Doubled(One(k + 2)));
    assert One(k + 6) == Doubled(Doubled(One(k + 4)));
  }

  lemma OneTop()
    ensures One(31) == TOP
  {
    OneUp(23);
    OneUp(15);
    OneUp(7);
    OneValues();
  }

  lemma OneHalves(k: nat)
    requires k < 31
    ensures Half(One(k + 1)) == One(k)
  {
    hide Doubled, Half, Clear;
    OneDistinct(k, 31);
    OneTop();
    DoubledHalf(One(k));
  }

  // Reflection

  /** Reflected bits stay below their number. */
  lemma {:induction false} ReflectBelow(v: bv32, bits: nat, k: nat)
    requires bits <= k < 32
    ensures Clear(Reflect(v, bits), One(k))
    decreases bits
  {
    hide Half, Odd, Put, Clear, One;
    if bits == 0 {
      ZeroClear(One(k));
    } else {
      ReflectBelow(Half(v), bits - 1, k);
      OneDistinct(bits - 1, k);
      PutClear(Odd(v), One(bits - 1), Reflect(Half(v), bits - 1), One(k));
    }
  }

  lemma ZeroClear(x: bv32)
    ensures Clear(0, x)
  {
  }

  /** Reflection is linear. */
  lemma {:induction false} ReflectXor(a: bv32, b: bv32, bits: nat)
    requires bits <= 32
    ensures Reflect(Xor(a, b), bits) == Xor(Reflect(a, bits), Reflect(b, bits))
    decreases bits
  {
    hide Half, Odd, Put, Clear, Xor, One;
    if bits == 0 {
      XorZero(0);
    } else {
      ReflectXor(Half(a), Half(b), bits - 1);
      ReflectBelow(Half(a), bits - 1, bits - 1);
      ReflectBelow(Half(b), bits - 1, bits - 1);
      HalfXor(a, b);
      PutXor(Odd(a), Odd(b), One(bits - 1), Reflect(Half(a), bits - 1), Reflect(Half(b), bits - 1));
    }
  }

  /** The last bit reflected is the lowest, and shifting it out leaves the others reflected. */
  lemma {:induction false} ReflectDrop(v: bv32, bits: nat)
    requires 1 <= bits <= 32
    ensures Half(Reflect(v, bits)) == Reflect(v, bits - 1)
    ensures Odd(Reflect(v, bits)) <==> !Clear(v, One(bits - 1))
    decreases bits
  {
    hide Half, Odd, Put, Clear, Doubled;
    if bits == 1 {
      assert Reflect(v, 1) == Put(Odd(v), 1, 0);
      LowBit(v);
    } else {
      var x := Reflect(Half(v), bits - 1);
      ReflectDrop(Half(v), bits - 1);
      OneHalves(bits - 2);
      PutDoubled(Odd(v), One(bits - 2), x);
      HalfClear(v, One(bits - 2));
    }
  }

  /** Reflecting the doubled word halves it. */
  lemma ReflectDoubled(x: bv32)
    ensures Reflect(Doubled(x), 32) == Half(Reflect(x, 32))
  {
    hide Half, Odd, Put, Clear, Xor, One, Doubled;
    DoubledDrops(x);
    var top := if Clear(x, TOP) then 0 else TOP;
    assert Reflect(Doubled(x), 32) == Put(false, One(31), Reflect(Xor(x, top), 31));
    PutNothing(One(31), Reflect(Xor(x, top), 31));
    ReflectXor(x, top, 31);
    ReflectConstants();
    XorZero(Reflect(x, 31));
    ReflectDrop(x, 32);
  }

  lemma DoubledDrops(x: bv32)
    ensures Half(Doubled(x)) == Xor(x, if Clear(x, TOP) then 0 else TOP) && !Odd(Doubled(x))
  {
    ShiftDrops(x);
    DoubledEven(x);
    TopBit(x);
  }

  lemma ShiftDrops(x: bv32)
    ensures (x << 1) >> 1 == x ^ (x & 0x8000_0000)
  {
  }

  lemma TopBit(x: bv32)
    ensures x & 0x8000_0000 == if Clear(x, TOP) then 0 else TOP
  {
  }

  lemma PutNothing(m: bv32, x: bv32)
    ensures Put(false, m, x) == x
  {
  }

  lemma {:induction false} ReflectZero(bits: nat)
    ensures Reflect(0, bits) == 0
  {
    if bits > 0 {
      ReflectZero(bits - 1);
      assert Half(0) == 0 && !Odd(0);
    }
  }

  /** A single bit is reflected to the other end. */
  lemma {:induction false} ReflectOne(k: nat, bits: nat)
    requires k < 32 && bits <= 32
    ensures Reflect(One(k), bits) == if k < bits then One(bits - 1 - k) else 0
    decreases k
  {
    hide Half, Odd, Put, One;
    if bits > 0 {
      OneParity(k);
      if k == 0 {
        ReflectZero(bits - 1);
      } else {
        ReflectOne(k - 1, bits - 1);
      }
      PutOnZero(One(bits - 1), Reflect(Half(One(k)), bits - 1));
    }
  }

  lemma OneParity(k: nat)
    requires k < 32
    ensures Odd(One(k)) == (k == 0) && Half(One(k)) == if k == 0 then 0 else One(k - 1)
  {
    if k > 0 {
      OneHalves(k - 1);
      DoubledEven(One(k - 1));
    } else {
      assert Half(1) == 0 && Odd(1);
    }
  }

  lemma DoubledEven(x: bv32)
    ensures !Odd(Doubled(x))
  {
  }

  lemma PutOnZero(m: bv32, x: bv32)
    ensures Put(false, m, x) == x && Put(true, m, 0) == m
  {
  }

  /** The polynomial as the sum of its terms. */
  function Terms(a: nat, b: nat, c: nat, d: nat, e: nat, f: nat, g: nat): bv32 {
    Xor(One(a), Xor(One(b), Xor(One(c), Xor(One(d), Xor(One(e), Xor(One(f), One(g)))))))
  }

  lemma ReflectTerms(a: nat, b: nat, c: nat, d: nat, e: nat, f: nat, g: nat)
    requires a < 32 && b < 32 && c < 32 && d < 32 && e < 32 && f < 32 && g < 32
    ensures Reflect(Terms(a, b, c, d, e, f, g), 32) == Terms(31 - a, 31 - b, 31 - c, 31 - d, 31 - e, 31 - f, 31 - g)
  {
    hide Xor, One, Reflect;
    var x := Xor(One(f), One(g));
    var y := Xor(One(d), Xor(One(e), x));
    ReflectXor(One(f), One(g), 32);
    ReflectXor(One(e), x, 32);
    ReflectXor(One(d), Xor(One(e), x), 32);
    ReflectXor(One(c), y, 32);
    ReflectXor(One(b), Xor(One(c), y), 32);
    ReflectXor(One(a), Xor(One(b), Xor(One(c), y)), 32);
    ReflectOne(a, 32); ReflectOne(b, 32); ReflectOne(c, 32); ReflectOne(d, 32);
    ReflectOne(e, 32); ReflectOne(f, 32); ReflectOne(g, 32);
  }

  lemma OneValues()
    ensures One(0) == 1 && One(1) == 2 && One(2) == 4 && One(3) == 8 && One(4) == 16 && One(5) == 32 && One(6) == 64
      && One(7) == 128
  {
    assert One(1) == 2 && One(3) == 8 && One(5) == 32;
  }

  lemma ReflectConstants()
    ensures Reflect(0, 31) == 0 && Reflect(TOP, 31) == 0 && Reflect(POLYNOMIAL, 32) == REFLECTED
  {
    hide Reflect;
    ReflectZero(31);
    OneTop();
    ReflectOne(31, 31);
    ReflectTerms(0, 1, 2, 4, 5, 7, 8);
    ReflectTerms(10, 11, 12, 16, 22, 23, 26);
    ReflectXor(Terms(0, 1, 2, 4, 5, 7, 8), Terms(10, 11, 12, 16, 22, 23, 26), 32);
    PolynomialTerms();
  }

  lemma PolynomialTerms()
    ensures Xor(Terms(0, 1, 2, 4, 5, 7, 8), Terms(10, 11, 12, 16, 22, 23, 26)) == POLYNOMIAL
    ensures Xor(Terms(31, 30, 29, 27, 26, 24, 23), Terms(21, 20, 19, 15, 9, 8, 5)) == REFLECTED
  {
    OneUp(0); OneUp(1); OneUp(2); OneUp(3); OneUp(4); OneUp(7);
    OneUp(8); OneUp(11); OneUp(12); OneUp(13); OneUp(14); OneUp(15); OneUp(18);
    OneUp(16); OneUp(19); OneUp(21); OneUp(22); OneUp(23);
    OneUp(5); OneUp(6); OneUp(10);
  }

  // The table

  lemma StepReflects(c: bv32)
    ensures Reflect(HighStep(c), 32) == LowStep(Reflect(c, 32))
  {
    hide Half, Odd, Put, Clear, Xor, One, Doubled, Reflect;
    ReflectDoubled(c);
    ReflectDrop(c, 32);
    OneTop();
    ReflectXor(Doubled(c), POLYNOMIAL, 32);
    ReflectConstants();
  }

  lemma {:induction false} StepsReflect(c: bv32, n: nat)
    ensures Reflect(HighSteps(c, n), 32) == LowSteps(Reflect(c, 32), n)
  {
    hide Reflect, HighStep, LowStep;
    if n > 0 {
      StepsReflect(c, n - 1);
      StepReflects(HighSteps(c, n - 1));
    }
  }

  function Doubles(x: bv32, k: nat): bv32 {
    if k == 0 then x else Doubled(Doubles(x, k - 1))
  }

  lemma {:induction false} ReflectDoubles(x: bv32, k: nat)
    requires k <= 32
    ensures Reflect(Doubles(x, k), 32) == Reflect(x, 32 - k)
  {
    hide Half, Doubled, Reflect;
    if k > 0 {
      ReflectDoubles(x, k - 1);
      ReflectDoubled(Doubles(x, k - 1));
      ReflectDrop(x, 33 - k);
    }
  }

  function ShiftedBy24(x: bv32): bv32 {
    x << 24
  }

  lemma DoublesEight(x: bv32, k: nat)
    ensures Doubles(x, k + 8) == ShiftedBy8(Doubles(x, k))
  {
    hide Doubled, ShiftedBy8;
    DoubledEight(Doubles(x, k));
    assert Doubles(x, k + 2) == Doubled(Doubled(Doubles(x, k)));
    assert Doubles(x, k + 4) == Doubled(Doubled(Doubles(x, k + 2)));
    assert Doubles(x, k + 6) == Doubled(Doubled(Doubles(x, k + 4)));
  }

  lemma Doubles24(x: bv32)
    ensures Doubles(x, 24) == ShiftedBy24(x)
  {
    hide Doubled, ShiftedBy8, ShiftedBy24;
    DoublesEight(x, 0);
    DoublesEight(x, 8);
    DoublesEight(x, 16);
    ThreeShifts(x);
  }

  lemma ThreeShifts(x: bv32)
    ensures ShiftedBy8(ShiftedBy8(ShiftedBy8(x))) == ShiftedBy24(x)
  {
  }

  /** The bits of a value below a number, from the highest. */
  function Low(v: bv32, bits: nat): bv32 {
    if bits == 0 then 0 else Put(!Clear(v, One(bits - 1)), One(bits - 1), Low(v, bits - 1))
  }

  /** Reflecting twice gives the low bits back. */
  lemma {:induction false} ReflectTwice(v: bv32, bits: nat)
    requires bits <= 32
    ensures Reflect(Reflect(v, bits), bits) == Low(v, bits)
  {
    hide Half, Odd, Put, Clear, One;
    if bits > 0 {
      ReflectDrop(v, bits);
      ReflectTwice(v, bits - 1);
      var r := Reflect(v, bits);
      assert Reflect(r, bits) == Put(Odd(r), One(bits - 1), Reflect(Half(r), bits - 1));
    }
  }

  function Bit(v: bv32, m: bv32, x: bv32): bv32 {
    Put(!Clear(v, m), m, x)
  }

  lemma LowNext(v: bv32, n: nat)
    ensures Low(v, n + 1) == Bit(v, One(n), Low(v, n))
  {
    hide Put, Clear, One;
  }

  lemma LowNone(v: bv32)
    ensures Low(v, 0) == 0
  {
  }

  lemma LowEight(v: bv32)
    ensures Low(v, 8) == Bit(v, 128, Bit(v, 64, Bit(v, 32, Bit(v, 16, Bit(v, 8, Bit(v, 4, Bit(v, 2, Bit(v, 1, 0))))))))
  {
    hide Bit, Low, One;
    OneValues();
    LowNone(v);
    LowNext(v, 0); LowNext(v, 1); LowNext(v, 2); LowNext(v, 3);
    LowNext(v, 4); LowNext(v, 5); LowNext(v, 6); LowNext(v, 7);
  }

  lemma AllBits(v: bv32)
    requires v < 256
    ensures Bit(v, 128, Bit(v, 64, Bit(v, 32, Bit(v, 16, Bit(v, 8, Bit(v, 4, Bit(v, 2, Bit(v, 1, 0)))))))) == v
  {
  }

  lemma LowByte(b: bv8)
    ensures Low(b as bv32, 8) == b as bv32
  {
    hide Low;
    LowEight(b as bv32);
    AllBits(b as bv32);
  }

  /** What the table holds for a byte, as it is computed. */
  function TableEntry(b: bv8): bv32 {
    Reflect(HighSteps(ShiftedBy24(Reflect(b as bv32, 8)), 8), 32)
  }

  /** An entry of the reflected table is eight low-bit-first steps of its byte. */
  lemma TableEntryIsSteps(b: bv8)
    ensures TableEntry(b) == LowSteps(b as bv32, 8)
  {
    hide Reflect, HighSteps, LowSteps, ShiftedBy24, Doubles, Low;
    var r := Reflect(b as bv32, 8);
    StepsReflect(ShiftedBy24(r), 8);
    Doubles24(r);
    ReflectDoubles(r, 24);
    ReflectTwice(b as bv32, 8);
    LowByte(b);
  }

  // One byte at a time

  lemma LowStepXor(a: bv32, b: bv32)
    ensures LowStep(Xor(a, b)) == Xor(LowStep(a), LowStep(b))
  {
    hide Half, Odd, Xor;
    HalfXor(a, b);
    var x, y := Half(a), Half(b);
    XorMoves(REFLECTED, x, y);
    XorAssociates(x, y, REFLECTED);
    XorAssociates(x, REFLECTED, y);
    XorCommutes(REFLECTED, y);
  }

  lemma {:induction false} LowStepsXor(a: bv32, b: bv32, n: nat)
    ensures LowSteps(Xor(a, b), n) == Xor(LowSteps(a, n), LowSteps(b, n))
  {
    hide LowStep, Xor;
    if n > 0 {
      LowStepsXor(a, b, n - 1);
      LowStepXor(LowSteps(a, n - 1), LowSteps(b, n - 1));
    }
  }

  function Right8(x: bv32): bv32 {
    x >> 8
  }

  function LowPart(x: bv32): bv32 {
    x & 0xFF
  }

  function HighPart(x: bv32): bv32 {
    x & 0xFFFF_FF00
  }

  lemma EvenStep(x: bv32, y: bv32)
    requires !Odd(x) && Half(x) == y
    ensures LowStep(x) == y
  {
  }

  lemma EvenHalf(h: bv32, m: bv32)
    requires Clear(h, m) && Odd(m)
    ensures !Odd(h) && Clear(Half(h), Half(m))
  {
  }

  lemma Masks()
    ensures Half(255) == 127 && Half(127) == 63 && Half(63) == 31 && Half(31) == 15 && Half(15) == 7 && Half(7) == 3
      && Half(3) == 1
    ensures Odd(255) && Odd(127) && Odd(63) && Odd(31) && Odd(15) && Odd(7) && Odd(3) && Odd(1)
  {
  }

  lemma HalfEight(x: bv32)
    ensures Half(Half(Half(Half(Half(Half(Half(Half(x)))))))) == Right8(x)
  {
  }

  /** Four steps of a word without low bits. */
  lemma FourSteps(h: bv32, n: nat, m: bv32)
    requires Clear(LowSteps(h, n), m) && Odd(m) && Odd(Half(m)) && Odd(Half(Half(m))) && Odd(Half(Half(Half(m))))
    ensures LowSteps(h, n + 4) == Half(Half(Half(Half(LowSteps(h, n)))))
    ensures Clear(LowSteps(h, n + 4), Half(Half(Half(Half(m)))))
  {
    hide Half, Odd, LowStep, Clear;
    var x := LowSteps(h, n);
    EvenHalf(x, m);
    EvenHalf(Half(x), Half(m));
    EvenHalf(Half(Half(x)), Half(Half(m)));
    EvenHalf(Half(Half(Half(x))), Half(Half(Half(m))));
    EvenStep(x, Half(x));
    EvenStep(Half(x), Half(Half(x)));
    EvenStep(Half(Half(x)), Half(Half(Half(x))));
    EvenStep(Half(Half(Half(x))), Half(Half(Half(Half(x)))));
    assert LowSteps(h, n + 1) == Half(x);
    assert LowSteps(h, n + 3) == Half(Half(Half(x)));
  }

  /** Eight steps of a word without low bits only shift it. */
  lemma HighStepsShift(h: bv32)
    requires Clear(h, 255)
    ensures LowSteps(h, 8) == Right8(h)
  {
    hide Half, Odd, LowStep, Clear, Right8;
    Masks();
    HalfEight(h);
    FourSteps(h, 0, 255);
    FourSteps(h, 4, 15);
  }

  /** The index of the table the code reads. */
  function Index(crc: bv32, byte: bv8): bv8 {
    (crc & 0xFF) as bv8 ^ byte
  }

  lemma PartsXor(u: bv32)
    ensures (u & 0xFFFF_FF00) ^ (u & 0xFF) == u
  {
  }

  lemma Parts(u: bv32)
    ensures Xor(HighPart(u), LowPart(u)) == u
  {
    PartsXor(u);
  }

  lemma HighPartClear(u: bv32)
    ensures Clear(HighPart(u), 255)
  {
  }

  lemma ByteInHighPart(crc: bv32, byte: bv8)
    ensures Right8(HighPart(Xor(crc, byte as bv32))) == Right8(crc)
  {
    hide Xor, Right8, HighPart;
    MaskedShift(Xor(crc, byte as bv32));
    ShiftXor(crc, byte as bv32);
    ShiftedOut(byte);
    XorZero(Right8(crc));
  }

  lemma MaskedShift(x: bv32)
    ensures Right8(HighPart(x)) == Right8(x)
  {
  }

  lemma ShiftXor(x: bv32, y: bv32)
    ensures Right8(Xor(x, y)) == Xor(Right8(x), Right8(y))
  {
  }

  lemma ShiftedOut(byte: bv8)
    ensures Right8(byte as bv32) == 0
  {
  }

  lemma ByteInLowPart(crc: bv32, byte: bv8)
    ensures LowPart(Xor(crc, byte as bv32)) == Index(crc, byte) as bv32
  {
    assert (crc ^ (byte as bv32)) & 0xFF == ((crc & 0xFF) as bv8 ^ byte) as bv32;
  }

  /** The table-driven update of one byte is the standard's. */
  lemma TableUpdate(crc: bv32, byte: bv8)
    ensures Xor(Right8(crc), TableEntry(Index(crc, byte))) == Update(crc, byte)
  {
    hide Xor, Right8, TableEntry, Index, LowSteps, LowPart, HighPart, Clear;
    var u := Xor(crc, byte as bv32);
    Parts(u);
    HighPartClear(u);
    ByteInHighPart(crc, byte);
    ByteInLowPart(crc, byte);
    TableEntryIsSteps(Index(crc, byte));
    LowStepsXor(HighPart(u), LowPart(u), 8);
    HighStepsShift(HighPart(u));
  }

  lemma {:induction false} UpdatesConcat(crc: bv32, a: seq<bv8>, b: seq<bv8>)
    ensures Updates(crc, a + b) == Updates(Updates(crc, a), b)
  {
    hide Update;
    if b == [] {
      assert a + b == a;
    } else {
      var n := |b| - 1;
      assert (a + b)[..|a + b| - 1] == a + b[..n];
      UpdatesConcat(crc, a, b[..n]);
    }
  }
}
