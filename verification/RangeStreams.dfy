/** The macros of enet/compress.c that move bytes: the encoder writing to a bounded buffer, the
    decoder reading past the end of its input as zeros. */
module RangeStreams {
  import opened Octets
  import opened Division
  import opened RangeCoder

  /** The exclusive or of the lowest n bits. */
  function Xor(a: nat, b: nat, n: nat): nat {
    if n == 0 then 0 else 2 * Xor(a / 2, b / 2, n - 1) + (a + b) % 2
  }

  /** The test of the normalising loop as the C code makes it. */
  lemma TopTestInBits(c: Coder)
    requires 0 <= c.low < MODULUS && 0 <= c.range
    ensures Xor(c.low, (c.low + c.range) % MODULUS, 32) >= TOP <==> TopDiffers(c)
  {
    hide Xor, ShiftRight;
    var end := (c.low + c.range) % MODULUS;
    ThreeBytes();
    XorShifted(c.low, end, 32, 24);
    ShiftedThreeBytes(Xor(c.low, end, 32));
    ShiftedThreeBytes(c.low);
    ShiftedThreeBytes(end);
    XorZero(c.low / TOP, end / TOP, 8);
  }

  function ShiftRight(x: nat, k: nat): nat {
    if k == 0 then x else ShiftRight(x / 2, k - 1)
  }

  lemma {:induction false} Shifted(x: nat, k: nat)
    ensures ShiftRight(x, k) * PowerOfTwo(k) <= x < (ShiftRight(x, k) + 1) * PowerOfTwo(k)
  {
    if k > 0 {
      Shifted(x / 2, k - 1);
      Doubled(ShiftRight(x / 2, k - 1), PowerOfTwo(k - 1));
      Doubled(ShiftRight(x / 2, k - 1) + 1, PowerOfTwo(k - 1));
    }
  }

  lemma ThreeBytes()
    ensures PowerOfTwo(8) == 256 && PowerOfTwo(24) == TOP
  {
    assert PowerOfTwo(24) == 256 * PowerOfTwo(16) == 0x1_0000 * PowerOfTwo(8);
  }

  lemma Doubled(x: nat, y: nat)
    ensures x * (2 * y) == 2 * (x * y)
  {
  }

  lemma ShiftedThreeBytes(x: nat)
    ensures ShiftRight(x, 24) == x / TOP
  {
    hide ShiftRight;
    Shifted(x, 24);
    ThreeBytes();
    DivBounds(x, ShiftRight(x, 24), ShiftRight(x, 24) + 1, TOP);
  }

  function PowerOfTwo(k: nat): nat {
    if k == 0 then 1 else 2 * PowerOfTwo(k - 1)
  }

  lemma {:induction false} XorShifted(a: nat, b: nat, n: nat, k: nat)
    requires k <= n
    ensures ShiftRight(Xor(a, b, n), k) == Xor(ShiftRight(a, k), ShiftRight(b, k), n - k)
  {
    if k > 0 { XorShifted(a / 2, b / 2, n - 1, k - 1); }
  }

  lemma {:induction false} XorZero(a: nat, b: nat, n: nat)
    requires a < PowerOfTwo(n) && b < PowerOfTwo(n)
    ensures Xor(a, b, n) == 0 <==> a == b
  {
    if n > 0 { XorZero(a / 2, b / 2, n - 1); }
  }

  lemma Regroup(before: seq<Byte>, b: Byte, rest: seq<Byte>)
    ensures before + ([b] + rest) == before + [b] + rest
  {
  }

  class RangeEncoder {
    var low: Word
    var range: Word
    const outData: array<Byte>
    var size: nat

    ghost predicate Ready()
      reads this
    {
      Normal(Coder(low, range)) && size <= outData.Length
    }

    constructor (buffer: array<Byte>)
      ensures Ready() && outData == buffer && size == 0 && Coder(low, range) == START
    {
      outData := buffer;
      low, range, size := 0, 0xFFFF_FFFF, 0;
    }

    /** ENET_RANGE_CODER_OUTPUT */
    method Output(value: Byte) returns (ok: bool)
      requires size <= outData.Length
      modifies this`size, outData
      ensures ok <==> old(size) < outData.Length
      ensures !ok ==> size == old(size)
      ensures ok ==> size == old(size) + 1 && outData[..size] == old(outData[..size]) + [value]
    {
      ok := size < outData.Length;
      if ok {
        outData[size] := value;
        size := size + 1;
      }
    }

    /** The normalising loop of ENET_RANGE_CODER_ENCODE. */
    method Renormalize() returns (ok: bool)
      requires Valid(Coder(low, range)) && size <= outData.Length
      modifies this, outData
      ensures size <= outData.Length
      ensures var n := Normalize(old(Coder(low, range)));
        if ok then Coder(low, range) == n.coder && outData[..size] == old(outData[..size]) + n.bytes
        else outData.Length < old(size) + |n.bytes|
    {
      ghost var out0, n := outData[..size], Normalize(Coder(low, range));
      hide Normalize, Valid, Loose, TopDiffers, Turn;
      while true
        invariant Valid(Coder(low, range)) && size <= outData.Length
        invariant outData[..size] + Normalize(Coder(low, range)).bytes == out0 + n.bytes
        invariant Normalize(Coder(low, range)).coder == n.coder
        decreases |Normalize(Coder(low, range)).bytes|
      {
        ghost var c, before := Coder(low, range), outData[..size];
        ValidIsLoose(c);
        if TopDiffers(Coder(low, range)) {
          if range >= BOTTOM { break; }
          range := (MODULUS - low) % BOTTOM;
        }
        TurnIs(c, range);
        ok := Output(low / TOP);
        if !ok { return; }
        range := range * 256 % MODULUS;
        low := low * 256 % MODULUS;
        Regroup(before, outData[size - 1], Normalize(Turn(c)).bytes);
      }
      NormalizeDone(Coder(low, range));
      ok := true;
    }

    /** ENET_RANGE_CODER_ENCODE */
    method Encode(s: Slot) returns (ok: bool)
      requires Ready() && Fits(s)
      modifies this, outData
      ensures size <= outData.Length
      ensures var n := RangeCoder.Encode(old(Coder(low, range)), s);
        if ok then Coder(low, range) == n.coder && outData[..size] == old(outData[..size]) + n.bytes
        else outData.Length < old(size) + |n.bytes|
    {
      hide Normalize, RangeCoder.Encode, Narrow, Valid;
      NarrowedWords(Coder(low, range), s);
      range := range / s.total;
      low := low + s.under * range;
      range := range * s.count;
      ok := Renormalize();
    }

    /** ENET_RANGE_CODER_FLUSH */
    method Flush() returns (ok: bool)
      requires Ready()
      modifies this, outData
      ensures size <= outData.Length
      ensures var bytes := RangeCoder.Flush(old(low));
        if ok then outData[..size] == old(outData[..size]) + bytes
        else outData.Length < old(size) + |bytes|
    {
      ghost var low0, out0 := low, outData[..size];
      hide Significant;
      while low != 0
        invariant size <= outData.Length
        invariant outData[..size] + RangeCoder.Flush(low) == out0 + RangeCoder.Flush(low0)
        decreases Significant(low)
      {
        ghost var before := outData[..size];
        FlushByte(low);
        ok := Output(low / TOP);
        if !ok { return; }
        low := low * 256 % MODULUS;
        Regroup(before, outData[size - 1], RangeCoder.Flush(low));
      }
      ok := true;
    }
  }

  /** Narrowing stays within 32-bit words, and normalising it is encoding the slot. */
  lemma NarrowedWords(c: Coder, s: Slot)
    requires Normal(c) && Fits(s)
    ensures var unit := c.range / s.total;
      0 <= unit < MODULUS && Narrow(c, s) == Coder(c.low + s.under * unit, unit * s.count)
    ensures 0 <= Narrow(c, s).low < MODULUS && 0 <= Narrow(c, s).range < MODULUS
    ensures Valid(Narrow(c, s)) && Normalize(Narrow(c, s)) == RangeCoder.Encode(c, s)
  {
    NarrowInside(c, s);
    UnitPositive(c.range, s.total);
    MulMonotone(1, s.total, c.range / s.total);
  }

  lemma FlushByte(low: Word)
    requires low != 0
    ensures RangeCoder.Flush(low) == [low / TOP] + RangeCoder.Flush(low * 256 % MODULUS)
    ensures Significant(low * 256 % MODULUS) < Significant(low)
  {
    FlushStep(low);
  }

  /** One turn of the normalising loop, after its test left the range as `range`. */
  lemma TurnIs(c: Coder, range: int)
    requires Loose(c) && !Settled(c)
    requires range == if TopDiffers(c) then (MODULUS - c.low) % BOTTOM else c.range
    ensures Turn(c) == Coder(c.low * 256 % MODULUS, range * 256 % MODULUS) && Valid(Turn(c)) && Loose(Turn(c))
    ensures Normalize(c) == Normalized(Normalize(Turn(c)).coder, [c.low / TOP] + Normalize(Turn(c)).bytes)
  {
    NormalizeTurn(c);
  }

  /** Shifting the next input byte, or a zero past the end, into the code. */
  lemma NextCode(inData: seq<Byte>, pos: nat, next: nat, code: Word)
    requires code == Window(inData, pos) && next == if pos + 4 <= |inData| then pos + 4 else |inData|
    ensures next < |inData| ==> next == pos + 4
    ensures next >= |inData| ==> next == |inData| <= pos + 4
    ensures Window(inData, pos + 1) == code * 256 % MODULUS + if next < |inData| then inData[next] else 0
  {
    WindowShift(inData, pos);
  }

  class RangeDecoder {
    var low: Word
    var range: Word
    var code: Word
    const inData: seq<Byte>
    var next: nat
    ghost var pos: nat

    /** The code is the window at pos, and the next unread byte is the one behind it. */
    ghost predicate AtWindow()
      reads this`code, this`pos, this`next
    {
      && code == Window(inData, pos)
      && next == if pos + 4 <= |inData| then pos + 4 else |inData|
    }

    ghost predicate Ready()
      reads this
    {
      Steady(Coder(low, range)) && AtWindow()
    }

    /** ENET_RANGE_CODER_SEED */
    constructor (input: seq<Byte>)
      ensures Ready() && inData == input && pos == 0 && Coder(low, range) == START && Normal(START)
    {
      inData := input;
      low, range, pos := 0, 0xFFFF_FFFF, 0;
      var seed: int, used: nat := 0, 0;
      if used < |input| { seed := seed + TOP * input[used]; used := used + 1; }
      if used < |input| { seed := seed + BOTTOM * input[used]; used := used + 1; }
      if used < |input| { seed := seed + 256 * (input[used] as int); used := used + 1; }
      if used < |input| { seed := seed + input[used]; used := used + 1; }
      code, next := seed, used;
    }

    /** ENET_RANGE_CODER_READ: divides the range into units and says, in 16 bits, which one holds the code. */
    method Read(total: nat) returns (unit: nat)
      requires Ready() && 0 < total < BOTTOM
      modifies this`range
      ensures range == old(range) / total
      ensures unit == RangeCoder.Read(old(Coder(low, range)), code, total)
    {
      UnitPositive(range, total);
      MulMonotone(1, total, range / total);
      range := range / total;
      unit := (code - low) % MODULUS / range % 0x1_0000;
    }

    /** The next byte comes into the code, or a zero past the end. */
    method Shift()
      requires AtWindow()
      modifies this`code, this`next, this`pos
      ensures AtWindow() && pos == old(pos) + 1
    {
      hide Window, At;
      NextCode(inData, pos, next, code);
      code := code * 256 % MODULUS;
      if next < |inData| {
        code := code + inData[next];
        next := next + 1;
      }
      pos := pos + 1;
    }

    /** The normalising loop of ENET_RANGE_CODER_DECODE, shifting the code along. */
    method Renormalize()
      requires Loose(Coder(low, range)) && AtWindow()
      modifies this
      ensures Ready()
      ensures var n := Normalize(old(Coder(low, range)));
        Coder(low, range) == n.coder && pos == old(pos) + |n.bytes|
    {
      ghost var pos0, n := pos, Normalize(Coder(low, range));
      hide Normalize, Valid, Loose, TopDiffers, AtWindow, Turn;
      while true
        invariant Loose(Coder(low, range)) && AtWindow()
        invariant pos + |Normalize(Coder(low, range)).bytes| == pos0 + |n.bytes|
        invariant Normalize(Coder(low, range)).coder == n.coder
        decreases |Normalize(Coder(low, range)).bytes|
      {
        ghost var c := Coder(low, range);
        if TopDiffers(Coder(low, range)) {
          if range >= BOTTOM { break; }
          range := (MODULUS - low) % BOTTOM;
        }
        TurnIs(c, range);
        Shift();
        range := range * 256 % MODULUS;
        low := low * 256 % MODULUS;
      }
      NormalizeDone(Coder(low, range));
    }

    /** ENET_RANGE_CODER_DECODE, after a read has divided the range c0 had. */
    method Decode(s: Slot, ghost c0: Coder)
      requires Steady(c0) && Narrows(s) && low == c0.low && range == c0.range / s.total && AtWindow()
      modifies this
      ensures Ready()
      ensures Normal(c0) && Fits(s) ==>
        var n := RangeCoder.Encode(c0, s); Coder(low, range) == n.coder && pos == old(pos) + |n.bytes|
    {
      hide Normalize, Narrow, Valid, Loose, Window, Fits, Narrows, Settled;
      NarrowLoose(c0, s);
      NarrowedAround(c0, s);
      low := (low + s.under * range) % MODULUS;
      range := range * s.count;
      Renormalize();
    }
  }

  lemma NarrowedAround(c: Coder, s: Slot)
    requires Steady(c) && Narrows(s)
    ensures s.total > 0
    ensures var n := NarrowAround(c, s); 0 <= n.low < MODULUS && 0 <= n.range < MODULUS && Loose(n)
    ensures Normal(c) && Fits(s) ==> Normalize(NarrowAround(c, s)) == RangeCoder.Encode(c, s)
  {
    NarrowLoose(c, s);
    if Normal(c) && Fits(s) { NarrowInside(c, s); }
  }
}
