/** The carry-less 32-bit range coder of enet/compress.c: narrowing the interval to a slot,
    the normalising loop, the flush, and what a decoder reading the same bytes sees. */
module RangeCoder {
  import opened Octets
  import opened Division

  const TOP: int := 0x100_0000
  const BOTTOM: int := 0x1_0000
  const MODULUS: int := 0x1_0000_0000

  type Word = x: int | 0 <= x < 0x1_0000_0000

  /** A slot of a frequency table: `count` units starting at `under`, out of `total`. */
  datatype Slot = Slot(under: nat, count: nat, total: nat)

  datatype Coder = Coder(low: int, range: int)

  datatype Normalized = Normalized(coder: Coder, bytes: seq<Byte>)

  /** What both coders start from. */
  const START := Coder(0, 0xFFFF_FFFF)

  predicate Fits(s: Slot) {
    1 <= s.count && s.under + s.count <= s.total < BOTTOM
  }

  /** The interval [low, low + range) is non-empty and lies inside 32 bits. When it reaches the
      very end, low + range wraps to 0 in the C code, so low must then not be in the first top byte. */
  predicate Valid(c: Coder) {
    && 0 <= c.low < MODULUS
    && 0 < c.range < MODULUS
    && c.low + c.range <= MODULUS
    && (c.low + c.range == MODULUS ==> TOP <= c.low)
  }

  /** (low ^ (low + range)) >= TOP in 32-bit arithmetic: the top bytes differ. */
  predicate TopDiffers(c: Coder) {
    c.low / TOP != (c.low + c.range) % MODULUS / TOP
  }

  /** The exit test of the normalising loop. */
  predicate Settled(c: Coder) {
    TopDiffers(c) && BOTTOM <= c.range
  }

  predicate Normal(c: Coder) {
    Valid(c) && Settled(c)
  }

  /** What the interval keeps on any stream: it may lie across the end of 32 bits, but not by a whole top byte. */
  predicate Loose(c: Coder) {
    && 0 <= c.low < MODULUS && 0 < c.range < MODULUS
    && (Valid(c) || c.range < MODULUS - TOP)
  }

  /** And what it keeps between two symbols. */
  predicate Steady(c: Coder) {
    Loose(c) && BOTTOM <= c.range
  }

  lemma ValidIsLoose(c: Coder)
    requires Valid(c)
    ensures Loose(c)
  {
  }

  lemma NormalIsSteady(c: Coder)
    requires Normal(c)
    ensures Steady(c)
  {
  }

  /** One turn of the normalising loop that does not exit: cut the range down to the next
      multiple of BOTTOM when the top bytes differ, then shift one byte out. */
  function Turn(c: Coder): Coder {
    var range := if TopDiffers(c) then (MODULUS - c.low) % BOTTOM else c.range;
    Coder(c.low * 256 % MODULUS, range * 256 % MODULUS)
  }

  function TopByte(c: Coder): Byte
    requires 0 <= c.low < MODULUS
  {
    c.low / TOP
  }

  /** What one turn does to the interval: it stays valid, and it only loses points. */
  lemma TurnShrinks(c: Coder)
    requires Valid(c) && !Settled(c)
    ensures Valid(Turn(c))
    ensures Turn(c).low == c.low % TOP * 256
    ensures Turn(c).range <= c.range * 256
    ensures TopDiffers(c) ==> Turn(c).low + Turn(c).range == MODULUS
    ensures c.low + c.range == MODULUS ==> TopDiffers(c) && Turn(c).range == c.range * 256
    ensures !TopDiffers(c) ==> Turn(c).range == c.range * 256 && Turn(c).low + Turn(c).range < MODULUS
  {
    ShiftedLow(c.low);
    if TopDiffers(c) {
      CutMeetsBoundary(c);
    } else {
      SameTop(c);
    }
  }

  lemma ShiftedLow(low: Word)
    ensures low * 256 % MODULUS == low % TOP * 256
  {
    ModUnique(low * 256, low / TOP, low % TOP * 256, MODULUS);
  }

  /** With the same top byte at both ends, the interval fits below the next multiple of TOP. */
  lemma SameTop(c: Coder)
    requires Valid(c) && !TopDiffers(c)
    ensures c.low + c.range < MODULUS
    ensures c.low % TOP + c.range < TOP
  {
    assert c.low + c.range < MODULUS;
    assert (c.low + c.range) / TOP == c.low / TOP;
  }

  /** The cut range ends exactly at the next multiple of TOP. */
  lemma CutMeetsBoundary(c: Coder)
    requires Valid(c) && TopDiffers(c) && c.range < BOTTOM
    ensures var cut := (MODULUS - c.low) % BOTTOM;
      0 < cut <= c.range && c.low % TOP + cut == TOP &&
      (c.low + c.range == MODULUS ==> cut == c.range)
  {
    var page := c.low / BOTTOM;
    var low16 := c.low % BOTTOM;
    assert c.low == page * BOTTOM + low16;
    var end := c.low + c.range;
    var endTop := end / TOP;
    assert c.low / TOP < endTop by {
      if end < MODULUS { assert end % MODULUS == end; }
    }
    // the boundary between the two top bytes is the only multiple of BOTTOM in reach
    var boundary := (c.low / TOP + 1) * TOP;
    assert c.low < boundary <= end;
    assert boundary == (c.low / TOP + 1) * 256 * BOTTOM;
    assert boundary - c.low < BOTTOM;
    var cut := boundary - c.low;
    ModUnique(MODULUS - c.low, BOTTOM - (c.low / TOP + 1) * 256, cut, BOTTOM);
  }

  /** An interval across the end has different top bytes at its ends; cut there, it is valid again. */
  lemma TurnBack(c: Coder)
    requires Loose(c) && !Valid(c)
    ensures TopDiffers(c)
    ensures !Settled(c) ==> Valid(Turn(c))
  {
    var end := c.low + c.range - MODULUS;
    assert 0 <= end < c.low;
    ModUnique(c.low + c.range, 1, end, MODULUS);
    if !Settled(c) {
      ModUnique(MODULUS - c.low, 0, MODULUS - c.low, BOTTOM);
      ShiftedLow(c.low);
      ModUnique(c.low, 255, c.low - 255 * TOP, TOP);
    }
  }

  /** Runs the normalising loop, collecting the bytes it shifts out. */
  function Normalize(c: Coder): (n: Normalized)
    requires Loose(c)
    ensures Steady(n.coder) && (Valid(c) ==> Normal(n.coder))
    decreases if !Valid(c) then 2 else if c.low + c.range == MODULUS then 0 else 1, MODULUS - c.range
  {
    if Settled(c) then
      Normalized(c, [])
    else
      LooseTurn(c);
      var rest := Normalize(Turn(c));
      Normalized(rest.coder, [TopByte(c)] + rest.bytes)
  }

  lemma LooseTurn(c: Coder)
    requires Loose(c) && !Settled(c)
    ensures Valid(Turn(c))
    ensures Valid(c) && c.low + c.range == MODULUS ==>
      Turn(c).low + Turn(c).range == MODULUS && Turn(c).range == c.range * 256
    ensures Valid(c) && c.low + c.range < MODULUS ==>
      Turn(c).low + Turn(c).range == MODULUS || Turn(c).range == c.range * 256
  {
    if Valid(c) { TurnShrinks(c); } else { TurnBack(c); }
  }

  lemma NormalizeTurn(c: Coder)
    requires Loose(c) && !Settled(c)
    ensures Valid(Turn(c)) && Loose(Turn(c))
    ensures Normalize(c) == Normalized(Normalize(Turn(c)).coder, [TopByte(c)] + Normalize(Turn(c)).bytes)
  {
    LooseTurn(c);
  }

  lemma NormalizeDone(c: Coder)
    requires Loose(c) && Settled(c)
    ensures Normalize(c) == Normalized(c, [])
  {
  }

  /** The subinterval a slot selects. */
  function Narrow(c: Coder, s: Slot): Coder
    requires Fits(s)
  {
    var unit := c.range / s.total;
    Coder(c.low + s.under * unit, unit * s.count)
  }

  lemma NarrowInside(c: Coder, s: Slot)
    requires Normal(c) && Fits(s)
    ensures Valid(Narrow(c, s))
    ensures c.low <= Narrow(c, s).low
    ensures Narrow(c, s).low + Narrow(c, s).range <= c.low + c.range
    ensures 1 <= c.range / s.total
  {
    var unit := c.range / s.total;
    UnitPositive(c.range, s.total);
    assert unit * s.count >= 1 by { MulMonotone(1, s.count, unit); }
    MulMonotone(s.under + s.count, s.total, unit);
    assert (s.under + s.count) * unit == s.under * unit + unit * s.count;
    MulMonotone(0, s.under, unit);
  }

  lemma UnitPositive(range: int, total: int)
    requires 0 < total <= range
    ensures 1 <= range / total && total * (range / total) <= range
  {
  }

  /** A slot that leaves at least one part in 256, or takes the lowest part. */
  predicate Narrows(s: Slot) {
    && 1 <= s.count && s.total < BOTTOM
    && (256 * s.count <= 255 * s.total || (s.under == 0 && s.count < s.total))
  }

  /** Narrowing as the decoder does it, in 32 bits. */
  function NarrowAround(c: Coder, s: Slot): Coder
    requires s.total > 0
  {
    var unit := c.range / s.total;
    Coder((c.low + s.under * unit) % MODULUS, unit * s.count)
  }

  /** Whatever slot the decoder takes its model for, the interval does not grow too wide, and not empty. */
  lemma NarrowLoose(c: Coder, s: Slot)
    requires Steady(c) && Narrows(s)
    ensures s.total > 0 && Loose(NarrowAround(c, s))
    ensures Normal(c) && Fits(s) ==> NarrowAround(c, s) == Narrow(c, s)
  {
    hide Valid, Settled;
    var unit := c.range / s.total;
    UnitPositive(c.range, s.total);
    MulMonotone(1, s.count, unit);
    if 256 * s.count <= 255 * s.total {
      NarrowBound(s, unit, c.range);
    } else {
      MulMonotone(s.count, s.total, unit);
      LowerPart(c, unit * s.count);
      assert s.under * unit == 0;
    }
    if Normal(c) && Fits(s) { NarrowValid(c, s); }
  }

  lemma LowerPart(c: Coder, range: int)
    requires Loose(c) && 0 < range <= c.range
    ensures Loose(Coder(c.low, range))
  {
  }

  lemma NarrowValid(c: Coder, s: Slot)
    requires Normal(c) && Fits(s)
    ensures 0 <= Narrow(c, s).low < MODULUS
  {
    NarrowInside(c, s);
  }

  lemma NarrowBound(s: Slot, unit: nat, range: Word)
    requires 256 * s.count <= 255 * s.total && s.total * unit <= range
    ensures unit * s.count < MODULUS - TOP
  {
    MulMonotone(256 * s.count, 255 * s.total, unit);
    assert 256 * s.count * unit == 256 * (unit * s.count);
    assert 255 * s.total * unit == 255 * (s.total * unit);
  }

  /** Encoding one slot: narrow, then normalise. */
  function Encode(c: Coder, s: Slot): (n: Normalized)
    requires Normal(c) && Fits(s)
    ensures Normal(n.coder)
  {
    NarrowInside(c, s);
    Normalize(Narrow(c, s))
  }

  predicate AllFit(slots: seq<Slot>) {
    forall i :: 0 <= i < |slots| ==> Fits(slots[i])
  }

  function EncodeAll(c: Coder, slots: seq<Slot>): (n: Normalized)
    requires Normal(c) && AllFit(slots)
    ensures Normal(n.coder)
    decreases |slots|
  {
    if slots == [] then
      Normalized(c, [])
    else
      var first := Encode(c, slots[0]);
      var rest := EncodeAll(first.coder, slots[1..]);
      Normalized(rest.coder, first.bytes + rest.bytes)
  }

  /** How many low bytes of a 32-bit word are left before only zeros remain. */
  function Significant(low: Word): nat {
    if low == 0 then 0
    else if low % TOP == 0 then 1
    else if low % BOTTOM == 0 then 2
    else if low % 256 == 0 then 3
    else 4
  }

  /** The flush: the bytes of low from the top, without its trailing zeros. */
  function Flush(low: Word): (bytes: seq<Byte>)
    ensures |bytes| == Significant(low)
    decreases Significant(low)
  {
    if low == 0 then
      []
    else
      FlushStep(low);
      [low / TOP] + Flush(low * 256 % MODULUS)
  }

  lemma FlushStep(low: Word)
    requires low != 0
    ensures low * 256 % MODULUS == low % TOP * 256
    ensures Significant(low * 256 % MODULUS) == Significant(low) - 1
  {
    var rest := low % TOP;
    ModUnique(low * 256, low / TOP, rest * 256, MODULUS);
    LowDigits(low);
    ShiftedDigits(rest);
  }

  lemma LowDigits(low: Word)
    ensures low % TOP % BOTTOM == low % BOTTOM && low % TOP % 256 == low % 256
  {
    var q, rest := low / TOP, low % TOP;
    ModUnique(low, q * 256 + rest / BOTTOM, rest % BOTTOM, BOTTOM);
    ModUnique(low, q * BOTTOM + rest / 256, rest % 256, 256);
  }

  lemma ShiftedDigits(rest: nat)
    ensures rest * 256 % TOP == rest % BOTTOM * 256
    ensures rest * 256 % BOTTOM == rest % 256 * 256
    ensures rest * 256 % 256 == 0
  {
    ModUnique(rest * 256, rest / BOTTOM, rest % BOTTOM * 256, TOP);
    ModUnique(rest * 256, rest / 256, rest % 256 * 256, BOTTOM);
    ModUnique(rest * 256, rest, 0, 256);
  }

  /** The byte at offset k of a stream, zero past its end. */
  function At(stream: seq<Byte>, k: nat): Byte {
    if k < |stream| then stream[k] else 0
  }

  /** The 32 bits a decoder holds after consuming the bytes before offset k + 4. */
  function Window(stream: seq<Byte>, k: nat): Word {
    At(stream, k) * TOP + At(stream, k + 1) * BOTTOM + At(stream, k + 2) * 256 + At(stream, k + 3)
  }

  predicate Contains(c: Coder, code: int) {
    c.low <= code < c.low + c.range
  }

  /** Shifting the decoder's window one byte on. */
  lemma WindowShift(stream: seq<Byte>, k: nat)
    ensures Window(stream, k + 1) == Window(stream, k) * 256 % MODULUS + At(stream, k + 4)
    ensures Window(stream, k + 1) / 256 == Window(stream, k) % TOP
  {
    var rest := At(stream, k + 1) * BOTTOM + At(stream, k + 2) * 256 + At(stream, k + 3);
    assert 0 <= rest < TOP;
    ModUnique(Window(stream, k) * 256, At(stream, k), rest * 256, MODULUS);
    ModUnique(Window(stream, k), At(stream, k), rest, TOP);
    ModUnique(Window(stream, k + 1), rest, At(stream, k + 4), 256);
  }

  /** If the bytes a normalisation emits stand in the stream at k, and the window behind them
      falls in the interval it ends with, then the window at k falls in the interval it began with. */
  lemma {:induction false} NormalizeContains(c: Coder, stream: seq<Byte>, k: nat)
    requires Valid(c)
    requires var n := Normalize(c);
      && k + |n.bytes| <= |stream|
      && stream[k..k + |n.bytes|] == n.bytes
      && Contains(n.coder, Window(stream, k + |n.bytes|))
    ensures Contains(c, Window(stream, k))
    decreases |Normalize(c).bytes|
  {
    hide Window, Valid, Loose, Settled, Normalize, Turn, Contains;
    ValidIsLoose(c);
    if Settled(c) {
      NormalizeDone(c);
      assert [] == Normalize(c).bytes;
    } else {
      NormalizeTurn(c);
      var rest := Normalize(Turn(c));
      var all := [TopByte(c)] + rest.bytes;
      assert Normalize(c).bytes == all;
      assert stream[k] == stream[k..k + |all|][0] == TopByte(c);
      assert stream[k + 1..k + 1 + |rest.bytes|] == stream[k..k + |all|][1..] == rest.bytes;
      NormalizeContains(Turn(c), stream, k + 1);
      WindowShift(stream, k);
      WindowTop(stream, k);
      TurnContains(c, Window(stream, k), Window(stream, k + 1));
    }
  }

  lemma WindowTop(stream: seq<Byte>, k: nat)
    ensures Window(stream, k) == At(stream, k) * TOP + Window(stream, k) % TOP
  {
    var rest := At(stream, k + 1) * BOTTOM + At(stream, k + 2) * 256 + At(stream, k + 3);
    ModUnique(Window(stream, k), At(stream, k), rest, TOP);
  }

  /** A code inside the interval after a turn was inside it before. */
  lemma TurnContains(c: Coder, code: Word, next: Word)
    requires Valid(c) && !Settled(c) && Contains(Turn(c), next)
    requires code == TopByte(c) * TOP + next / 256
    ensures Contains(c, code)
  {
    TurnShrinks(c);
  }

  /** The same for one encoded slot; and the read the decoder makes lands inside the slot. */
  lemma EncodeContains(c: Coder, s: Slot, stream: seq<Byte>, k: nat)
    requires Normal(c) && Fits(s)
    requires var n := Encode(c, s);
      && k + |n.bytes| <= |stream|
      && stream[k..k + |n.bytes|] == n.bytes
      && Contains(n.coder, Window(stream, k + |n.bytes|))
    ensures Contains(c, Window(stream, k))
    ensures s.under <= Read(c, Window(stream, k), s.total) < s.under + s.count
  {
    NarrowInside(c, s);
    NormalizeContains(Narrow(c, s), stream, k);
    ReadInSlot(c, s, Window(stream, k));
  }

  lemma ReadInSlot(c: Coder, s: Slot, code: Word)
    requires Normal(c) && Fits(s) && Contains(Narrow(c, s), code)
    ensures s.under <= Read(c, code, s.total) < s.under + s.count
  {
    NarrowInside(c, s);
    var unit := c.range / s.total;
    var offset := code - c.low;
    assert offset % MODULUS == offset;
    assert (s.under + s.count) * unit == s.under * unit + unit * s.count;
    DivBounds(offset, s.under, s.under + s.count, unit);
    SmallMod(offset / unit);
  }

  lemma SmallMod(x: nat)
    requires x < 0x1_0000
    ensures x % 0x1_0000 == x
  {
  }

  /** ENET_RANGE_CODER_READ: the unit the decoder's code falls in, as stored in 16 bits. The
      subtraction is unsigned, so a code below low wraps around. */
  function Read(c: Coder, code: Word, total: nat): (unit: nat)
    requires Steady(c) && 0 < total < BOTTOM
    ensures unit < 0x1_0000
  {
    UnitPositive(c.range, total);
    (code - c.low) % MODULUS / (c.range / total) % 0x1_0000
  }

  /** A decoder at the end of a flushed stream holds exactly the encoder's low. */
  lemma {:induction false} FlushWindow(low: Word, stream: seq<Byte>, k: nat)
    requires k <= |stream| && stream[k..] == Flush(low)
    ensures Window(stream, k) == low
    ensures forall j :: k + 4 <= j ==> At(stream, j) == 0
    decreases Significant(low)
  {
    if low == 0 {
      assert |stream| == k;
    } else {
      var next := low * 256 % MODULUS;
      FlushStep(low);
      assert stream[k..][0] == stream[k];
      assert stream[k + 1..] == stream[k..][1..] == Flush(next);
      FlushWindow(next, stream, k + 1);
      WindowShift(stream, k);
      assert Significant(next) <= 3;
      assert |stream| <= k + 4;
    }
  }

  /** Past the last slot the decoder's code equals its low, and normalising keeps it so. */
  lemma {:induction false} NormalizeKeepsLow(c: Coder, stream: seq<Byte>, k: nat)
    requires Valid(c)
    requires Window(stream, k) == c.low
    requires forall j :: k + 4 <= j ==> At(stream, j) == 0
    ensures var n := Normalize(c); Window(stream, k + |n.bytes|) == n.coder.low
    decreases |Normalize(c).bytes|
  {
    if !Settled(c) {
      TurnShrinks(c);
      WindowShift(stream, k);
      NormalizeKeepsLow(Turn(c), stream, k + 1);
      assert |Normalize(c).bytes| == 1 + |Normalize(Turn(c)).bytes|;
    }
  }
}
