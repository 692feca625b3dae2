/** Decompression undoes compression, for every input and every sufficient output limit. */
module RoundTrip {
  import opened Octets
  import opened Division
  import opened RangeCoder
  import opened Frequencies
  import opened PpmModel

  /** The bytes of n stand in the stream at pos, and the window behind them is inside its interval. */
  ghost predicate Holds(stream: seq<Byte>, pos: nat, n: Normalized) {
    && pos + |n.bytes| <= |stream|
    && stream[pos..pos + |n.bytes|] == n.bytes
    && Contains(n.coder, Window(stream, pos + |n.bytes|))
  }

  lemma HoldsSplit(stream: seq<Byte>, pos: nat, first: seq<Byte>, rest: Normalized)
    requires Holds(stream, pos, Normalized(rest.coder, first + rest.bytes))
    ensures pos + |first| <= |stream| && stream[pos..pos + |first|] == first
    ensures Holds(stream, pos + |first|, rest)
  {
    var all := first + rest.bytes;
    assert stream[pos..pos + |first|] == stream[pos..pos + |all|][..|first|];
    assert stream[pos + |first|..pos + |all|] == stream[pos..pos + |all|][|first|..];
  }

  /** The reader takes back, slot by slot, what the encoder wrote for one byte. */
  lemma {:induction false} ReadsBack(
      ts: Tables, c: Context, i: nat, v: Byte, coder: Coder, stream: seq<Byte>, pos: nat)
    requires TablesOk(ts) && i <= |c| && Normal(coder)
    requires Holds(stream, pos, EncodeAll(coder, SlotsFrom(ts, c, i, v)))
    ensures Contains(coder, Window(stream, pos))
    ensures var n := EncodeAll(coder, SlotsFrom(ts, c, i, v));
      ReadFrom(ts, c, i, stream, coder, pos) == Found(v, Holder(ts, c, i, v), n.coder, pos + |n.bytes|)
    decreases |c| - i
  {
    hide Window, Mass, Total, Before, Encode, Contains, Normal, Lookup, TableOk, Fits, Read;
    TableAtOk(ts, c[i..]);
    var t, p := TableAt(ts, c[i..]), ParamsOf(c[i..]);
    TotalBounds(t, p);
    if i == |c| || Seen(ts, c[i..], v) {
      ReadsSymbol(ts, c, i, v, coder, stream, pos);
    } else if CanEscape(t, p) {
      EscapeFits(t, p);
      var s := EscapeSlot(t, p);
      var rest := SlotsFrom(ts, c, i + 1, v);
      assert SlotsFrom(ts, c, i, v) == [s] + rest;
      var first := Encode(coder, s);
      var after := EncodeAll(first.coder, rest);
      EncodeAllCons(coder, s, rest);
      HoldsSplit(stream, pos, first.bytes, after);
      ReadsBack(ts, c, i + 1, v, first.coder, stream, pos + |first.bytes|);
      EncodeContains(coder, s, stream, pos);
    } else {
      ReadsBack(ts, c, i + 1, v, coder, stream, pos);
    }
  }

  lemma ReadsSymbol(ts: Tables, c: Context, i: nat, v: Byte, coder: Coder, stream: seq<Byte>, pos: nat)
    requires TablesOk(ts) && i <= |c| && Normal(coder)
    requires i == |c| || Seen(ts, c[i..], v)
    requires Holds(stream, pos, EncodeAll(coder, SlotsFrom(ts, c, i, v)))
    ensures Contains(coder, Window(stream, pos))
    ensures var n := EncodeAll(coder, SlotsFrom(ts, c, i, v));
      ReadFrom(ts, c, i, stream, coder, pos) == Found(v, i, n.coder, pos + |n.bytes|)
  {
    hide Window, Mass, Total, Before, Encode, Contains, Normal, Lookup, TableOk, Fits, Read;
    TableAtOk(ts, c[i..]);
    var t, p := TableAt(ts, c[i..]), ParamsOf(c[i..]);
    TotalBounds(t, p);
    SlotFits(t, p, v);
    var s := SlotOf(t, p, v);
    SingleSlot(coder, s);
    EncodeContains(coder, s, stream, pos);
    NormalIsSteady(coder);
    LookupUnique(t, p, Read(coder, Window(stream, pos), Total(t, p)), v);
  }

  lemma EncodeAllCons(coder: Coder, s: Slot, rest: seq<Slot>)
    requires Normal(coder) && Fits(s) && AllFit(rest)
    ensures AllFit([s] + rest)
    ensures var first := Encode(coder, s);
      var after := EncodeAll(first.coder, rest);
      EncodeAll(coder, [s] + rest) == Normalized(after.coder, first.bytes + after.bytes)
  {
    hide Normal, Encode, Fits;
    assert ([s] + rest)[1..] == rest;
  }

  lemma SingleSlot(coder: Coder, s: Slot)
    requires Normal(coder) && Fits(s)
    ensures EncodeAll(coder, [s]) == Encode(coder, s)
  {
    assert EncodeAll(Encode(coder, s).coder, []).bytes == [];
    assert Encode(coder, s).bytes + [] == Encode(coder, s).bytes;
  }

  /** After the flush every context on the chain reads an escape, down to the root. */
  lemma {:induction false} ReadsEnd(ts: Tables, c: Context, i: nat, stream: seq<Byte>, coder: Coder, pos: nat)
    requires TablesOk(ts) && i <= |c| && Normal(coder)
    requires Window(stream, pos) == coder.low
    requires forall j :: pos + 4 <= j ==> At(stream, j) == 0
    ensures ReadFrom(ts, c, i, stream, coder, pos) == End
    decreases |c| - i
  {
    hide Window, Mass, Normalize;
    TableAtOk(ts, c[i..]);
    var t, p := TableAt(ts, c[i..]), ParamsOf(c[i..]);
    if i < |c| {
      if CanEscape(t, p) {
        EscapeFits(t, p);
        var n := Encode(coder, EscapeSlot(t, p));
        NarrowInside(coder, EscapeSlot(t, p));
        NormalizeKeepsLow(Narrow(coder, EscapeSlot(t, p)), stream, pos);
        ReadsEnd(ts, c, i + 1, stream, n.coder, pos + |n.bytes|);
        assert Read(coder, Window(stream, pos), Total(t, p)) == 0 by { ReadAtLow(coder, Total(t, p)); }
      } else {
        ReadsEnd(ts, c, i + 1, stream, coder, pos);
      }
    } else {
      ReadAtLow(coder, Total(t, p));
    }
  }

  lemma AtLow(coder: Coder)
    requires Normal(coder)
    ensures Contains(coder, coder.low)
  {
  }

  lemma ReadAtLow(coder: Coder, total: nat)
    requires Normal(coder) && 0 < total < BOTTOM
    ensures Read(coder, coder.low, total) == 0
  {
    UnitPositive(coder.range, total);
    assert (coder.low - coder.low) % MODULUS == 0;
    ModUnique(0, 0, 0, coder.range / total);
  }

  /** Wherever the encoder's remaining output stands at the end of a stream, the decoder, holding
      the same model and interval, reads the remaining input and then the end. */
  lemma {:induction false} Follows(m: Model, coder: Coder, input: seq<Byte>, stream: seq<Byte>, pos: nat, limit: nat)
    requires ModelOk(m) && Normal(coder)
    requires pos <= |stream| && stream[pos..] == Encoded(m, coder, input)
    requires |input| <= limit
    ensures Contains(coder, Window(stream, pos))
    ensures Decoded(m, coder, stream, pos, limit) == Bytes(input)
    decreases |input|
  {
    hide Window, Mass, EncodeAll, Contains, ReadFrom, Advance, Holder, SlotsFrom;
    if input == [] {
      FlushWindow(coder.low, stream, pos);
      assert Contains(coder, Window(stream, pos)) by { AtLow(coder); }
      ReadsEnd(m.tables, m.history, 0, stream, coder, pos);
    } else {
      var v := input[0];
      var n := EncodeAll(coder, SlotsFrom(m.tables, m.history, 0, v));
      var m' := Advance(m, Holder(m.tables, m.history, 0, v), v);
      var k := pos + |n.bytes|;
      assert stream[pos..] == n.bytes + Encoded(m', n.coder, input[1..]);
      assert stream[pos..k] == stream[pos..][..|n.bytes|];
      assert stream[k..] == stream[pos..][|n.bytes|..];
      Follows(m', n.coder, input[1..], stream, k, limit - 1);
      ReadsBack(m.tables, m.history, 0, v, coder, stream, pos);
      assert [v] + input[1..] == input;
    }
  }

  /** The law the compressor exists for. No end marker is coded: the reader stops by itself at the
      right byte. */
  lemma DecompressUndoesCompress(input: seq<Byte>, limit: nat)
    requires |input| <= limit
    ensures Decompressed(Compressed(input), limit) == Bytes(input)
  {
    hide Encoded, Decoded;
    var stream := Compressed(input);
    assert stream[0..] == stream;
    if stream == [] {
      if input != [] {
        NonEmpty(input);
        assert false;
      }
    } else {
      Follows(INITIAL, START, input, stream, 0, limit);
    }
  }

  /** A limit that is too small is refused, never answered with a wrong or shortened text. */
  lemma {:induction false} FollowsUntilFull(
      m: Model, coder: Coder, input: seq<Byte>, stream: seq<Byte>, pos: nat, limit: nat)
    requires ModelOk(m) && Normal(coder)
    requires pos <= |stream| && stream[pos..] == Encoded(m, coder, input)
    requires limit < |input|
    ensures Decoded(m, coder, stream, pos, limit) == Refused
    decreases |input|
  {
    hide Window, Mass, EncodeAll, Contains, ReadFrom, Advance, Holder, SlotsFrom;
    var v := input[0];
    var n := EncodeAll(coder, SlotsFrom(m.tables, m.history, 0, v));
    var m' := Advance(m, Holder(m.tables, m.history, 0, v), v);
    var k := pos + |n.bytes|;
    assert stream[pos..] == n.bytes + Encoded(m', n.coder, input[1..]);
    assert stream[pos..k] == stream[pos..][..|n.bytes|] == n.bytes;
    assert stream[k..] == stream[pos..][|n.bytes|..];
    Follows(m', n.coder, input[1..], stream, k, |input|);
    ReadsBack(m.tables, m.history, 0, v, coder, stream, pos);
    if limit > 0 {
      FollowsUntilFull(m', n.coder, input[1..], stream, k, limit - 1);
    }
  }

  lemma DecompressRefusesSmallLimit(input: seq<Byte>, limit: nat)
    requires limit < |input|
    ensures Decompressed(Compressed(input), limit) == Refused
  {
    hide Encoded, Decoded;
    var stream := Compressed(input);
    assert stream[0..] == stream;
    NonEmpty(input);
    FollowsUntilFull(INITIAL, START, input, stream, 0, limit);
  }

  /** Until the first byte is shifted out, low only grows. */
  lemma {:induction false} EncodeAllGrows(coder: Coder, slots: seq<Slot>)
    requires Normal(coder) && AllFit(slots)
    ensures var n := EncodeAll(coder, slots); n.bytes == [] ==> coder.low <= n.coder.low
    decreases |slots|
  {
    if slots != [] {
      NarrowInside(coder, slots[0]);
      EncodeAllGrows(Encode(coder, slots[0]).coder, slots[1..]);
    }
  }

  lemma {:induction false} EncodedNonEmpty(m: Model, coder: Coder, input: seq<Byte>)
    requires ModelOk(m) && Normal(coder) && 0 < coder.low
    ensures Encoded(m, coder, input) != []
    decreases |input|
  {
    if input != [] {
      var v := input[0];
      EncodeAllGrows(coder, SlotsFrom(m.tables, m.history, 0, v));
      var n := EncodeAll(coder, SlotsFrom(m.tables, m.history, 0, v));
      if n.bytes == [] {
        EncodedNonEmpty(Advance(m, Holder(m.tables, m.history, 0, v), v), n.coder, input[1..]);
      }
    }
  }

  /** A non-empty input never compresses to nothing, so a result of 0 always means failure. */
  lemma NonEmpty(input: seq<Byte>)
    requires input != []
    ensures Compressed(input) != []
  {
    var v := input[0];
    var slots := SlotsFrom(map[], [], 0, v);
    TableAtOk(map[], []);
    var t := TableAt(map[], []);
    SlotFits(t, ROOT, v);
    assert slots == [SlotOf(t, ROOT, v)];
    SingleSlot(START, slots[0]);
    NarrowInside(START, slots[0]);
    MulMonotone(1, slots[0].under, START.range / slots[0].total);
    var n := EncodeAll(START, slots);
    if n.bytes == [] {
      assert 0 < n.coder.low;
      EncodedNonEmpty(Advance(INITIAL, 0, v), n.coder, input[1..]);
    }
  }

  // Streams the encoder did not write

  /** Whether the registers at a read make a code that no slot of the total holds: how far the code lies behind low,
      around 32 bits, in units, cut to 16 bits. */
  predicate Beyond(c: Coder, code: Word, total: nat)
    requires BOTTOM <= c.range && 0 < total < BOTTOM
  {
    (code - c.low) % MODULUS / (c.range / total) % 0x1_0000 >= total
  }

  /** When a reading ends with a code the root does not check: every context that can be escaped gave an escape,
      and the root gives a code behind its slots. */
  lemma ReadsOutOfRange(ts: Tables, c: Context, i: nat, stream: seq<Byte>, coder: Coder, pos: nat)
    requires TablesOk(ts) && i <= |c| && Normal(coder)
    ensures var t, p := TableAt(ts, c[i..]), ParamsOf(c[i..]);
      && TableOk(t, p) && (i == |c| || CanEscape(t, p) ==> 0 < Total(t, p) < BOTTOM)
      && (ReadFrom(ts, c, i, stream, coder, pos) == OutOfRange <==>
            if i == |c| then Beyond(coder, Window(stream, pos), Total(t, p))
            else if CanEscape(t, p) then
              && Read(coder, Window(stream, pos), Total(t, p)) < t.escapes
              && Fits(EscapeSlot(t, p))
              && var n := Encode(coder, EscapeSlot(t, p));
                 ReadFrom(ts, c, i + 1, stream, n.coder, pos + |n.bytes|) == OutOfRange
            else ReadFrom(ts, c, i + 1, stream, coder, pos) == OutOfRange)
  {
    hide Window, Encode, Mass, TableOk, Lookup;
    TableAtOk(ts, c[i..]);
    var t, p := TableAt(ts, c[i..]), ParamsOf(c[i..]);
    TotalBounds(t, p);
    UnitPositive(coder.range, BOTTOM);
    if CanEscape(t, p) { EscapeFits(t, p); }
  }

  /** At the first read that is so exactly for streams that begin with four times 255. */
  lemma FirstReadOutOfRange(stream: seq<Byte>)
    ensures ReadFrom(map[], [], 0, stream, START, 0) == OutOfRange <==>
      |stream| >= 4 && stream[0] == stream[1] == stream[2] == stream[3] == 255
  {
    hide Mass, TableOk, Lookup, Encode, ReadFrom;
    ReadsOutOfRange(map[], [], 0, stream, START, 0);
    RootAtStart();
    var w := Window(stream, 0);
    FirstUnit(w);
    assert w == 0xFFFF_FFFF <==> |stream| >= 4 && stream[0] == stream[1] == stream[2] == stream[3] == 255;
  }

  lemma FirstUnit(w: Word)
    ensures Beyond(START, w, 257) <==> w == 0xFFFF_FFFF
  {
    assert 0xFFFF_FFFF == 257 * 16711935;
  }

  /** And no stream the encoder wrote makes the decoder read such a code, whatever the limit. */
  lemma OwnStreamsInRange(input: seq<Byte>, limit: nat)
    ensures Decompressed(Compressed(input), limit) != Unspecified
  {
    if |input| <= limit {
      DecompressUndoesCompress(input, limit);
    } else {
      DecompressRefusesSmallLimit(input, limit);
    }
  }

  /** A stream with which it does. */
  lemma UncheckedCode()
    ensures Decompressed([255, 255, 255, 255], 10) == Unspecified
  {
    hide Mass, TableOk, Lookup, Encode, Decoded, Window, Read;
    FirstReadOutOfRange([255, 255, 255, 255]);
    DecodedOutOfRange(INITIAL, START, [255, 255, 255, 255], 0, 10);
  }

  lemma RootAtStart()
    ensures Total(TableAt(map[], []), ROOT) == 257
  {
    MassZero(NoCounts(), 0, VALUES);
  }

  lemma DecodedOutOfRange(m: Model, coder: Coder, stream: seq<Byte>, pos: nat, limit: nat)
    requires ModelOk(m) && Normal(coder) && ReadFrom(m.tables, m.history, 0, stream, coder, pos) == OutOfRange
    ensures Decoded(m, coder, stream, pos, limit) == Unspecified
  {
    hide ReadFrom;
  }
}
