/** enet_crc32 (enet/packet.c) computes the CRC-32 of RFC 1952, section 8, whatever the buffers; and
    what that checksum is good for. */
module PacketChecksum {
  import opened Checksum

  function Or(a: bv32, b: bv32): bv32 {
    a | b
  }

  lemma OrMoves(r: bv32, m: bv32, x: bv32)
    ensures Or(Or(r, m), x) == Or(r, Or(x, m))
  {
  }

  lemma PutIsOr(bit: bool, m: bv32, x: bv32)
    ensures Put(bit, m, x) == if bit then Or(x, m) else x
  {
  }

  lemma OrPut(bit: bool, r: bv32, m: bv32, x: bv32)
    ensures Or(Put(bit, m, r), x) == Or(r, Put(bit, m, x))
  {
    hide Or, Put;
    PutIsOr(bit, m, r);
    PutIsOr(bit, m, x);
    OrMoves(r, m, x);
  }

  lemma OrZero(r: bv32)
    ensures Or(r, 0) == r && Or(0, r) == r
  {
  }

  function Joined(buffers: seq<seq<bv8>>): seq<bv8> {
    if buffers == [] then [] else Joined(buffers[..|buffers| - 1]) + buffers[|buffers| - 1]
  }

  function Number(x: bv8): (i: nat)
    ensures i < 256
  {
    x as int
  }

  function ByteOf(i: nat): bv8
    requires i < 256
  {
    i as bv8
  }

  lemma ByteOfNumber(x: bv8)
    ensures ByteOf(Number(x)) == x
  {
  }

  /** The table, and whether it has been computed. */
  class CrcTable {
    var initializedCRC32: bool
    const crcTable: array<bv32>

    ghost predicate Ready()
      reads this, crcTable
    {
      crcTable.Length == 256 && (initializedCRC32 ==> forall i :: 0 <= i < 256 ==> crcTable[i] == TableEntry(ByteOf(i)))
    }

    constructor ()
      ensures Ready() && !initializedCRC32
    {
      crcTable := new bv32[256];
      initializedCRC32 := false;
    }

    /** reflect_crc: every set bit is put at its mirrored place. */
    method ReflectCrc(val: bv32, bits: nat) returns (result: bv32)
      ensures result == Reflect(val, bits)
    {
      hide Put, Odd, Half, Or, One;
      result := 0;
      var rest, bit := val, 0;
      OrZero(Reflect(val, bits));
      while bit < bits
        invariant bit <= bits && Or(result, Reflect(rest, bits - bit)) == Reflect(val, bits)
      {
        OrPut(Odd(rest), result, One(bits - 1 - bit), Reflect(Half(rest), bits - bit - 1));
        result := Put(Odd(rest), One(bits - 1 - bit), result);
        rest := Half(rest);
        bit := bit + 1;
      }
      OrZero(result);
    }

    /** initialize_crc32 */
    method InitializeCrc32()
      requires crcTable.Length == 256
      modifies this, crcTable
      ensures Ready() && initializedCRC32
    {
      hide Reflect, ShiftedBy24, Doubled, Xor, Clear, ByteOf;
      var byte := 0;
      while byte < 256
        invariant byte <= 256
        invariant forall i :: 0 <= i < byte ==> crcTable[i] == TableEntry(ByteOf(i))
      {
        var reflected := ReflectCrc(ByteOf(byte) as bv32, 8);
        var crc := ShiftedBy24(reflected);
        ghost var first := crc;
        for offset := 0 to 8
          invariant crc == HighSteps(first, offset)
        {
          crc := if Clear(crc, TOP) then Doubled(crc) else Xor(Doubled(crc), POLYNOMIAL);
        }
        crcTable[byte] := ReflectCrc(crc, 32);
        byte := byte + 1;
      }
      initializedCRC32 := true;
    }

    /** enet_crc32, before the byte order of the result is changed. */
    method Crc(buffers: seq<seq<bv8>>) returns (crc: bv32)
      requires Ready()
      modifies this, crcTable
      ensures Ready() && initializedCRC32
      ensures crc == Crc32(Joined(buffers))
    {
      hide TableEntry, Update, Xor, Right8, Index, ByteOf, Number;
      crc := START;
      if !initializedCRC32 { InitializeCrc32(); }
      var k := 0;
      while k < |buffers|
        invariant k <= |buffers| && Ready() && initializedCRC32
        invariant crc == Updates(START, Joined(buffers[..k]))
      {
        var data := 0;
        assert Joined(buffers[..k]) + buffers[k][..0] == Joined(buffers[..k]);
        while data < |buffers[k]|
          invariant data <= |buffers[k]| && Ready() && initializedCRC32
          invariant crc == Updates(START, Joined(buffers[..k]) + buffers[k][..data])
        {
          var byte := buffers[k][data];
          ByteOfNumber(Index(crc, byte));
          TableUpdate(crc, byte);
          assert Joined(buffers[..k]) + buffers[k][..data + 1] == (Joined(buffers[..k]) + buffers[k][..data]) + [byte];
          UpdatesSnoc(START, Joined(buffers[..k]) + buffers[k][..data], byte);
          crc := Xor(Right8(crc), crcTable[Number(Index(crc, byte))]);
          data := data + 1;
        }
        assert buffers[k][..data] == buffers[k] && buffers[..k + 1][..k] == buffers[..k];
        k := k + 1;
      }
      assert buffers[..k] == buffers;
      return !crc;
    }
  }

  lemma UpdatesSnoc(crc: bv32, bytes: seq<bv8>, byte: bv8)
    ensures Updates(crc, bytes + [byte]) == Update(Updates(crc, bytes), byte)
  {
    assert (bytes + [byte])[..|bytes|] == bytes;
  }

  // What the checksum detects

  lemma StepTellsParity(a: bv32)
    ensures Odd(a) <==> !Clear(LowStep(a), TOP)
  {
    HalfTop(a);
  }

  lemma HalfTop(a: bv32)
    ensures (a >> 1) & 0x8000_0000 == 0 && ((a >> 1) ^ 0xEDB8_8320) & 0x8000_0000 != 0
  {
  }

  lemma SameHalves(a: bv32, b: bv32)
    requires Half(a) == Half(b) && Odd(a) == Odd(b)
    ensures a == b
  {
  }

  lemma XorCancels(a: bv32, b: bv32, c: bv32)
    requires Xor(a, c) == Xor(b, c)
    ensures a == b
  {
    assert (a ^ c) ^ c == a && (b ^ c) ^ c == b;
  }

  /** No step forgets anything. */
  lemma LowStepInjective(a: bv32, b: bv32)
    requires LowStep(a) == LowStep(b)
    ensures a == b
  {
    hide Half, Odd, Xor, Clear;
    StepTellsParity(a);
    StepTellsParity(b);
    if Odd(a) { XorCancels(Half(a), Half(b), REFLECTED); }
    SameHalves(a, b);
  }

  lemma {:induction false} LowStepsInjective(a: bv32, b: bv32, n: nat)
    requires LowSteps(a, n) == LowSteps(b, n)
    ensures a == b
  {
    hide LowStep;
    if n > 0 {
      LowStepInjective(LowSteps(a, n - 1), LowSteps(b, n - 1));
      LowStepsInjective(a, b, n - 1);
    }
  }

  /** A checksum that differs before the same bytes differs behind them. */
  lemma {:induction false} UpdatesInjective(a: bv32, b: bv32, bytes: seq<bv8>)
    requires Updates(a, bytes) == Updates(b, bytes)
    ensures a == b
  {
    hide LowSteps, Xor;
    if bytes != [] {
      var n := |bytes| - 1;
      var x, y, c := Updates(a, bytes[..n]), Updates(b, bytes[..n]), bytes[n] as bv32;
      LowStepsInjective(Xor(x, c), Xor(y, c), 8);
      XorCancels(x, y, c);
      UpdatesInjective(a, b, bytes[..n]);
    }
  }

  function Left8(c: bv32): bv32 {
    c << 8
  }

  predicate Below24(c: bv32) {
    c < 0x100_0000
  }

  lemma Left8Back(c: bv32)
    requires Below24(c)
    ensures Clear(Left8(c), 255) && Right8(Left8(c)) == c
  {
  }

  /** What is put in after eight steps could have been put in eight bits higher before them. */
  lemma PutInEarlier(w: bv32, c: bv32)
    requires Below24(c)
    ensures Xor(LowSteps(w, 8), c) == LowSteps(Xor(w, Left8(c)), 8)
  {
    hide Xor, LowSteps, Left8, Right8, Below24, Clear;
    Left8Back(c);
    HighStepsShift(Left8(c));
    LowStepsXor(w, Left8(c), 8);
  }

  function Word(a: bv8, b: bv8, c: bv8, d: bv8): bv32 {
    Xor(Xor(Xor(a as bv32, Left8(b as bv32)), Left8(Left8(c as bv32))), Left8(Left8(Left8(d as bv32))))
  }

  lemma Bytes24(b: bv8)
    ensures Below24(b as bv32) && Below24(Left8(b as bv32)) && Below24(Left8(Left8(b as bv32)))
  {
  }

  function Eight(w: bv32): bv32 {
    LowSteps(w, 8)
  }

  lemma UpdatesOneByOne(s: bv32, a: bv8, b: bv8, c: bv8, d: bv8)
    ensures Updates(s, [a, b, c, d]) == Update(Update(Update(Update(s, a), b), c), d)
  {
    hide Update;
    assert [a, b, c, d][..3] == [a, b, c] && [a, b, c][..2] == [a, b] && [a, b][..1] == [a] && [a][..0] == [];
    assert Updates(s, [a]) == Update(s, a);
    assert Updates(s, [a, b, c]) == Update(Update(Update(s, a), b), c);
  }

  /** Four bytes are taken in like one word. */
  lemma FourBytes(s: bv32, a: bv8, b: bv8, c: bv8, d: bv8)
    ensures Updates(s, [a, b, c, d]) == Eight(Eight(Eight(Eight(Xor(s, Word(a, b, c, d))))))
  {
    hide Xor, LowSteps, Left8, Below24, Updates;
    var (x, y, z, t) := (a as bv32, b as bv32, c as bv32, d as bv32);
    Bytes24(b); Bytes24(c); Bytes24(d);
    var u := Xor(s, x);
    var v := Xor(u, Left8(y));
    var w := Xor(v, Left8(Left8(z)));
    PutInEarlier(u, y);
    PutInEarlier(Eight(v), z);
    PutInEarlier(v, Left8(z));
    PutInEarlier(Eight(Eight(w)), t);
    PutInEarlier(Eight(w), Left8(t));
    PutInEarlier(w, Left8(Left8(t)));
    UpdatesOneByOne(s, a, b, c, d);
    XorAssociates(s, x, Left8(y));
    XorAssociates(s, Xor(x, Left8(y)), Left8(Left8(z)));
    XorAssociates(s, Xor(Xor(x, Left8(y)), Left8(Left8(z))), Left8(Left8(Left8(t))));
  }

  lemma WordByte0(a: bv8, b: bv8, c: bv8, d: bv8)
    ensures LowPart(Word(a, b, c, d)) == a as bv32
  {
  }

  lemma WordByte1(a: bv8, b: bv8, c: bv8, d: bv8)
    ensures LowPart(Right8(Word(a, b, c, d))) == b as bv32
  {
  }

  lemma WordByte2(a: bv8, b: bv8, c: bv8, d: bv8)
    ensures LowPart(Right8(Right8(Word(a, b, c, d)))) == c as bv32
  {
  }

  lemma WordByte3(a: bv8, b: bv8, c: bv8, d: bv8)
    ensures Right8(Right8(Right8(Word(a, b, c, d)))) == d as bv32
  {
  }

  lemma SameByte(a: bv8, b: bv8)
    requires a as bv32 == b as bv32
    ensures a == b
  {
  }

  lemma WordsDiffer(a: bv8, b: bv8, c: bv8, d: bv8, a': bv8, b': bv8, c': bv8, d': bv8)
    requires Word(a, b, c, d) == Word(a', b', c', d')
    ensures a == a' && b == b' && c == c' && d == d'
  {
    hide Word, LowPart, Right8;
    WordByte0(a, b, c, d); WordByte0(a', b', c', d'); SameByte(a, a');
    WordByte1(a, b, c, d); WordByte1(a', b', c', d'); SameByte(b, b');
    WordByte2(a, b, c, d); WordByte2(a', b', c', d'); SameByte(c, c');
    WordByte3(a, b, c, d); WordByte3(a', b', c', d'); SameByte(d, d');
  }

  /** Different strings of up to four bytes leave different checksums. */
  lemma ShortStringsDiffer(s: bv32, a: seq<bv8>, b: seq<bv8>)
    requires |a| == |b| <= 4 && Updates(s, a) == Updates(s, b)
    ensures a == b
  {
    hide Word, Xor, LowSteps, Updates;
    var zeros := seq(4 - |a|, i => 0 as bv8);
    UpdatesConcat(s, a, zeros);
    UpdatesConcat(s, b, zeros);
    var p, q := a + zeros, b + zeros;
    assert p == [p[0], p[1], p[2], p[3]] && q == [q[0], q[1], q[2], q[3]];
    FourBytes(s, p[0], p[1], p[2], p[3]);
    FourBytes(s, q[0], q[1], q[2], q[3]);
    var x, y := Xor(s, Word(p[0], p[1], p[2], p[3])), Xor(s, Word(q[0], q[1], q[2], q[3]));
    LowStepsInjective(Eight(Eight(Eight(x))), Eight(Eight(Eight(y))), 8);
    LowStepsInjective(Eight(Eight(x)), Eight(Eight(y)), 8);
    LowStepsInjective(Eight(x), Eight(y), 8);
    LowStepsInjective(x, y, 8);
    XorCommutes(s, Word(p[0], p[1], p[2], p[3]));
    XorCommutes(s, Word(q[0], q[1], q[2], q[3]));
    XorCancels(Word(p[0], p[1], p[2], p[3]), Word(q[0], q[1], q[2], q[3]), s);
    WordsDiffer(p[0], p[1], p[2], p[3], q[0], q[1], q[2], q[3]);
    assert p[..|a|] == a && q[..|a|] == b;
  }

  /** Any change to a packet that stays within four bytes next to each other changes its checksum. */
  lemma BurstDetected(front: seq<bv8>, a: seq<bv8>, b: seq<bv8>, rest: seq<bv8>)
    requires |a| == |b| <= 4 && a != b
    ensures Crc32(front + a + rest) != Crc32(front + b + rest)
  {
    hide Updates, Crc32;
    var s := Updates(START, front);
    UpdatesConcat(START, front, a);
    UpdatesConcat(START, front, b);
    UpdatesConcat(START, front + a, rest);
    UpdatesConcat(START, front + b, rest);
    if Crc32(front + a + rest) == Crc32(front + b + rest) {
      CrcInjective(front + a + rest, front + b + rest);
      UpdatesInjective(Updates(s, a), Updates(s, b), rest);
      ShortStringsDiffer(s, a, b);
    }
  }

  lemma CrcInjective(a: seq<bv8>, b: seq<bv8>)
    requires Crc32(a) == Crc32(b)
    ensures Updates(START, a) == Updates(START, b)
  {
    hide Updates;
    NotInjective(Updates(START, a), Updates(START, b));
  }

  lemma NotInjective(x: bv32, y: bv32)
    ensures !x == !y ==> x == y
  {
  }
}
